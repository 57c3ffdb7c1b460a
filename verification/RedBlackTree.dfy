/** The parent-pointer red-black tree with its super root, over real node objects. */
module RedBlackTrees {
  import opened RedBlackShape
  import opened RedBlackStore
  import opened RedBlackRepair
  import opened RedBlackSwap

  /** The cases of the repair after a removal, as the kernel numbers them from 1 to 6. */
  datatype RepairCase = AtRoot | SiblingIsRed | AllBlack | ParentIsRed | NearIsRed | FarIsRed

  ghost predicate Applies(which: RepairCase, c: Ctx) {
    match which
    case AtRoot => c.Top?
    case SiblingIsRed => !c.Top? && IsRed(Sibling(c))
    case AllBlack => BlackSiblingPlainNephews(c) && c.hue == Live(Black)
    case ParentIsRed => BlackSiblingPlainNephews(c) && c.hue == Live(Red)
    case NearIsRed =>
      && !c.Top? && Sibling(c).Bin? && !IsRed(Sibling(c))
      && IsRed(if c.InLeft? then Sibling(c).left else Sibling(c).right)
      && !IsRed(if c.InLeft? then Sibling(c).right else Sibling(c).left)
    case FarIsRed =>
      && !c.Top? && Sibling(c).Bin? && !IsRed(Sibling(c))
      && IsRed(if c.InLeft? then Sibling(c).right else Sibling(c).left)
  }

  class RedBlackTree {
    var root: Node?
    const superRoot: Node
    var size: nat
    /** The node objects that are linked into the tree. */
    ghost var repr: set<Node>
    /** The shape those objects form between two calls. */
    ghost var shape: Tree

    constructor ()
      ensures Valid() && Contents() == [] && fresh(superRoot)
    {
      root, size, repr, shape := null, 0, {}, Leaf;
      superRoot := new Node(0);
    }

    /** The elements in order, as node objects. */
    ghost function Contents(): seq<Node>
      reads `shape
    {
      InOrder(shape)
    }

    /** The super root caches the first and the last element. */
    ghost predicate EndsCached()
      reads `shape, superRoot
    {
      var s := Contents();
      superRoot.left == First(s) && superRoot.right == Last(s)
    }

    ghost predicate Valid()
      reads this, repr, superRoot
    {
      && Holds(Top, shape) && RedBlack(shape) && LiveTree(shape)
      && Increasing(Contents()) && size == |Contents()| && EndsCached()
    }

    ghost function Snap(): Store
      reads `repr, repr
    {
      map n | n in repr :: Cell(n.parent, n.left, n.right, n.color)
    }

    ghost predicate Holds(c: Ctx, t: Tree)
      reads `root, `repr, repr, superRoot
    {
      Focus(Snap(), superRoot, root, c, t) && superRoot.parent == null
    }

    static predicate IsLeftChild(node: Node)
      reads node, node.parent
    {
      node.parent == null || node.parent.parent == null || node.parent.left == node
    }

    /** What the fields around a rotation look like: `node` hangs below `node.parent`, whose slot holds it. */
    ghost predicate Hangs(node: Node)
      reads `root, `repr, repr, superRoot
    {
      && node in repr && superRoot !in repr && superRoot.parent == null
      && node.parent != null && node.parent != node
      && (node.parent == superRoot ==> root == node)
      && (node.parent != superRoot ==>
            && node.parent in repr && node.parent.parent != null
            && (node.parent.left == node || node.parent.right == node))
    }

    method RotateLeft(node: Node)
      requires Hangs(node) && node.right != null && node.right in repr && node.right != node
      requires node.right != node.parent
      requires node.right.left != null ==>
        node.right.left in repr && node.right.left != node && node.right.left != node.right &&
          node.right.left != node.parent
      modifies `root, repr
      ensures repr == old(repr) && RotatesLeft(old(Snap()), Snap(), superRoot, node)
      ensures root == if old(node.parent) == superRoot then old(node.right) else old(root)
    {
      var parent := node.parent;
      var rightChild := node.right;

      node.right := rightChild.left;
      if node.right != null {
        node.right.parent := node;
      }
      rightChild.parent := parent;
      if parent != superRoot {
        if IsLeftChild(node) {
          parent.left := rightChild;
        } else {
          parent.right := rightChild;
        }
      } else {
        root := rightChild;
      }
      rightChild.left := node;
      node.parent := rightChild;
    }

    method RotateRight(node: Node)
      requires Hangs(node) && node.left != null && node.left in repr && node.left != node && node.left != node.parent
      requires node.left.right != null ==>
        node.left.right in repr && node.left.right != node && node.left.right != node.left &&
          node.left.right != node.parent
      modifies `root, repr
      ensures repr == old(repr) && RotatesRight(old(Snap()), Snap(), superRoot, node)
      ensures root == if old(node.parent) == superRoot then old(node.left) else old(root)
    {
      var parent := node.parent;
      var leftChild := node.left;

      node.left := leftChild.right;
      if node.left != null {
        node.left.parent := node;
      }
      leftChild.parent := parent;
      if parent != superRoot {
        if IsLeftChild(node) {
          parent.left := leftChild;
        } else {
          parent.right := leftChild;
        }
      } else {
        root := leftChild;
      }
      leftChild.right := node;
      node.parent := leftChild;
    }

    method TurnLeft(node: Node, ghost c: Ctx, ghost t: Tree)
      requires Holds(c, t) && t.Bin? && t.node == node && t.right.Bin?
      modifies `root, repr
      ensures Holds(c, RotatedLeft(t)) && repr == old(repr)
    {
      ghost var m := Snap();
      Sites(m, superRoot, root, c, t);
      SitesBelow(m, t.right, node);
      assert t.right.left.Bin? ==> t.right.left.node in Nodes(t.right);
      RotateLeft(node);
      RotatedLeftFocus(m, Snap(), superRoot, old(root), c, t);
    }

    method TurnRight(node: Node, ghost c: Ctx, ghost t: Tree)
      requires Holds(c, t) && t.Bin? && t.node == node && t.left.Bin?
      modifies `root, repr
      ensures Holds(c, RotatedRight(t)) && repr == old(repr)
    {
      ghost var m := Snap();
      Sites(m, superRoot, root, c, t);
      SitesBelow(m, t.left, node);
      assert t.left.right.Bin? ==> t.left.right.node in Nodes(t.left);
      RotateRight(node);
      RotatedRightFocus(m, Snap(), superRoot, old(root), c, t);
    }

    method Paint(node: Node, color: Color, ghost c: Ctx, ghost t: Tree)
      requires Holds(c, t) && t.Bin? && t.node == node
      modifies repr
      ensures Holds(c, t.(hue := Live(color))) && repr == old(repr) && root == old(root)
    {
      ghost var m := Snap();
      node.color := color;
      PaintedFocus(m, superRoot, root, c, t, color);
      assert Snap() == Painted(m, node, color);
    }

    lemma Move(c: Ctx, t: Tree, d: Ctx, u: Tree)
      requires Holds(c, t) && Plug(c, t) == Plug(d, u)
      ensures Holds(d, u)
    {
      Refocus(Snap(), superRoot, root, c, t, d, u);
    }

    lemma Side(node: Node, c: Ctx, t: Tree)
      requires Holds(c, t) && t.Bin? && t.node == node && !c.Top?
      ensures node.parent == c.node && node in repr && c.node in repr
      ensures IsLeftChild(node) <==> c.InLeft?
      ensures node.color == ColorOf(t.hue) && c.node.color == ColorOf(c.hue)
      ensures (if c.InLeft? then c.node.right else c.node.left) == RootOf(Sibling(c))
    {
      Sites(Snap(), superRoot, root, c, t);
    }

    /** Red sibling: recolour it and the parent and rotate it above the parent. */
    method LiftRedSibling(node: Node, parent: Node, sibling: Node, ghost c: Ctx, ghost t: Tree)
      requires Holds(c, t) && t.Bin? && t.node == node && !c.Top? && c.node == parent
      requires Sibling(c).Bin? && Sibling(c).node == sibling
      modifies `root, repr
      ensures Holds(RedSibling(c), t) && repr == old(repr)
    {
      ghost var s, s', up := Sibling(c), Sibling(c).(hue := Live(Black)), c.up;
      ghost var c1 := WithHue(c, Live(Red));
      ghost var c2 := WithSibling(c1, s');
      Move(c, t, up, Closed(c, t));
      Paint(parent, Red, up, Closed(c, t));
      Move(up, Closed(c1, t), Around(c1, t), s);
      Paint(sibling, Black, Around(c1, t), s);
      Move(Around(c1, t), s', c2, t);
      Side(node, c2, t);
      Move(c2, t, up, Closed(c2, t));
      if IsLeftChild(node) {
        TurnLeft(parent, up, Closed(c2, t));
        Move(up, RotatedLeft(Closed(c2, t)), RedSibling(c), t);
      } else {
        TurnRight(parent, up, Closed(c2, t));
        Move(up, RotatedRight(Closed(c2, t)), RedSibling(c), t);
      }
    }

    /** Black sibling without red children: it turns red. */
    method ReddenSibling(node: Node, sibling: Node, ghost c: Ctx, ghost t: Tree)
      requires Holds(c, t) && t.Bin? && t.node == node && !c.Top?
      requires Sibling(c).Bin? && Sibling(c).node == sibling
      modifies repr
      ensures Holds(ReddenedSibling(c), t) && repr == old(repr) && root == old(root)
    {
      ghost var s := Sibling(c);
      Move(c, t, Around(c, t), s);
      Paint(sibling, Red, Around(c, t), s);
      Move(Around(c, t), s.(hue := Live(Red)), ReddenedSibling(c), t);
    }

    /** Black sibling with a red near child: rotate that child above the sibling. */
    method LiftNearNephew(node: Node, sibling: Node, ghost c: Ctx, ghost t: Tree)
      requires Holds(c, t) && t.Bin? && t.node == node && !c.Top?
      requires Sibling(c).Bin? && Sibling(c).node == sibling
      requires if c.InLeft? then Sibling(c).left.Bin? else Sibling(c).right.Bin?
      modifies `root, repr
      ensures Holds(WithSibling(c, NearRotated(Sibling(c), c.InLeft?)), t) && repr == old(repr)
    {
      ghost var s, d := Sibling(c), Around(c, t);
      ghost var s1 := s.(hue := Live(Red));
      Side(node, c, t);
      var left := IsLeftChild(node);
      Move(c, t, d, s);
      Paint(sibling, Red, d, s);
      Sites(Snap(), superRoot, root, d, s1);
      if left {
        Move(d, s1, InLeft(s.node, Live(Red), s.right, d), s.left);
        Paint(sibling.left, Black, InLeft(s.node, Live(Red), s.right, d), s.left);
        ghost var s2 := Bin(s.left.(hue := Live(Black)), s.node, Live(Red), s.right);
        Move(InLeft(s.node, Live(Red), s.right, d), s.left.(hue := Live(Black)), d, s2);
        TurnRight(sibling, d, s2);
        Move(d, RotatedRight(s2), WithSibling(c, NearRotated(s, true)), t);
      } else {
        Move(d, s1, InRight(s.left, s.node, Live(Red), d), s.right);
        Paint(sibling.right, Black, InRight(s.left, s.node, Live(Red), d), s.right);
        ghost var s2 := Bin(s.left, s.node, Live(Red), s.right.(hue := Live(Black)));
        Move(InRight(s.left, s.node, Live(Red), d), s.right.(hue := Live(Black)), d, s2);
        TurnLeft(sibling, d, s2);
        Move(d, RotatedLeft(s2), WithSibling(c, NearRotated(s, false)), t);
      }
    }

    /** Black sibling with a red far child: recolour and rotate the sibling above the parent. */
    method LiftFarNephew(node: Node, parent: Node, sibling: Node, ghost c: Ctx, ghost t: Tree)
      requires Holds(c, t) && t.Bin? && t.node == node && !c.Top? && c.node == parent && c.hue.Live?
      requires Sibling(c).Bin? && Sibling(c).node == sibling
      requires if c.InLeft? then Sibling(c).right.Bin? else Sibling(c).left.Bin?
      modifies `root, repr
      ensures Holds(FarNephew(c), t) && repr == old(repr)
    {
      ghost var s, up := Sibling(c), c.up;
      ghost var s1 := s.(hue := c.hue);
      Side(node, c, t);
      var left := IsLeftChild(node);
      Move(c, t, Around(c, t), s);
      Paint(sibling, parent.color, Around(c, t), s);
      Move(Around(c, t), s1, up, Closed(WithSibling(c, s1), t));
      Paint(parent, Black, up, Closed(WithSibling(c, s1), t));
      ghost var c1 := WithHue(WithSibling(c, s1), Live(Black));
      ghost var d := Around(c1, t);
      Move(up, Closed(c1, t), d, s1);
      Sites(Snap(), superRoot, root, d, s1);
      if left {
        Move(d, s1, InRight(s.left, s.node, c.hue, d), s.right);
        Paint(sibling.right, Black, InRight(s.left, s.node, c.hue, d), s.right);
        ghost var c2 := WithSibling(c1, Bin(s.left, s.node, c.hue, Black_(s.right)));
        Move(InRight(s.left, s.node, c.hue, d), Black_(s.right), up, Closed(c2, t));
        TurnLeft(parent, up, Closed(c2, t));
        Move(up, RotatedLeft(Closed(c2, t)), FarNephew(c), t);
      } else {
        Move(d, s1, InLeft(s.node, c.hue, s.right, d), s.left);
        Paint(sibling.left, Black, InLeft(s.node, c.hue, s.right, d), s.left);
        ghost var c2 := WithSibling(c1, Bin(Black_(s.left), s.node, c.hue, s.right));
        Move(InLeft(s.node, c.hue, s.right, d), Black_(s.left), up, Closed(c2, t));
        TurnRight(parent, up, Closed(c2, t));
        Move(up, RotatedRight(Closed(c2, t)), FarNephew(c), t);
      }
    }

    static function ColorOrBlack(node: Node?): Color
      reads node
    {
      if node == null then Black else node.color
    }

    /** The colours that the repair looks at, in terms of the shape. */
    lemma Colors(node: Node, c: Ctx, t: Tree)
      requires Holds(c, t) && t.Bin? && t.node == node && Short(c, t) && !c.Top?
      ensures var s := Sibling(c);
        && s.Bin? && s.node in repr
        && (s.node.color == Red <==> IsRed(s))
        && s.node.left == RootOf(s.left) && (s.left.Bin? ==> s.left.node in repr)
        && s.node.right == RootOf(s.right) && (s.right.Bin? ==> s.right.node in repr)
        && (ColorOrBlack(s.node.left) == Red <==> IsRed(s.left))
        && (ColorOrBlack(s.node.right) == Red <==> IsRed(s.right))
        && (c.node.color == Red <==> c.hue == Live(Red))
    {
      ShortHasSibling(c, t);
      Level(c, BlackHeight(t) + 1);
      var s := Sibling(c);
      Refocus(Snap(), superRoot, root, c, t, Around(c, t), s);
      Sites(Snap(), superRoot, root, Around(c, t), s);
      Hues(s);
      Hues(s.left);
      Hues(s.right);
    }

    method Blacken(node: Node, ghost c: Ctx, ghost t: Tree)
      requires Holds(c, t) && t.Bin? && t.node == node && ColorOf(t.hue) == Black
      modifies repr
      ensures Holds(c, t) && repr == old(repr) && root == old(root)
    {
      ghost var m := Snap();
      Sites(m, superRoot, root, c, t);
      node.color := Black;
      assert Snap() == m;
    }

    method ParentAndSibling(node: Node, ghost c: Ctx, ghost t: Tree) returns (parent: Node, sibling: Node)
      requires Holds(c, t) && t.Bin? && t.node == node && Short(c, t) && !c.Top?
      ensures parent == c.node && Sibling(c).Bin? && sibling == Sibling(c).node && c.hue.Live?
      ensures ColorOf(t.hue) == Black
    {
      Side(node, c, t);
      Colors(node, c, t);
      Level(c, BlackHeight(t) + 1);
      parent := node.parent;
      sibling := if IsLeftChild(node) then parent.right else parent.left;
    }

    /** Which case of the repair applies to `node`; one always does. */
    method MatchCase(node: Node, ghost c: Ctx, ghost t: Tree) returns (which: RepairCase)
      requires Holds(c, t) && t.Bin? && t.node == node && Short(c, t)
      ensures Applies(which, c)
    {
      Sites(Snap(), superRoot, root, c, t);
      if node == root {
        return AtRoot;
      }
      Side(node, c, t);
      Colors(node, c, t);
      Level(c, BlackHeight(t) + 1);
      ShortHasSibling(c, t);
      var parent := node.parent;
      var left := IsLeftChild(node);
      var sibling := if left then parent.right else parent.left;
      var siblingColor := ColorOrBlack(sibling);
      var siblingLeft := if sibling == null then Black else ColorOrBlack(sibling.left);
      var siblingRight := if sibling == null then Black else ColorOrBlack(sibling.right);

      if parent.color == Black && siblingColor == Red && siblingLeft == Black && siblingRight == Black {
        return SiblingIsRed;
      }
      if parent.color == Black && siblingColor == Black && siblingLeft == Black && siblingRight == Black {
        return AllBlack;
      }
      if parent.color == Red && siblingColor == Black && siblingLeft == Black && siblingRight == Black {
        return ParentIsRed;
      }
      if left && siblingColor == Black && siblingLeft == Red && siblingRight == Black {
        return NearIsRed;
      }
      if !left && siblingColor == Black && siblingLeft == Black && siblingRight == Red {
        return NearIsRed;
      }
      if left && siblingColor == Black && siblingRight == Red {
        return FarIsRed;
      }
      if !left && siblingColor == Black && siblingLeft == Red {
        return FarIsRed;
      }
      assert false;
    }

    method FixDoubleBlack(node: Node, ghost c: Ctx, ghost t: Tree) returns (ghost d: Ctx)
      requires Holds(c, t) && t.Bin? && t.node == node && Short(c, t)
      modifies `root, repr
      ensures Holds(d, t) && Settled(d, t) && SameOrder(c, d) && repr == old(repr)
      decreases BlackAbove(c), Trouble(c)
    {
      hide Focus, Linked, Path;
      var which := MatchCase(node, c, t);
      if which == AtRoot {
        Blacken(node, c, t);
        return c;
      }
      var parent, sibling := ParentAndSibling(node, c, t);
      match which
      case SiblingIsRed =>
        RedSiblingStep(c, t);
        LiftRedSibling(node, parent, sibling, c, t);
        d := FixDoubleBlack(node, RedSibling(c), t);
      case AllBlack =>
        PushUpStep(c, t);
        ReddenSibling(node, sibling, c, t);
        ghost var e := ReddenedSibling(c);
        Blacken(node, e, t);
        Move(e, t, c.up, Closed(e, t));
        ghost var u := FixDoubleBlack(parent, c.up, Closed(e, t));
        d := Below(e, u);
        Move(u, Closed(e, t), d, t);
        Reopened(e, u, t);
      case ParentIsRed =>
        RedParentStep(c, t);
        Move(c, t, c.up, Closed(c, t));
        Paint(parent, Black, c.up, Closed(c, t));
        d := WithHue(c, Live(Black));
        Move(c.up, Closed(d, t), d, t);
        ReddenSibling(node, sibling, d, t);
        d := ReddenedSibling(d);
        Blacken(node, d, t);
      case NearIsRed =>
        NearNephewStep(c, t);
        LiftNearNephew(node, sibling, c, t);
        d := FixDoubleBlack(node, WithSibling(c, NearRotated(Sibling(c), c.InLeft?)), t);
      case FarIsRed =>
        FarNephewStep(c, t);
        Blacken(node, c, t);
        LiftFarNephew(node, parent, sibling, c, t);
        d := FarNephew(c);
    }

    /** The nodes around an exchange are different objects. */
    ghost predicate Spread(node: Node, successor: Node)
      reads `root, `repr, repr, superRoot
    {
      && node in repr && successor in repr && node != successor && superRoot !in repr && superRoot.parent == null
      && (node == root <==> node.parent == superRoot) && node.parent != null && node.parent != node &&
        node.parent != successor
      && (node != root ==>
        node.parent in repr && node.parent.parent != null && (node.parent.left == node || node.parent.right == node))
      && node.left != null && node.left in repr && node.left != node && node.left != successor &&
        node.left != node.parent
      && node.right != null && node.right in repr && node.right != node && node.right != node.left &&
        node.right != node.parent
      && successor.left == null
      && (successor.right != null ==>
            && successor.right in repr && successor.right != node && successor.right != successor
            && successor.right != node.left && successor.right != node.right && successor.right != node.parent)
    }

    lemma SnapCell(n: Node)
      requires n in repr
      ensures Snap().Keys == repr && Snap()[n] == Cell(n.parent, n.left, n.right, n.color)
    {
    }

    // Field writes, stated as edits of the snapshot.

    method Place(node: Node, c: Cell)
      requires node in repr
      modifies repr
      ensures repr == old(repr) && root == old(root) && Snap() == old(Snap())[node := c]
    {
      node.parent, node.left, node.right, node.color := c.parent, c.left, c.right, c.color;
    }

    method SetParent(node: Node, parent: Node)
      requires node in repr
      modifies repr
      ensures repr == old(repr) && root == old(root)
      ensures Snap() == old(Snap())[node := old(Snap())[node].(parent := parent)]
    {
      node.parent := parent;
    }

    method SetChild(node: Node, left: bool, child: Node?)
      requires node in repr
      modifies repr
      ensures repr == old(repr) && root == old(root)
      ensures var was := old(Snap())[node];
        Snap() == old(Snap())[node := if left then was.(left := child) else was.(right := child)]
    {
      if left {
        node.left := child;
      } else {
        node.right := child;
      }
    }

    method SwapAdjacent(node: Node, successor: Node)
      requires Spread(node, successor) && successor.parent == node && node.right == successor
      modifies repr
      ensures repr == old(repr) && root == old(root)
      ensures Snap() == AdjacentEdits(old(Snap()), superRoot, node, successor)
    {
      hide Snap;
      SnapCell(node);
      SnapCell(successor);
      if node != root {
        SnapCell(node.parent);
      }
      var nodeParent, nodeRight, nodeLeft, nodeColor := node.parent, node.right, node.left, node.color;
      var nodeIsLeft := IsLeftChild(node);
      var succRight, succLeft, succColor := successor.right, successor.left, successor.color;
      var succIsLeft := IsLeftChild(successor);

      Place(node, Cell(successor, succLeft, succRight, succColor));
      Place(successor, Cell(nodeParent, if succIsLeft then node else nodeLeft, if succIsLeft then nodeRight else node,
        nodeColor));
      if succRight != null {
        SetParent(succRight, node);
      }
      if node != root {
        SetChild(nodeParent, nodeIsLeft, successor);
      }
      if nodeLeft != null {
        SetParent(nodeLeft, successor);
      }
    }

    method SwapApart(node: Node, successor: Node)
      requires Spread(node, successor) && node.right != successor
      requires var p := successor.parent;
        && p != null && p in repr && p.parent != null && p.left == successor
        && p != node && p != successor && p != node.left && p != node.parent && p != successor.right
      modifies repr
      ensures repr == old(repr) && root == old(root)
      ensures Snap() == ApartEdits(old(Snap()), superRoot, node, successor)
    {
      hide Snap;
      SnapCell(node);
      SnapCell(successor);
      if node != root {
        SnapCell(node.parent);
      }
      var nodeParent, nodeRight, nodeLeft, nodeColor := node.parent, node.right, node.left, node.color;
      var nodeIsLeft := IsLeftChild(node);
      var succParent, succRight, succLeft, succColor := successor.parent, successor.right, successor.left,
        successor.color;
      var succIsLeft := IsLeftChild(successor);

      Place(node, Cell(succParent, succLeft, succRight, succColor));
      Place(successor, Cell(nodeParent, nodeLeft, nodeRight, nodeColor));
      if succRight != null {
        SetParent(succRight, node);
      }
      SetChild(succParent, succIsLeft, node);
      if nodeRight != null {
        SetParent(nodeRight, successor);
      }
      if nodeLeft != null {
        SetParent(nodeLeft, successor);
      }
      if node != root {
        SetChild(nodeParent, nodeIsLeft, successor);
      }
    }

    method SetRoot(node: Node?)
      modifies `root
      ensures root == node && Snap() == old(Snap())
    {
      root := node;
    }

    method SwapLinks(node: Node, successor: Node, ghost c: Ctx,
                     ghost l: Tree, ghost h: Hue, ghost ic: Ctx, ghost hs: Hue, ghost r: Tree)
      requires Holds(c, WithSuccessor(l, node, h, ic, successor, hs, r)) && l.Bin? && Leftmost(ic)
      modifies repr
      ensures repr == old(repr) && root == old(root) && successor != root && node in repr && successor in repr
      ensures Snap() == Swapped(old(Snap()), node, successor)
    {
      ghost var m := Snap();
      ExchangeReady(node, successor, c, l, h, ic, hs, r);
      FocusMutual(m, superRoot, root, c, WithSuccessor(l, node, h, ic, successor, hs, r));
      if successor.parent == node {
        AdjacentSwapped(m, superRoot, root, node, successor);
        SwapAdjacent(node, successor);
      } else if node.parent == successor {
        assert false;
      } else {
        ApartSwapped(m, superRoot, root, node, successor);
        SwapApart(node, successor);
      }
    }

    /** Exchanges the positions of a node and its in-order successor; the objects keep their keys. */
    method SwapNodeWithSuccessor(node: Node, successor: Node, ghost c: Ctx,
                                 ghost l: Tree, ghost h: Hue, ghost ic: Ctx, ghost hs: Hue, ghost r: Tree)
      requires Holds(c, WithSuccessor(l, node, h, ic, successor, hs, r)) && l.Bin? && Leftmost(ic)
      modifies `root, repr
      ensures repr == old(repr)
      ensures Holds(SuccessorCtx(l, successor, h, ic, c), Bin(Leaf, node, hs, r))
    {
      ghost var m := Snap();
      SwapLinks(node, successor, c, l, h, ic, hs, r);
      if node == root {
        SetRoot(successor);
      }
      ExchangedFocus(m, superRoot, old(root), c, l, node, h, ic, successor, hs, r);
    }

    lemma ExchangeReady(node: Node, successor: Node, c: Ctx, l: Tree, h: Hue, ic: Ctx, hs: Hue, r: Tree)
      requires Holds(c, WithSuccessor(l, node, h, ic, successor, hs, r)) && l.Bin? && Leftmost(ic)
      ensures Spread(node, successor) && successor != root
      ensures ic.Top? ==> successor.parent == node && node.right == successor
      ensures !ic.Top? ==>
        var p := successor.parent;
        && node.right != successor
        && p != null && p in repr && p.parent != null && p.left == successor
        && p != node && p != successor && p != node.left && p != node.parent && p != successor.right
    {
      var m, t := Snap(), WithSuccessor(l, node, h, ic, successor, hs, r);
      ExchangeSites(m, superRoot, root, c, l, node, h, ic, successor, hs, r);
      FocusMutual(m, superRoot, root, c, t);
      assert MutualAt(m, superRoot, root, node) && MutualAt(m, superRoot, root, successor);
      Sites(m, superRoot, root, c, t);
      if !ic.Top? {
        RootInCtx(ic, successor);
        assert MutualAt(m, superRoot, root, ic.node);
      }
      assert l.node in Nodes(l) && (r.Bin? ==> r.node in Nodes(r));
      assert !c.Top? ==> c.node in CtxNodes(c) && MutualAt(m, superRoot, root, c.node);
    }

    ghost method Forget(dead: set<Node>)
      modifies this`repr
      ensures repr == old(repr) - dead && Snap() == old(Snap()) - dead
    {
      repr := repr - dead;
    }

    /** Unlinks and deletes `node`: the subtree `u`, one of its children or nothing, takes its place. */
    method Unlink(node: Node, child: Node?, ghost c: Ctx, ghost t: Tree, ghost u: Tree)
      requires Holds(c, t) && t.Bin? && t.node == node && RootOf(u) == child
      requires (u == t.left && t.right.Leaf?) || (u == t.right && t.left.Leaf?)
      modifies this`root, this`repr, repr
      ensures Holds(c, u) && repr == old(repr) - {node}
    {
      ghost var m := Snap();
      Sites(m, superRoot, root, c, t);
      assert u.Bin? ==> u.node in Nodes(u);
      var parent := node.parent;
      if parent == superRoot {
        SetRoot(child);
      } else {
        SetChild(parent, IsLeftChild(node), child);
      }
      assert Snap() == Hang(m, c, child);
      if child != null {
        SetParent(child, parent);
      }
      Forget({node});
      UnlinkedFocus(m, superRoot, old(root), c, t, u);
    }

    /** The nodes of a tree are different objects, and the super root is none of them. */
    lemma NoSharing(c: Ctx, t: Tree)
      requires Holds(c, t)
      ensures ApartAll(c, t) && superRoot !in repr
    {
    }

    lemma Children(node: Node, c: Ctx, t: Tree)
      requires Holds(c, t) && t.Bin? && t.node == node
      ensures node in repr && node.left == RootOf(t.left) && node.right == RootOf(t.right)
      ensures node.color == ColorOf(t.hue) && (node == root <==> c.Top?)
      ensures t.left.Bin? ==> t.left.node in repr
      ensures t.right.Bin? ==> t.right.node in repr
    {
      Sites(Snap(), superRoot, root, c, t);
    }

    /** Repairs the tree once the node at the focus counts as gone: recolours it, or spreads the
        missing black node over the tree. */
    method FixRemovalViolations(child: Node, deletedColor: Color, ghost c: Ctx, ghost t: Tree) returns (ghost d: Ctx)
      requires Holds(c, t) && t == Phantom(child)
      requires if deletedColor == Red then Settled(c, t) else Short(c, t)
      modifies `root, repr
      ensures Holds(d, t) && Settled(d, t) && SameOrder(c, d) && repr == old(repr)
    {
      Children(child, c, t);
      if child.color == Red || deletedColor == Red {
        Blacken(child, c, t);
        return c;
      }
      d := FixDoubleBlack(child, c, t);
    }

    /** An only child is a red leaf: it takes its parent's place in black. */
    method PromoteChild(node: Node, child: Node, ghost c: Ctx, ghost t: Tree) returns (ghost u: Tree)
      requires Holds(c, t) && t.Bin? && t.node == node && Settled(c, t) && LiveTree(t)
      requires t.left.Leaf? != t.right.Leaf? && child == (if t.left.Bin? then t.left.node else t.right.node)
      modifies `root, `repr, repr
      ensures Holds(c, u) && Settled(c, u) && LiveTree(u) && repr == old(repr) - {node}
      ensures InOrder(u) == [child] == InOrder(t.left) + InOrder(t.right)
    {
      OnlyChild(c, t);
      u := if t.left.Bin? then t.left else t.right;
      Unlink(node, child, c, t, u);
      Paint(child, Black, c, u);
      u := Black_(u);
    }

    /** A leaf below the root stays linked in, as a phantom, until the tree around it is repaired. */
    method RemoveLeaf(node: Node, ghost c: Ctx, ghost t: Tree) returns (ghost d: Ctx)
      requires Holds(c, t) && t.Bin? && t.node == node && Settled(c, t) && LiveTree(t) && t.left.Leaf? && t.right.Leaf?
      modifies `root, `repr, repr
      ensures Holds(d, Leaf) && Settled(d, Leaf) && SameOrder(c, d) && repr == old(repr) - {node}
    {
      Children(node, c, t);
      LeafGoes(c, t);
      var color := node.color;
      Paint(node, Black, c, t);
      d := FixRemovalViolations(node, color, c, Phantom(node));
      Unlink(node, null, d, Phantom(node), Leaf);
    }

    /** Removes a node with at most one child. */
    method RemoveLow(node: Node, ghost c: Ctx, ghost t: Tree) returns (ghost d: Ctx, ghost u: Tree)
      requires Holds(c, t) && t.Bin? && t.node == node && Settled(c, t) && LiveTree(t)
      requires t.left.Leaf? || t.right.Leaf?
      requires size == |Whole(c, t)|
      modifies this, repr
      ensures Holds(d, u) && Settled(d, u) && LiveTree(u) && repr == old(repr) - {node}
      ensures SameOrder(c, d) && InOrder(u) == InOrder(t.left) + InOrder(t.right)
      ensures size == old(size) - 1
    {
      Children(node, c, t);
      var child := if node.left != null then node.left else node.right;
      d := c;
      if child != null {
        if node == root {
          size := 1;
        } else {
          size := size - 1;
        }
        u := PromoteChild(node, child, c, t);
      } else if node == root {
        u := Leaf;
        Unlink(node, null, c, t, Leaf);
        size := 0;
      } else {
        u := Leaf;
        size := size - 1;
        d := RemoveLeaf(node, c, t);
      }
      assert size == old(size) - 1 by { if child != null { OnlyChild(c, t); } }
    }

    // ---------- walking in order ----------

    static predicate IsNull(node: Node)
      reads node
    {
      node.parent == null
    }

    method DescendLeft(start: Node, ghost c: Ctx, ghost t: Tree) returns (node: Node, ghost ic: Ctx, ghost low: Tree)
      requires Holds(c, t) && t.Bin? && t.node == start
      ensures Plug(ic, low) == t && Leftmost(ic) && low.Bin? && low.left.Leaf? && low.node == node
    {
      node, ic, low := start, Top, t;
      Children(node, c, t);
      while node.left != null
        invariant Holds(Compose(ic, c), low) && low.Bin? && low.node == node && Plug(ic, low) == t && Leftmost(ic)
        invariant node in repr && node.left == RootOf(low.left)
        decreases low
      {
        node := node.left;
        ghost var deeper := InLeft(low.node, low.hue, low.right, ic);
        Move(Compose(ic, c), low, Compose(deeper, c), low.left);
        ic, low := deeper, low.left;
        Children(node, Compose(ic, c), low);
      }
    }

    method DescendRight(start: Node, ghost c: Ctx, ghost t: Tree) returns (node: Node, ghost ic: Ctx, ghost low: Tree)
      requires Holds(c, t) && t.Bin? && t.node == start
      ensures Plug(ic, low) == t && Rightmost(ic) && low.Bin? && low.right.Leaf? && low.node == node
    {
      node, ic, low := start, Top, t;
      Children(node, c, t);
      while node.right != null
        invariant Holds(Compose(ic, c), low) && low.Bin? && low.node == node && Plug(ic, low) == t && Rightmost(ic)
        invariant node in repr && node.right == RootOf(low.right)
        decreases low
      {
        node := node.right;
        ghost var deeper := InRight(low.left, low.node, low.hue, ic);
        Move(Compose(ic, c), low, Compose(deeper, c), low.right);
        ic, low := deeper, low.right;
        Children(node, Compose(ic, c), low);
      }
    }

    lemma Above(node: Node, c: Ctx, t: Tree)
      requires Holds(c, t) && t.Bin? && t.node == node
      ensures node in repr && node.parent == ParentIn(c, superRoot) && (IsNull(node.parent) <==> c.Top?)
      ensures !c.Top? ==> (IsLeftChild(node) <==> c.InLeft?) && node.parent in repr
    {
      Sites(Snap(), superRoot, root, c, t);
    }

    /** The next node in order, or the super root after the last one. */
    method InorderSuccessor(start: Node, ghost c: Ctx, ghost t: Tree) returns (next: Node)
      requires Holds(c, t) && t.Bin? && t.node == start
      ensures var later := InOrder(t.right) + After(c); next == if later == [] then superRoot else later[0]
    {
      Children(start, c, t);
      if start.right != null {
        Move(c, t, InRight(t.left, t.node, t.hue, c), t.right);
        ghost var ic, low;
        next, ic, low := DescendLeft(start.right, InRight(t.left, t.node, t.hue, c), t.right);
        PlugInOrder(ic, low);
        LeftmostBefore(ic);
        return;
      }
      var node := start;
      ghost var d, u := c, t;
      Above(node, d, u);
      next := node.parent;
      while !IsNull(next) && !IsLeftChild(node)
        invariant Holds(d, u) && u.Bin? && u.node == node && After(d) == After(c)
        invariant node in repr && next == node.parent == ParentIn(d, superRoot) && (IsNull(next) <==> d.Top?)
        invariant !d.Top? ==> (IsLeftChild(node) <==> d.InLeft?) && next in repr
        decreases d
      {
        node := next;
        Move(d, u, d.up, Closed(d, u));
        d, u := d.up, Closed(d, u);
        Above(node, d, u);
        next := node.parent;
      }
    }

    /** The previous node in order, or the super root before the first one. */
    method InorderPredecessor(start: Node, ghost c: Ctx, ghost t: Tree) returns (previous: Node)
      requires Holds(c, t) && t.Bin? && t.node == start
      ensures var earlier := Before(c) + InOrder(t.left);
        previous == if earlier == [] then superRoot else earlier[|earlier| - 1]
    {
      Children(start, c, t);
      if start.left != null {
        Move(c, t, InLeft(t.node, t.hue, t.right, c), t.left);
        ghost var ic, low;
        previous, ic, low := DescendRight(start.left, InLeft(t.node, t.hue, t.right, c), t.left);
        PlugInOrder(ic, low);
        LeftmostBefore(ic);
        return;
      }
      var node := start;
      ghost var d, u := c, t;
      Above(node, d, u);
      previous := node.parent;
      while !IsNull(previous) && IsLeftChild(node)
        invariant Holds(d, u) && u.Bin? && u.node == node && Before(d) == Before(c)
        invariant node in repr && previous == node.parent == ParentIn(d, superRoot) && (IsNull(previous) <==> d.Top?)
        invariant !d.Top? ==> (IsLeftChild(node) <==> d.InLeft?) && previous in repr
        decreases d
      {
        node := previous;
        Move(d, u, d.up, Closed(d, u));
        d, u := d.up, Closed(d, u);
        Above(node, d, u);
        previous := node.parent;
      }
    }

    /** Brings a node with two children down to where its successor was. */
    method SinkNode(node: Node, ghost c: Ctx, ghost t: Tree) returns (ghost d: Ctx, ghost u: Tree)
      requires Holds(c, t) && t.Bin? && t.node == node && Settled(c, t) && LiveTree(t) && t.left.Bin? && t.right.Bin?
      modifies `root, repr
      ensures Holds(d, u) && Settled(d, u) && LiveTree(u) && u.Bin? && u.node == node && u.left.Leaf?
      ensures repr == old(repr)
      ensures Rest(d, u) == Rest(c, t) && |Whole(d, u)| == |Whole(c, t)|
    {
      hide Focus, Linked, Path, Increasing, Settled, Separate, Swapped;
      NoSharing(c, t);
      Children(node, c, t);
      ghost var l, h, rc := t.left, t.hue, InRight(t.left, t.node, t.hue, c);
      Move(c, t, rc, t.right);
      ghost var ic, low;
      var successor;
      successor, ic, low := DescendLeft(node.right, rc, t.right);
      ghost var hs, r := low.hue, low.right;
      assert t == WithSuccessor(l, node, h, ic, successor, hs, r);
      ExchangeSeparate(c, l, node, h, ic, successor, hs, r);
      ExchangedSettled(c, l, node, h, ic, successor, hs, r);
      ExchangedOrder(c, l, node, h, ic, successor, hs, r);
      SwapNodeWithSuccessor(node, successor, c, l, h, ic, hs, r);
      d, u := SuccessorCtx(l, successor, h, ic, c), Bin(Leaf, node, hs, r);
      RestWithoutLeft(d, u);
    }

    /** Removes the node in focus; an inner node first trades places with its successor. */
    method RemoveNode(node: Node, ghost c: Ctx, ghost t: Tree) returns (ghost d: Ctx, ghost u: Tree)
      requires Holds(c, t) && t.Bin? && t.node == node && Settled(c, t) && LiveTree(t)
      requires size == |Whole(c, t)|
      modifies this, repr
      ensures Holds(d, u) && Settled(d, u) && LiveTree(u) && repr == old(repr) - {node}
      ensures Whole(d, u) == Rest(c, t)
      ensures size == old(size) - 1
    {
      Children(node, c, t);
      ghost var c', t' := c, t;
      if node.left != null && node.right != null {
        c', t' := SinkNode(node, c, t);
      }
      d, u := RemoveLow(node, c', t');
      WholeAfterRemoval(c', t', d, u);
    }

    // ---------- the interface ----------

    /** Brings a node of the tree into focus. */
    lemma FocusOn(node: Node) returns (c: Ctx, t: Tree)
      requires Valid() && node in Contents()
      ensures Holds(c, t) && t.Bin? && t.node == node && Settled(c, t) && LiveTree(t) && Plug(c, t) == shape
    {
      var i :| 0 <= i < |Contents()| && Contents()[i] == node;
      NodeAt(shape, i);
      c, t := Locate(shape, node);
      Move(Top, shape, c, t);
      PlugRedBlack(c, t);
      PlugLive(c, t);
    }

    /** Moves the cached ends past `node` before it goes. */
    method SkipEnds(node: Node, ghost c: Ctx, ghost t: Tree)
      requires Holds(c, t) && t.Bin? && t.node == node && Increasing(Whole(c, t)) && size == |Whole(c, t)|
      requires superRoot.left == First(Whole(c, t)) && superRoot.right == Last(Whole(c, t))
      modifies superRoot
      ensures superRoot.parent == old(superRoot.parent)
      ensures superRoot.left == First(Rest(c, t)) && superRoot.right == Last(Rest(c, t))
    {
      hide Focus, Increasing, InOrder, Linked;
      EndsOfRest(c, t);
      Children(node, c, t);
      if size == 1 { AloneAtTop(c, t); }
      if node == root && size == 1 {
        superRoot.left := null;
        superRoot.right := null;
      } else if node == superRoot.left {
        var next := InorderSuccessor(node, c, t);
        superRoot.left := next;
      } else if node == superRoot.right {
        var previous := InorderPredecessor(node, c, t);
        superRoot.right := previous;
      }
    }

    /** Records the shape an update has reached. */
    ghost method Settle(c: Ctx, t: Tree)
      requires Holds(c, t) && Settled(c, t) && LiveTree(t) && Increasing(Whole(c, t)) && size == |Whole(c, t)|
      requires superRoot.left == First(Whole(c, t)) && superRoot.right == Last(Whole(c, t))
      modifies `shape
      ensures Valid() && Contents() == Whole(c, t)
    {
      shape := Plug(c, t);
      Move(c, t, Top, shape);
      PlugRedBlack(c, t);
      PlugLive(c, t);
      PlugInOrder(c, t);
    }

    /** Removes the element an iterator points at. */
    method Remove(node: Node) returns (ghost at: nat)
      requires Valid() && node in Contents()
      modifies this, repr, superRoot
      ensures Valid() && repr == old(repr) - {node}
      ensures at < |old(Contents())| && old(Contents())[at] == node
      ensures Contents() == old(Contents()[..at]) + old(Contents()[at + 1..])
    {
      hide Focus, Increasing, InOrder, RedBlack, LiveTree, ApartAll;
      ghost var c, t := FocusOn(node);
      NoSharing(c, t);
      AtPosition(c, t);
      at := Position(c, t);
      IncreasingWithout(Contents(), at);
      SkipEnds(node, c, t);
      ghost var d, u := RemoveNode(node, c, t);
      Settle(d, u);
    }

    // ---------- insertion ----------

    method BlackenChildren(node: Node, ghost c: Ctx, ghost t: Tree)
      requires Holds(c, t) && t.Bin? && t.node == node && t.left.Bin? && t.right.Bin?
      modifies repr
      ensures Holds(c, Bin(Black_(t.left), node, t.hue, Black_(t.right))) && repr == old(repr) && root == old(root)
    {
      Children(node, c, t);
      ghost var lc := InLeft(node, t.hue, t.right, c);
      Move(c, t, lc, t.left);
      Paint(node.left, Black, lc, t.left);
      ghost var t1 := Bin(Black_(t.left), node, t.hue, t.right);
      Move(lc, Black_(t.left), c, t1);
      Children(node, c, t1);
      ghost var rc := InRight(Black_(t.left), node, t.hue, c);
      Move(c, t1, rc, t.right);
      Paint(node.right, Black, rc, t.right);
      Move(rc, Black_(t.right), c, Bin(Black_(t.left), node, t.hue, Black_(t.right)));
    }

    /** Red aunt: parent and aunt turn black, the grandparent red unless it is the root. */
    method RecolorFamily(grandparent: Node, ghost c: Ctx, ghost t: Tree)
      requires Holds(c, t) && t.Bin? && !c.Top? && !c.up.Top? && c.up.node == grandparent && Sibling(c.up).Bin?
      modifies repr
      ensures Holds(c.up.up, RedAunt(c, t)) && repr == old(repr) && root == old(root)
    {
      ghost var top, g := c.up.up, Closed(c.up, Closed(c, t));
      Move(c, t, top, g);
      Children(grandparent, top, g);
      if grandparent != root {
        Paint(grandparent, Red, top, g);
        g := g.(hue := Live(Red));
      }
      BlackenChildren(grandparent, top, g);
    }

    /** Inner grandchild: rotate the node above its parent. */
    method Straighten(node: Node, ghost c: Ctx, ghost t: Tree)
      requires Holds(c, t) && t.Bin? && t.node == node && !c.Top?
      modifies `root, repr
      ensures Holds(StraightenedCtx(c, t), StraightenedTree(c, t)) && repr == old(repr)
    {
      Side(node, c, t);
      Move(c, t, c.up, Closed(c, t));
      if IsLeftChild(node) {
        TurnRight(node.parent, c.up, Closed(c, t));
        Move(c.up, RotatedRight(Closed(c, t)), StraightenedCtx(c, t), StraightenedTree(c, t));
      } else {
        TurnLeft(node.parent, c.up, Closed(c, t));
        Move(c.up, RotatedLeft(Closed(c, t)), StraightenedCtx(c, t), StraightenedTree(c, t));
      }
    }

    /** Outer grandchild: recolour and rotate the parent above the grandparent. */
    method Hoist(node: Node, grandparent: Node, ghost c: Ctx, ghost t: Tree)
      requires Holds(c, t) && t.Bin? && t.node == node && t.hue == Live(Red) && Straight(c) && c.up.node == grandparent
      modifies `root, repr
      ensures Holds(HoistedCtx(c, t), HoistedTree(c)) && repr == old(repr)
    {
      ghost var top, g := c.up.up, Closed(c.up, Closed(c, t));
      Side(node, c, t);
      var left := IsLeftChild(node);
      var parent := node.parent;
      Move(c, t, top, g);
      Paint(grandparent, Red, top, g);
      ghost var up := WithHue(c.up, Live(Red));
      Move(top, Closed(up, Closed(c, t)), up, Closed(c, t));
      Paint(parent, Black, up, Closed(c, t));
      ghost var c1 := WithHue(c, Live(Black));
      Move(up, Closed(c1, t), Below(c1, up), t);
      Paint(node, Red, Below(c1, up), t);
      ghost var g1 := Closed(up, Closed(c1, t));
      Move(Below(c1, up), t, top, g1);
      if left {
        TurnRight(grandparent, top, g1);
        Move(top, RotatedRight(g1), HoistedCtx(c, t), HoistedTree(c));
      } else {
        TurnLeft(grandparent, top, g1);
        Move(top, RotatedLeft(g1), HoistedCtx(c, t), HoistedTree(c));
      }
    }

    /** Red node below a red parent: what the repair sees around it. */
    lemma RedPair(node: Node, c: Ctx, t: Tree)
      requires Holds(c, t) && t.Bin? && t.node == node && Pending(c, t) && IsRed(t) && !c.Top? && c.hue == Live(Red)
      ensures node in repr && node.parent in repr && !c.up.Top? && node.parent.parent == c.up.node && c.up.node in repr
      ensures (IsLeftChild(node) <==> c.InLeft?) && (IsLeftChild(node.parent) <==> c.up.InLeft?)
      ensures (if c.up.InLeft? then c.up.node.right else c.up.node.left) == RootOf(Sibling(c.up))
      ensures Sibling(c.up).Bin? ==>
        Sibling(c.up).node in repr && (Sibling(c.up).node.color == Red <==> IsRed(Sibling(c.up)))
    {
      RedParentHasParent(c);
      Side(node, c, t);
      Move(c, t, c.up, Closed(c, t));
      Side(node.parent, c.up, Closed(c, t));
      Level(c, BlackHeight(t));
      Level(c.up, BlackHeight(t));
      var a := Sibling(c.up);
      if a.Bin? {
        Move(c, t, Around(c.up, Closed(c, t)), a);
        Children(a.node, Around(c.up, Closed(c, t)), a);
        Hues(a);
      }
    }

    /** Black aunt: one or two rotations end the repair. */
    method RotateFamily(node: Node, grandparent: Node, ghost c: Ctx, ghost t: Tree)
      returns (ghost d: Ctx, ghost u: Tree)
      requires Holds(c, t) && t.Bin? && t.node == node && Pending(c, t) && IsRed(t) && !c.Top? && c.hue == Live(Red)
      requires !c.up.Top? && c.up.node == grandparent && !IsRed(Sibling(c.up))
      modifies `root, repr
      ensures Holds(d, u) && Pending(d, u) && RedFits(d) && u.Bin? && u.node == grandparent && Depth(d) < Depth(c)
      ensures Whole(d, u) == Whole(c, t) && repr == old(repr)
    {
      RedPair(node, c, t);
      var parent := node.parent;
      var straight := IsLeftChild(node) == IsLeftChild(parent);
      if straight {
        d, u := c, t;
        Hoist(node, grandparent, c, t);
      } else {
        StraightenStep(c, t);
        d, u := StraightenedCtx(c, t), StraightenedTree(c, t);
        Straighten(node, c, t);
        Hoist(parent, grandparent, d, u);
        WholeClosed(c, t);
        WholeClosed(d, u);
      }
      HoistStep(d, u);
      WholeTwoUp(d, u, Closed(HoistedCtx(d, u), HoistedTree(d)));
      WholeClosed(HoistedCtx(d, u), HoistedTree(d));
      d, u := HoistedCtx(d, u), HoistedTree(d);
    }

    /** One round of the repair, which continues at the grandparent. */
    method FixFamily(node: Node, ghost c: Ctx, ghost t: Tree) returns (grandparent: Node, ghost d: Ctx, ghost u: Tree)
      requires Holds(c, t) && t.Bin? && t.node == node && Pending(c, t) && IsRed(t) && !c.Top? && c.hue == Live(Red)
      modifies `root, repr
      ensures Holds(d, u) && u.Bin? && u.node == grandparent && Pending(d, u) && Whole(d, u) == Whole(c, t)
      ensures repr == old(repr) && Depth(d) < Depth(c)
    {
      RedPair(node, c, t);
      var parent := node.parent;
      grandparent := parent.parent;
      var aunt := if IsLeftChild(parent) then grandparent.right else grandparent.left;
      if aunt != null && aunt.color == Red {
        RedAuntStep(c, t);
        WholeTwoUp(c, t, RedAunt(c, t));
        RecolorFamily(grandparent, c, t);
        d, u := c.up.up, RedAunt(c, t);
      } else {
        d, u := RotateFamily(node, grandparent, c, t);
      }
    }

    method FixInsertionViolations(start: Node, ghost c: Ctx, ghost t: Tree) returns (ghost d: Ctx, ghost u: Tree)
      requires Holds(c, t) && t.Bin? && t.node == start && Pending(c, t)
      modifies `root, repr
      ensures Holds(d, u) && Settled(d, u) && LiveTree(u) && Whole(d, u) == Whole(c, t) && repr == old(repr)
    {
      var node := start;
      d, u := c, t;
      Children(node, d, u);
      Above(node, d, u);
      while !IsNull(node) && node != root
        invariant Holds(d, u) && u.Bin? && u.node == node && Pending(d, u) && Whole(d, u) == Whole(c, t)
        invariant repr == old(repr)
        invariant node in repr && (node == root <==> d.Top?) && !IsNull(node)
        decreases Depth(d)
      {
        Side(node, d, u);
        Hues(u);
        Level(d, BlackHeight(u));
        if node.parent.color == Black || node.color == Black {
          return;
        }
        node, d, u := FixFamily(node, d, u);
        Children(node, d, u);
        Above(node, d, u);
      }
    }

    // ---------- search ----------

    ghost function OrEnd(n: Node?): Node {
      if n == null then superRoot else n
    }

    /** Where `key` cuts the contents: `at` elements are below it. */
    ghost predicate CutAt(at: nat, key: int)
      reads `shape
    {
      at <= |Contents()| && AllBelow(Contents()[..at], key) && AllFrom(Contents()[at..], key)
    }

    /** The first element not below `key`, or the end. */
    method LowerBound(key: int) returns (result: Node, ghost at: nat)
      requires Valid()
      ensures CutAt(at, key)
      ensures result == if at < |Contents()| then Contents()[at] else superRoot
    {
      if size == 0 {
        return superRoot, 0;
      }
      var node := root;
      result := superRoot;
      ghost var c, t := Top, shape;
      while node != null
        invariant Holds(c, t) && Plug(c, t) == shape && node == RootOf(t) && Cut(c, key)
        invariant result == OrEnd(First(After(c)))
        decreases t
      {
        Children(node, c, t);
        PlugInOrder(c, t);
        StepCut(c, t, key);
        if node.key < key {
          Move(c, t, InRight(t.left, t.node, t.hue, c), t.right);
          c, t := InRight(t.left, t.node, t.hue, c), t.right;
          node := node.right;
        } else {
          result := node;
          Move(c, t, InLeft(t.node, t.hue, t.right, c), t.left);
          c, t := InLeft(t.node, t.hue, t.right, c), t.left;
          node := node.left;
        }
      }
      at := |Before(c)|;
      PlugInOrder(c, t);
    }

    /** The first element above `key`, or the end. */
    method UpperBound(key: int) returns (result: Node, ghost at: nat)
      requires Valid()
      ensures CutAt(at, key + 1)
      ensures result == if at < |Contents()| then Contents()[at] else superRoot
    {
      if root == null {
        Nothing();
        return superRoot, 0;
      }
      var node := root;
      result := superRoot;
      ghost var c, t := Top, shape;
      while node != null
        invariant Holds(c, t) && Plug(c, t) == shape && node == RootOf(t) && Cut(c, key + 1)
        invariant result == OrEnd(First(After(c)))
        decreases t
      {
        Children(node, c, t);
        PlugInOrder(c, t);
        StepCut(c, t, key + 1);
        if key < node.key {
          result := node;
          Move(c, t, InLeft(t.node, t.hue, t.right, c), t.left);
          c, t := InLeft(t.node, t.hue, t.right, c), t.left;
          node := node.left;
        } else {
          Move(c, t, InRight(t.left, t.node, t.hue, c), t.right);
          c, t := InRight(t.left, t.node, t.hue, c), t.right;
          node := node.right;
        }
      }
      at := |Before(c)|;
      PlugInOrder(c, t);
    }

    lemma Nothing()
      requires Valid()
      ensures root == null <==> Contents() == []
    {
    }

    /** The element with `key`, or the super root when there is none. */
    method FindNode(key: int) returns (node: Node)
      requires Valid()
      ensures node == superRoot || (node in Contents() && node.key == key)
      ensures node == superRoot ==> forall i :: 0 <= i < |Contents()| ==> Contents()[i].key != key
      ensures superRoot !in Contents()
    {
      assert superRoot !in Contents() by {
        forall i | 0 <= i < |Contents()| ensures Contents()[i] != superRoot { NodeAt(shape, i); }
      }
      if size == 0 {
        return superRoot;
      }
      var current := root;
      ghost var c, t := Top, shape;
      while current != null
        invariant Holds(c, t) && Plug(c, t) == shape && current == RootOf(t) && Cut(c, key)
        invariant AllFrom(After(c), key + 1)
        decreases t
      {
        Children(current, c, t);
        PlugInOrder(c, t);
        StepCut(c, t, key);
        if current.key < key {
          Move(c, t, InRight(t.left, t.node, t.hue, c), t.right);
          c, t := InRight(t.left, t.node, t.hue, c), t.right;
          current := current.right;
        } else if key < current.key {
          StepCut(c, t, key + 1);
          Move(c, t, InLeft(t.node, t.hue, t.right, c), t.left);
          c, t := InLeft(t.node, t.hue, t.right, c), t.left;
          current := current.left;
        } else {
          AtPosition(c, t);
          return current;
        }
      }
      PlugInOrder(c, t);
      return superRoot;
    }

    /** Hangs a new node into the empty slot at the focus. */
    method Attach(node: Node, parent: Node, left: bool, ghost c: Ctx)
      requires Holds(c, Leaf) && node !in repr && node != superRoot
      requires node.left == null && node.right == null && node.color == Red
      requires !c.Top? && parent == c.node && (left <==> c.InLeft?)
      modifies `repr, repr, node
      ensures Holds(c, Bin(Leaf, node, Live(Red), Leaf)) && repr == old(repr) + {node}
    {
      ghost var m := Snap();
      if left {
        parent.left := node;
      } else {
        parent.right := node;
      }
      node.parent := parent;
      repr := repr + {node};
      assert Snap() == Attached(m, superRoot, c, node);
      AttachedFocus(m, superRoot, root, c, node);
    }

    /** The first element of the tree. */
    method PlantRoot(node: Node)
      requires Holds(Top, Leaf) && node !in repr && node != superRoot && node.left == null && node.right == null
      modifies `root, `repr, node
      ensures Holds(Top, Bin(Leaf, node, Live(Black), Leaf)) && repr == old(repr) + {node}
    {
      assert Snap().Keys == repr == {};
      root := node;
      node.parent := superRoot;
      node.color := Black;
      repr := repr + {node};
      assert Snap() == map[node := Cell(superRoot, null, null, Black)];
      ghost var t := Bin(Leaf, node, Live(Black), Leaf);
      assert Nodes(t) == {node} && CtxNodes(Top) == {} && ApartAll(Top, t);
      assert Linked(Snap(), t, superRoot) && Path(Snap(), Top, node, superRoot, root);
      assert Snap().Keys == Nodes(t) + CtxNodes(Top);
      assert superRoot !in Snap();
    }

    /** Walks down to the empty slot where a key that is not in the tree belongs, and hangs the node there. */
    method AttachSorted(node: Node) returns (ghost c: Ctx)
      requires Holds(Top, shape) && Increasing(Contents()) && shape.Bin? && node !in repr && node != superRoot
      requires node.left == null && node.right == null && node.color == Red
      modifies `repr, repr, node
      ensures Holds(c, Bin(Leaf, node, Live(Red), Leaf)) && repr == old(repr) + {node}
      ensures Plug(c, Leaf) == shape && Cut(c, node.key) && !c.Top?
    {
      var current := root;
      ghost var d, t := Top, shape;
      while true
        invariant Holds(d, t) && t.Bin? && current == t.node && Plug(d, t) == shape && Cut(d, node.key)
        invariant repr == old(repr) && current in repr
        invariant node.left == null && node.right == null && node.color == Red
        decreases t
      {
        Children(current, d, t);
        PlugInOrder(d, t);
        StepCut(d, t, node.key);
        if current.key < node.key {
          c := InRight(t.left, t.node, t.hue, d);
          Move(d, t, c, t.right);
          if current.right == null {
            Attach(node, current, false, c);
            return;
          }
          current, d, t := current.right, c, t.right;
        } else {
          c := InLeft(t.node, t.hue, t.right, d);
          Move(d, t, c, t.left);
          if current.left == null {
            Attach(node, current, true, c);
            return;
          }
          current, d, t := current.left, c, t.left;
        }
        assert current in repr by { Children(current, d, t); }
      }
    }

    /** Widens the cached ends to a new element. */
    method CacheEnds(node: Node)
      requires EndsCached() && node != superRoot && forall i :: 0 <= i < |Contents()| ==> Contents()[i].key != node.key
      modifies superRoot
      ensures superRoot.parent == old(superRoot.parent)
      ensures var s := Contents();
        && superRoot.left == (if s == [] || node.key < s[0].key then node else First(s))
        && superRoot.right == (if s == [] || s[|s| - 1].key < node.key then node else Last(s))
    {
      var smallerThanLeft, greaterThanRight := false, false;
      if superRoot.left == null || node.key < superRoot.left.key {
        superRoot.left := node;
        smallerThanLeft := true;
      }
      if superRoot.right == null || superRoot.right.key < node.key {
        superRoot.right := node;
        greaterThanRight := true;
      }
      if !smallerThanLeft && !greaterThanRight {
        // equal keys would move an end here, but keys are unique
        if !(superRoot.left.key < node.key) {
          assert false;
        }
        if !(node.key < superRoot.right.key) {
          assert false;
        }
      }
    }

    /** Links a new element into a non-empty tree. */
    method InsertSorted(node: Node) returns (ghost at: nat)
      requires Holds(Top, shape) && RedBlack(shape) && LiveTree(shape) && Increasing(Contents()) && shape.Bin?
      requires size == |Contents()| && node !in repr && node != superRoot
      requires node.left == null && node.right == null && node.color == Red
      requires forall i :: 0 <= i < |Contents()| ==> Contents()[i].key != node.key
      requires var s := Contents();
        && superRoot.left == (if s == [] || node.key < s[0].key then node else First(s))
        && superRoot.right == (if s == [] || s[|s| - 1].key < node.key then node else Last(s))
      modifies this, repr, node
      ensures Valid() && repr == old(repr) + {node} && at <= |old(Contents())|
      ensures Contents() == old(Contents()[..at]) + [node] + old(Contents()[at..])
    {
      hide Focus, Linked, Path, Increasing, Settled, Pending, RedBlack;
      NoSharing(Top, shape);
      ghost var s := Contents();
      ghost var c := AttachSorted(node);
      NewLeafPending(c, node);
      NewLeafWhole(c, node, s);
      NewLeafOrder(c, node, s);
      at := |Before(c)|;
      ghost var d, u := FixInsertionViolations(node, c, Bin(Leaf, node, Live(Red), Leaf));
      size := size + 1;
      Settle(d, u);
    }

    /** Adds `key` as a new element, or finds the element that has it. */
    method Emplace(key: int) returns (node: Node, inserted: bool, ghost at: nat)
      requires Valid()
      modifies this, repr, superRoot
      ensures Valid() && node.key == key
      ensures !inserted ==> node in old(Contents()) && Contents() == old(Contents()) && repr == old(repr)
      ensures inserted ==>
        && fresh(node) && repr == old(repr) + {node} && at <= |old(Contents())|
        && Contents() == old(Contents()[..at]) + [node] + old(Contents()[at..])
      ensures inserted ==> forall i :: 0 <= i < |old(Contents())| ==> old(Contents())[i].key != key
    {
      hide Focus, RedBlack, LiveTree, Increasing, ApartAll;
      at := 0;
      node := FindNode(key);
      if node != superRoot {
        return node, false, 0;
      }
      node := new Node(key);
      inserted := true;
      Nothing();
      NoSharing(Top, shape);
      CacheEnds(node);
      if root == null {
        PlantRoot(node);
        size := 1;
        Settle(Top, Bin(Leaf, node, Live(Black), Leaf));
        return;
      }
      at := InsertSorted(node);
    }

    /** Removes the element with `key`, if there is one. */
    method RemoveKey(key: int)
      requires Valid()
      modifies this, repr, superRoot
      ensures Valid()
      ensures (forall i :: 0 <= i < |old(Contents())| ==> old(Contents())[i].key != key) ==>
        Contents() == old(Contents())
      ensures forall i :: 0 <= i < |old(Contents())| && old(Contents())[i].key == key ==>
        Contents() == old(Contents())[..i] + old(Contents())[i + 1..]
    {
      ghost var s := Contents();
      var node := FindNode(key);
      if node == superRoot {
        return;
      }
      ghost var at := Remove(node);
      forall i | 0 <= i < |s| && s[i].key == key ensures i == at { OnePosition(s, i, at); }
    }

    // ---------- iteration ----------

    method Begin() returns (node: Node)
      requires Valid()
      ensures node == OrEnd(First(Contents()))
    {
      node := if size == 0 then superRoot else superRoot.left;
    }

    /** An iterator at element `at` moves to the next element, or to the end after the last. */
    method Next(node: Node, ghost at: nat) returns (next: Node)
      requires Valid() && at < |Contents()| && Contents()[at] == node
      ensures next == if at + 1 < |Contents()| then Contents()[at + 1] else superRoot
    {
      ghost var c, t := FocusOn(node);
      AtPosition(c, t);
      OnePosition(Contents(), at, Position(c, t));
      next := InorderSuccessor(node, c, t);
      assert Contents()[at + 1..] == InOrder(t.right) + After(c);
    }

    /** An iterator at element `at`, or at the end, moves back by one element. */
    method Previous(node: Node, ghost at: nat) returns (previous: Node)
      requires Valid() && 0 < at <= |Contents()| && node == (if at < |Contents()| then Contents()[at] else superRoot)
      ensures previous == Contents()[at - 1]
    {
      if at < |Contents()| { NodeAt(shape, at); Locatable(at); }
      if IsNull(node) {
        previous := node.right;
        return;
      }
      ghost var c, t := FocusOn(node);
      AtPosition(c, t);
      OnePosition(Contents(), at, Position(c, t));
      previous := InorderPredecessor(node, c, t);
      assert Contents()[..at] == Before(c) + InOrder(t.left);
    }

    lemma Locatable(at: nat)
      requires Valid() && at < |Contents()|
      ensures Contents()[at] in repr && Contents()[at].parent != null && Contents()[at] != superRoot
    {
      var c, t := FocusOn(Contents()[at]);
      Above(Contents()[at], c, t);
      Sites(Snap(), superRoot, root, c, t);
    }
  }
}
