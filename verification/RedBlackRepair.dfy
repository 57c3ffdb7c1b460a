/**
 The rebalancing steps as rewrites of the context around a subtree, each with the balance
 it needs and the balance it leaves. No node objects are touched here.
 */
module RedBlackRepair {
  import opened RedBlackShape

  ghost predicate LiveTree(t: Tree) {
    t.Bin? ==> t.hue.Live? && LiveTree(t.left) && LiveTree(t.right)
  }

  ghost predicate LiveCtx(c: Ctx) {
    match c
    case Top => true
    case InLeft(_, h, r, up) => h.Live? && LiveTree(r) && LiveCtx(up)
    case InRight(l, _, h, up) => h.Live? && LiveTree(l) && LiveCtx(up)
  }

  lemma {:induction false} PlugLive(c: Ctx, t: Tree)
    ensures LiveTree(Plug(c, t)) <==> LiveCtx(c) && LiveTree(t)
  {
    match c
    case Top =>
    case InLeft(n, h, r, up) => PlugLive(up, Bin(t, n, h, r));
    case InRight(l, n, h, up) => PlugLive(up, Bin(l, n, h, t));
  }

  /** Context and focus fit together and keep every red-black rule. */
  ghost predicate Settled(c: Ctx, t: Tree) {
    && LiveCtx(c) && SpacedCtx(c) && BalancedCtx(c, BlackHeight(t))
    && Balanced(t) && Spaced(t) && (IsRed(t) ==> RedFits(c))
  }

  /** The focus is one black node short of what its context needs. */
  ghost predicate Short(c: Ctx, t: Tree) {
    && LiveCtx(c) && SpacedCtx(c) && BalancedCtx(c, BlackHeight(t) + 1)
    && t.Bin? && !IsRed(t) && Balanced(t) && Spaced(t)
  }

  ghost predicate SameOrder(c: Ctx, d: Ctx) {
    Before(c) == Before(d) && After(c) == After(d)
  }

  ghost function Black_(t: Tree): Tree {
    if t.Bin? then t.(hue := Live(Black)) else t
  }

  ghost function Sibling(c: Ctx): Tree
    requires !c.Top?
  {
    if c.InLeft? then c.right else c.left
  }

  ghost function WithSibling(c: Ctx, s: Tree): Ctx
    requires !c.Top?
  {
    if c.InLeft? then InLeft(c.node, c.hue, s, c.up) else InRight(s, c.node, c.hue, c.up)
  }

  /** The context seen from the sibling. */
  ghost function Around(c: Ctx, t: Tree): Ctx
    requires !c.Top?
  {
    if c.InLeft? then InRight(t, c.node, c.hue, c.up) else InLeft(c.node, c.hue, t, c.up)
  }

  ghost function WithHue(c: Ctx, h: Hue): Ctx
    requires !c.Top?
  {
    if c.InLeft? then InLeft(c.node, h, c.right, c.up) else InRight(c.left, c.node, h, c.up)
  }

  // ---------- removal: the cases of the double-black repair ----------

  /** One level of the context's balance, written out. */
  lemma Level(c: Ctx, h: nat)
    requires LiveCtx(c) && SpacedCtx(c) && BalancedCtx(c, h) && !c.Top?
    ensures var s := Sibling(c);
      && LiveTree(s) && Spaced(s) && Balanced(s) && BlackHeight(s) == h
      && LiveCtx(c.up) && SpacedCtx(c.up) && BalancedCtx(c.up, h + Weight(c.hue))
      && (c.hue == Live(Red) || c.hue == Live(Black))
      && (c.hue == Live(Red) ==> !IsRed(s) && RedFits(c.up))
  {
    assert c.hue.color == Red || c.hue.color == Black;
  }

  lemma Hues(t: Tree)
    ensures LiveTree(t) && t.Bin? ==> t.hue == Live(Red) || t.hue == Live(Black)
  {
    if LiveTree(t) && t.Bin? {
      assert t.hue.color == Red || t.hue.color == Black;
    }
  }

  /** A subtree that is short by a black node has a sibling to borrow from. */
  lemma ShortHasSibling(c: Ctx, t: Tree)
    requires Short(c, t) && !c.Top?
    ensures Sibling(c).Bin? && Sibling(c).hue.Live?
    ensures IsRed(Sibling(c)) ==> c.hue == Live(Black) && !IsRed(Sibling(c).left) && !IsRed(Sibling(c).right)
  {
    Level(c, BlackHeight(t) + 1);
  }

  /** Red sibling: rotate it above the parent; the node then has a black sibling. */
  ghost function RedSibling(c: Ctx): Ctx
    requires !c.Top? && Sibling(c).Bin?
  {
    var s := Sibling(c);
    if c.InLeft? then InLeft(c.node, Live(Red), s.left, InLeft(s.node, Live(Black), s.right, c.up))
    else InRight(s.right, c.node, Live(Red), InRight(s.left, s.node, Live(Black), c.up))
  }

  lemma RedSiblingStep(c: Ctx, t: Tree)
    requires Short(c, t) && !c.Top? && IsRed(Sibling(c))
    ensures Short(RedSibling(c), t) && SameOrder(c, RedSibling(c))
    ensures Trouble(RedSibling(c)) < Trouble(c) && BlackAbove(RedSibling(c)) == BlackAbove(c)
  {
    var s := Sibling(c);
    Level(c, BlackHeight(t) + 1);
    Hues(s);
    if c.InLeft? {
      assert [c.node] + (InOrder(s.left) + [s.node] + InOrder(s.right)) + After(c.up)
          == [c.node] + InOrder(s.left) + ([s.node] + InOrder(s.right) + After(c.up));
    } else {
      assert Before(c.up) + (InOrder(s.left) + [s.node] + InOrder(s.right)) + [c.node]
          == (Before(c.up) + InOrder(s.left) + [s.node]) + InOrder(s.right) + [c.node];
    }
  }

  /** Black sibling without red children: it turns red. */
  ghost function ReddenedSibling(c: Ctx): Ctx
    requires !c.Top? && Sibling(c).Bin?
  {
    WithSibling(c, Sibling(c).(hue := Live(Red)))
  }

  ghost function Closed(c: Ctx, t: Tree): Tree
    requires !c.Top?
  {
    if c.InLeft? then Bin(t, c.node, c.hue, c.right) else Bin(c.left, c.node, c.hue, t)
  }

  /** The lowest level of `c`, moved below `u`. */
  ghost function Below(c: Ctx, u: Ctx): Ctx
    requires !c.Top?
  {
    if c.InLeft? then InLeft(c.node, c.hue, c.right, u) else InRight(c.left, c.node, c.hue, u)
  }

  /** Opening a settled subtree again keeps it settled. */
  lemma Reopened(c: Ctx, u: Ctx, t: Tree)
    requires !c.Top? && Settled(u, Closed(c, t)) && SameOrder(c.up, u) && c.hue == Live(Black) && LiveTree(Sibling(c))
    ensures Settled(Below(c, u), t) && SameOrder(c, Below(c, u))
  {
  }

  ghost predicate BlackSiblingPlainNephews(c: Ctx) {
    !c.Top? && Sibling(c).Bin? && !IsRed(Sibling(c)) && !IsRed(Sibling(c).left) && !IsRed(Sibling(c).right)
  }

  /** With a black parent the shortage moves up one level. */
  lemma PushUpStep(c: Ctx, t: Tree)
    requires Short(c, t) && BlackSiblingPlainNephews(c) && c.hue == Live(Black)
    ensures var d := ReddenedSibling(c); Short(c.up, Closed(d, t)) && SameOrder(c, d)
  {
    Level(c, BlackHeight(t) + 1);
    Hues(Sibling(c));
  }

  /** With a red parent, parent and sibling swap colours and the shortage is gone. */
  lemma RedParentStep(c: Ctx, t: Tree)
    requires Short(c, t) && BlackSiblingPlainNephews(c) && c.hue == Live(Red)
    ensures var d := ReddenedSibling(WithHue(c, Live(Black))); Settled(d, t) && SameOrder(c, d)
  {
    Level(c, BlackHeight(t) + 1);
    Hues(Sibling(c));
  }

  /** Black sibling whose near child is red: rotate that child above the sibling. */
  ghost function NearRotated(s: Tree, nearIsLeft: bool): Tree
    requires s.Bin? && (if nearIsLeft then s.left.Bin? else s.right.Bin?)
  {
    if nearIsLeft then
      Bin(s.left.left, s.left.node, Live(Black), Bin(s.left.right, s.node, Live(Red), s.right))
    else
      Bin(Bin(s.left, s.node, Live(Red), s.right.left), s.right.node, Live(Black), s.right.right)
  }

  lemma NearRotatedTree(s: Tree, nearIsLeft: bool)
    requires LiveTree(s) && Spaced(s) && Balanced(s) && s.Bin? && !IsRed(s)
    requires if nearIsLeft then IsRed(s.left) && !IsRed(s.right) else IsRed(s.right) && !IsRed(s.left)
    ensures var r := NearRotated(s, nearIsLeft);
      && LiveTree(r) && Spaced(r) && Balanced(r) && !IsRed(r) && BlackHeight(r) == BlackHeight(s)
      && (if nearIsLeft then IsRed(r.right) else IsRed(r.left))
      && InOrder(r) == InOrder(s)
  {
    Hues(s);
    if nearIsLeft {
      var x := s.left;
      assert (InOrder(x.left) + [x.node] + InOrder(x.right)) + [s.node] + InOrder(s.right)
          == InOrder(x.left) + [x.node] + (InOrder(x.right) + [s.node] + InOrder(s.right));
    } else {
      var x := s.right;
      assert InOrder(s.left) + [s.node] + (InOrder(x.left) + [x.node] + InOrder(x.right))
          == (InOrder(s.left) + [s.node] + InOrder(x.left)) + [x.node] + InOrder(x.right);
    }
  }

  lemma NearNephewStep(c: Ctx, t: Tree)
    requires Short(c, t) && !c.Top? && Sibling(c).Bin? && !IsRed(Sibling(c))
    requires if c.InLeft? then IsRed(Sibling(c).left) && !IsRed(Sibling(c).right)
                          else IsRed(Sibling(c).right) && !IsRed(Sibling(c).left)
    ensures var d := WithSibling(c, NearRotated(Sibling(c), c.InLeft?));
      Short(d, t) && SameOrder(c, d) && Trouble(d) == 0 && BlackAbove(d) == BlackAbove(c)
  {
    Level(c, BlackHeight(t) + 1);
    NearRotatedTree(Sibling(c), c.InLeft?);
  }

  /** Black sibling whose far child is red: rotate the sibling above the parent; done. */
  ghost function FarNephew(c: Ctx): Ctx
    requires !c.Top? && Sibling(c).Bin?
  {
    var s := Sibling(c);
    if c.InLeft? then InLeft(c.node, Live(Black), s.left, InLeft(s.node, c.hue, Black_(s.right), c.up))
    else InRight(s.right, c.node, Live(Black), InRight(Black_(s.left), s.node, c.hue, c.up))
  }

  lemma FarNephewStep(c: Ctx, t: Tree)
    requires Short(c, t) && !c.Top? && Sibling(c).Bin? && !IsRed(Sibling(c))
    requires if c.InLeft? then IsRed(Sibling(c).right) else IsRed(Sibling(c).left)
    ensures Settled(FarNephew(c), t) && SameOrder(c, FarNephew(c))
  {
    var s := Sibling(c);
    Level(c, BlackHeight(t) + 1);
    Hues(s);
    if c.InLeft? {
      assert [c.node] + (InOrder(s.left) + [s.node] + InOrder(s.right)) + After(c.up)
          == [c.node] + InOrder(s.left) + ([s.node] + InOrder(s.right) + After(c.up));
    } else {
      assert Before(c.up) + (InOrder(s.left) + [s.node] + InOrder(s.right)) + [c.node]
          == (Before(c.up) + InOrder(s.left) + [s.node]) + InOrder(s.right) + [c.node];
    }
  }

  /** Termination: black ancestors first, then how far the sibling is from the final case. */
  ghost function BlackAbove(c: Ctx): nat {
    if c.Top? then 0 else Weight(c.hue) + BlackAbove(c.up)
  }

  ghost function Trouble(c: Ctx): nat {
    if c.Top? || Sibling(c).Leaf? then 0
    else if IsRed(Sibling(c)) then 2
    else if (if c.InLeft? then IsRed(Sibling(c).right) else IsRed(Sibling(c).left)) then 0
    else 1
  }

  // ---------- insertion ----------

  /** Everything is in order except that a red focus may hang below a red parent. */
  ghost predicate Pending(c: Ctx, t: Tree) {
    && LiveCtx(c) && SpacedCtx(c) && BalancedCtx(c, BlackHeight(t))
    && LiveTree(t) && Balanced(t) && Spaced(t) && (IsRed(t) ==> !c.Top?)
  }

  /** A red parent is never the root. */
  lemma RedParentHasParent(c: Ctx)
    requires SpacedCtx(c) && LiveCtx(c) && !c.Top? && c.hue == Live(Red)
    ensures !c.up.Top? && c.up.hue == Live(Black) && !IsRed(Sibling(c))
  {
    assert LiveCtx(c.up) && (c.up.hue.color == Red || c.up.hue.color == Black);
  }

  /** Red aunt: parent and aunt turn black, the grandparent red unless it is the root. */
  ghost function RedAunt(c: Ctx, t: Tree): Tree
    requires !c.Top? && !c.up.Top?
  {
    var g := WithSibling(c.up, Black_(Sibling(c.up)));
    Closed(if c.up.up.Top? then g else WithHue(g, Live(Red)), Closed(WithHue(c, Live(Black)), t))
  }

  lemma RedAuntStep(c: Ctx, t: Tree)
    requires Pending(c, t) && IsRed(t) && !c.Top? && c.hue == Live(Red) && !c.up.Top? && IsRed(Sibling(c.up))
    ensures var g := RedAunt(c, t);
      Pending(c.up.up, g) && InOrder(g) == InOrder(Closed(c.up, Closed(c, t)))
  {
    RedParentHasParent(c);
    Level(c, BlackHeight(t));
    Level(c.up, BlackHeight(t));
  }

  /** The focus and its parent lean the same way. */
  ghost predicate Straight(c: Ctx) {
    !c.Top? && !c.up.Top? && (c.InLeft? <==> c.up.InLeft?)
  }

  /** Black aunt, inner grandchild: rotate the focus above its parent, which becomes the new focus. */
  ghost function StraightenedCtx(c: Ctx, t: Tree): Ctx
    requires !c.Top? && t.Bin?
  {
    if c.InLeft? then InRight(t.left, t.node, t.hue, c.up) else InLeft(t.node, t.hue, t.right, c.up)
  }

  ghost function StraightenedTree(c: Ctx, t: Tree): Tree
    requires !c.Top? && t.Bin?
  {
    if c.InLeft? then Bin(t.right, c.node, c.hue, c.right) else Bin(c.left, c.node, c.hue, t.left)
  }

  lemma StraightenStep(c: Ctx, t: Tree)
    requires Pending(c, t) && IsRed(t) && !c.Top? && c.hue == Live(Red)
    ensures var d, r := StraightenedCtx(c, t), StraightenedTree(c, t);
      Pending(d, r) && IsRed(r) && d.hue == Live(Red) && InOrder(Closed(d, r)) == InOrder(Closed(c, t))
  {
    Level(c, BlackHeight(t));
    if c.InLeft? {
      assert InOrder(t.left) + [t.node] + (InOrder(t.right) + [c.node] + InOrder(c.right))
          == (InOrder(t.left) + [t.node] + InOrder(t.right)) + [c.node] + InOrder(c.right);
    } else {
      assert (InOrder(c.left) + [c.node] + InOrder(t.left)) + [t.node] + InOrder(t.right)
          == InOrder(c.left) + [c.node] + (InOrder(t.left) + [t.node] + InOrder(t.right));
    }
  }

  /** Black aunt, outer grandchild: rotate the parent above the grandparent, which becomes the new focus. */
  ghost function HoistedCtx(c: Ctx, t: Tree): Ctx
    requires Straight(c)
  {
    if c.InLeft? then InRight(t, c.node, Live(Black), c.up.up) else InLeft(c.node, Live(Black), t, c.up.up)
  }

  ghost function HoistedTree(c: Ctx): Tree
    requires Straight(c)
  {
    if c.InLeft? then Bin(c.right, c.up.node, Live(Red), c.up.right) else Bin(c.up.left, c.up.node, Live(Red), c.left)
  }

  lemma HoistStep(c: Ctx, t: Tree)
    requires Pending(c, t) && IsRed(t) && Straight(c) && c.hue == Live(Red) && !IsRed(Sibling(c.up))
    ensures var d, r := HoistedCtx(c, t), HoistedTree(c);
      Pending(d, r) && RedFits(d) && InOrder(Closed(d, r)) == InOrder(Closed(c.up, Closed(c, t)))
  {
    RedParentHasParent(c);
    Level(c, BlackHeight(t));
    Level(c.up, BlackHeight(t));
    if c.InLeft? {
      assert InOrder(t) + [c.node] + (InOrder(c.right) + [c.up.node] + InOrder(c.up.right))
          == (InOrder(t) + [c.node] + InOrder(c.right)) + [c.up.node] + InOrder(c.up.right);
    } else {
      assert (InOrder(c.up.left) + [c.up.node] + InOrder(c.left)) + [c.node] + InOrder(t)
          == InOrder(c.up.left) + [c.up.node] + (InOrder(c.left) + [c.node] + InOrder(t));
    }
  }

  // ---------- removal: the node itself ----------

  ghost function Phantom(n: Node): Tree {
    Bin(Leaf, n, Gone, Leaf)
  }

  /** A subtree without black nodes and without red neighbours is at most one node. */
  lemma NoBlack(t: Tree)
    requires LiveTree(t) && Balanced(t) && Spaced(t) && BlackHeight(t) == 0
    ensures t.Leaf? || (t.hue == Live(Red) && t.left.Leaf? && t.right.Leaf?)
  {
    if t.Bin? {
      Hues(t);
      Hues(t.left);
      Hues(t.right);
    }
  }

  /** A node with one child is black and its child is a red leaf, which can take its place in black. */
  lemma OnlyChild(c: Ctx, t: Tree)
    requires Settled(c, t) && LiveTree(t) && t.Bin? && (t.left.Leaf? != t.right.Leaf?)
    ensures var u := if t.left.Bin? then t.left else t.right;
      t.hue == Live(Black) && u == Bin(Leaf, u.node, Live(Red), Leaf) && Settled(c, Black_(u))
  {
    NoBlack(t.left);
    NoBlack(t.right);
    Hues(t);
  }

  /** A red leaf can go; a black one leaves its place one black node short. */
  lemma LeafGoes(c: Ctx, t: Tree)
    requires Settled(c, t) && LiveTree(t) && t.Bin? && t.left.Leaf? && t.right.Leaf?
    ensures t.hue == Live(Red) ==> Settled(c, Phantom(t.node))
    ensures t.hue == Live(Black) ==> Short(c, Phantom(t.node))
    ensures t.hue == Live(Red) || t.hue == Live(Black)
  {
    Hues(t);
  }

  lemma WholeAfterRemoval(c: Ctx, t: Tree, d: Ctx, u: Tree)
    requires t.Bin? && SameOrder(c, d) && InOrder(u) == InOrder(t.left) + InOrder(t.right)
    ensures Whole(d, u) == Rest(c, t)
  {
  }

  lemma RestWithoutLeft(c: Ctx, t: Tree)
    requires t.Bin? && t.left.Leaf?
    ensures Rest(c, t) == Before(c) + InOrder(t.right) + After(c)
    ensures |Whole(c, t)| == |Before(c)| + 1 + |InOrder(t.right)| + |After(c)|
  {
  }

  /** Looking at a tree from one level up does not change its traversal. */
  lemma WholeClosed(c: Ctx, t: Tree)
    requires !c.Top?
    ensures Whole(c, t) == Whole(c.up, Closed(c, t))
  {
    if c.InLeft? {
      assert Before(c.up) + InOrder(t) + ([c.node] + InOrder(c.right) + After(c.up))
          == Before(c.up) + (InOrder(t) + [c.node] + InOrder(c.right)) + After(c.up);
    } else {
      assert (Before(c.up) + InOrder(c.left) + [c.node]) + InOrder(t) + After(c.up)
          == Before(c.up) + (InOrder(c.left) + [c.node] + InOrder(t)) + After(c.up);
    }
  }

  /** Replacing a subtree two levels up by one with the same traversal. */
  lemma WholeTwoUp(c: Ctx, t: Tree, g: Tree)
    requires !c.Top? && !c.up.Top? && InOrder(g) == InOrder(Closed(c.up, Closed(c, t)))
    ensures Whole(c.up.up, g) == Whole(c, t)
  {
    WholeClosed(c, t);
    WholeClosed(c.up, Closed(c, t));
  }

  /** A new red leaf leaves at most its own colour to repair. */
  lemma NewLeafPending(c: Ctx, n: Node)
    requires RedBlack(Plug(c, Leaf)) && LiveTree(Plug(c, Leaf)) && !c.Top?
    ensures Pending(c, Bin(Leaf, n, Live(Red), Leaf))
  {
    PlugRedBlack(c, Leaf);
    PlugLive(c, Leaf);
  }

  lemma NewLeafWhole(c: Ctx, n: Node, s: seq<Node>)
    requires s == InOrder(Plug(c, Leaf))
    ensures s == Before(c) + After(c)
    ensures Whole(c, Bin(Leaf, n, Live(Red), Leaf)) == Before(c) + [n] + After(c)
    ensures |Before(c)| <= |s| && Before(c) == s[..|Before(c)|] && After(c) == s[|Before(c)|..]
  {
    PlugInOrder(c, Leaf);
    assert s == Before(c) + After(c);
    assert InOrder(Bin(Leaf, n, Live(Red), Leaf)) == [n];
  }

  /** A new element at the cut keeps the order and decides the ends. */
  lemma NewLeafOrder(c: Ctx, n: Node, s: seq<Node>)
    requires Increasing(s) && s == Before(c) + After(c) && Cut(c, n.key) &&
      forall i :: 0 <= i < |s| ==> s[i].key != n.key
    ensures var w := Before(c) + [n] + After(c);
      && Increasing(w)
      && First(w) == (if s == [] || n.key < s[0].key then n else First(s))
      && Last(w) == (if s == [] || s[|s| - 1].key < n.key then n else Last(s))
  {
    StrictCut(c, n.key, s);
    IncreasingWith(Before(c), n, After(c));
    EndsWith(Before(c), n, After(c));
  }
}
