/**
 Exchanging two node objects in a tree: every pointer to one becomes a pointer to the other,
 and each takes the other's fields. The shape is the same tree with the two nodes renamed.
 */
module RedBlackSwap {
  import opened RedBlackShape
  import opened RedBlackStore
  import opened RedBlackRepair

  ghost function Sigma(a: Node, b: Node, x: Node): Node {
    if x == a then b else if x == b then a else x
  }

  ghost function SigmaOpt(a: Node, b: Node, x: Node?): Node? {
    if x == null then null else Sigma(a, b, x)
  }

  ghost function SigmaTree(a: Node, b: Node, t: Tree): Tree {
    match t
    case Leaf => Leaf
    case Bin(l, n, h, r) => Bin(SigmaTree(a, b, l), Sigma(a, b, n), h, SigmaTree(a, b, r))
  }

  ghost function SigmaCell(a: Node, b: Node, c: Cell): Cell {
    Cell(SigmaOpt(a, b, c.parent), SigmaOpt(a, b, c.left), SigmaOpt(a, b, c.right), c.color)
  }

  ghost function Swapped(m: Store, a: Node, b: Node): Store
    requires a in m && b in m
  {
    map x | x in m :: SigmaCell(a, b, m[Sigma(a, b, x)])
  }

  lemma {:induction false} SwappedLinked(m: Store, a: Node, b: Node, t: Tree, parent: Node)
    requires a in m && b in m && Linked(m, t, parent)
    ensures Linked(Swapped(m, a, b), SigmaTree(a, b, t), Sigma(a, b, parent))
  {
    if t.Bin? {
      SwappedLinked(m, a, b, t.left, t.node);
      SwappedLinked(m, a, b, t.right, t.node);
    }
  }

  ghost function SigmaSet(a: Node, b: Node, s: set<Node>): set<Node> {
    (s - {a, b}) + (if a in s then {b} else {}) + (if b in s then {a} else {})
  }

  lemma {:induction false} SigmaNodes(a: Node, b: Node, t: Tree)
    ensures Nodes(SigmaTree(a, b, t)) == SigmaSet(a, b, Nodes(t))
  {
    if t.Bin? {
      SigmaNodes(a, b, t.left);
      SigmaNodes(a, b, t.right);
    }
  }

  lemma {:induction false} SigmaApart(a: Node, b: Node, t: Tree)
    requires Apart(t)
    ensures Apart(SigmaTree(a, b, t))
  {
    if t.Bin? {
      SigmaApart(a, b, t.left);
      SigmaApart(a, b, t.right);
      SigmaNodes(a, b, t.left);
      SigmaNodes(a, b, t.right);
    }
  }

  lemma SwappedFocus(m: Store, base: Node, root: Node?, a: Node, b: Node, t: Tree)
    requires Focus(m, base, root, Top, t) && a in m && b in m
    ensures Focus(Swapped(m, a, b), base, SigmaOpt(a, b, root), Top, SigmaTree(a, b, t))
  {
    SwappedLinked(m, a, b, t, base);
    SigmaApart(a, b, t);
    SigmaNodes(a, b, t);
    assert Swapped(m, a, b).Keys == m.Keys == SigmaSet(a, b, m.Keys);
  }

  /** Renaming nodes leaves colours, and with them the balance, alone. */
  lemma {:induction false} SigmaBalance(a: Node, b: Node, t: Tree)
    ensures var u := SigmaTree(a, b, t);
      && BlackHeight(u) == BlackHeight(t) && (Balanced(u) <==> Balanced(t)) && (Spaced(u) <==> Spaced(t))
      && (LiveTree(u) <==> LiveTree(t)) && (IsRed(u) <==> IsRed(t))
  {
    if t.Bin? {
      SigmaBalance(a, b, t.left);
      SigmaBalance(a, b, t.right);
    }
  }

  lemma {:induction false} SigmaElsewhere(a: Node, b: Node, t: Tree)
    requires a !in Nodes(t) && b !in Nodes(t)
    ensures SigmaTree(a, b, t) == t
  {
    if t.Bin? {
      SigmaElsewhere(a, b, t.left);
      SigmaElsewhere(a, b, t.right);
    }
  }

  lemma {:induction false} SigmaPlug(a: Node, b: Node, c: Ctx, t: Tree)
    requires a !in CtxNodes(c) && b !in CtxNodes(c)
    ensures SigmaTree(a, b, Plug(c, t)) == Plug(c, SigmaTree(a, b, t))
  {
    match c
    case Top =>
    case InLeft(n, h, r, up) => SigmaElsewhere(a, b, r); SigmaPlug(a, b, up, Bin(t, n, h, r));
    case InRight(l, n, h, up) => SigmaElsewhere(a, b, l); SigmaPlug(a, b, up, Bin(l, n, h, t));
  }

  // ---------- pointers in a linked store ----------

  /** Children and parents agree about each other. */
  ghost predicate Mutual(m: Store, base: Node, root: Node?) {
    forall x {:trigger MutualAt(m, base, root, x)} :: x in m ==> MutualAt(m, base, root, x)
  }

  ghost predicate MutualAt(m: Store, base: Node, root: Node?, x: Node)
    requires x in m
  {
      && (m[x].left != null ==> m[x].left in m && m[x].left != x && m[m[x].left].parent == x)
      && (m[x].right != null ==> m[x].right in m && m[x].right != x && m[m[x].right].parent == x)
      && (m[x].left != null ==> m[x].left != m[x].right)
      && m[x].parent != null && m[x].parent != x
      && (m[x].parent == base <==> root == x)
      && (m[x].parent != base ==> m[x].parent in m && (m[m[x].parent].left == x || m[m[x].parent].right == x))
  }

  lemma {:induction false} LinkedParents(m: Store, t: Tree, base: Node, x: Node)
    requires Linked(m, t, base) && Apart(t) && x in Nodes(t) && base !in Nodes(t)
    ensures x in m && m[x].parent != null && m[x].parent != x
    ensures m[x].left != null ==> m[x].left in m && m[x].left != x && m[m[x].left].parent == x && m[x].left in Nodes(t)
    ensures m[x].right != null ==>
      m[x].right in m && m[x].right != x && m[m[x].right].parent == x && m[x].right in Nodes(t)
    ensures m[x].left != null ==> m[x].left != m[x].right
    ensures if x == t.node then m[x].parent == base
      else m[x].parent in Nodes(t) && m[x].parent in m && (m[m[x].parent].left == x || m[m[x].parent].right == x)
  {
    assert t.left.Bin? ==> t.left.node in Nodes(t.left);
    assert t.right.Bin? ==> t.right.node in Nodes(t.right);
    if x in Nodes(t.left) {
      LinkedParents(m, t.left, t.node, x);
    } else if x in Nodes(t.right) {
      LinkedParents(m, t.right, t.node, x);
    }
  }

  lemma FocusMutual(m: Store, base: Node, root: Node?, c: Ctx, t: Tree)
    requires Focus(m, base, root, c, t)
    ensures Mutual(m, base, root)
  {
    FocusTop(m, base, root, c, t);
    var u := Plug(c, t);
    forall x | x in m ensures MutualAt(m, base, root, x)
    {
      LinkedParents(m, u, base, x);
    }
  }

  /** The writes that exchange `a` with its right child `b`, one after the other. */
  ghost function AdjacentEdits(m: Store, base: Node, a: Node, b: Node): (r: Store)
    ensures r.Keys == m.Keys
    requires a in m && b in m && m[a].parent != null
  {
    var m1 := m[a := Cell(b, m[b].left, m[b].right, m[b].color)]
               [b := Cell(m[a].parent, m[a].left, a, m[a].color)];
    var m2 := WithParent(m1, m[b].right, a);
    var up := m[a].parent;
    var m3 := if up == base || up !in m then m2 else WithChild(m2, up, m[up].left == a, b);
    WithParent(m3, m[a].left, b)
  }

  /** The writes that exchange `a` with a node `b` further down that is a left child. */
  ghost function ApartEdits(m: Store, base: Node, a: Node, b: Node): (r: Store)
    ensures r.Keys == m.Keys
    requires a in m && b in m && m[a].parent != null && m[b].parent != null
  {
    var m1 := m[a := m[b]][b := m[a]];
    var m2 := WithParent(m1, m[b].right, a);
    var m3 := WithChild(m2, m[b].parent, true, a);
    var m4 := WithParent(WithParent(m3, m[a].right, b), m[a].left, b);
    var up := m[a].parent;
    if up == base || up !in m then m4 else WithChild(m4, up, m[up].left == a, b)
  }

  /** What those writes make of a bystander `x`. */
  ghost function Edited(m: Store, base: Node, a: Node, b: Node, x: Node): Cell
    requires a in m && b in m && x in m && m[a].parent != null
  {
    var c := if m[a].parent == x && x != base then (if m[x].left == a then m[x].(left := b) else m[x].(right := b))
             else if m[b].parent == x then m[x].(left := a) else m[x];
    if m[a].left == x || m[a].right == x then c.(parent := b) else if m[b].right == x then c.(parent := a) else c
  }

  lemma EditedCell(m: Store, base: Node, root: Node?, a: Node, b: Node, x: Node)
    requires Mutual(m, base, root) && a in m && b in m && a != b && x in m && x != a && x != b && base !in m
    requires m[a].parent != null && m[a].parent != b && m[b].parent != m[a].parent && m[b].left == null
    requires m[b].parent == a || (m[b].parent in m && m[m[b].parent].left == b)
    ensures Swapped(m, a, b)[x] == Edited(m, base, a, b, x)
  {
    assert MutualAt(m, base, root, x) && MutualAt(m, base, root, a) && MutualAt(m, base, root, b);
  }

  lemma AdjacentCell(m: Store, base: Node, root: Node?, a: Node, b: Node, x: Node)
    requires a in m && b in m && MutualAt(m, base, root, a) && MutualAt(m, base, root, b) && a != b && x in m
    requires base !in m
    requires m[b].parent == a && m[a].right == b && m[b].left == null && m[a].parent != b
    ensures x != a && x != b ==> AdjacentEdits(m, base, a, b)[x] == Edited(m, base, a, b, x)
    ensures x == a || x == b ==> AdjacentEdits(m, base, a, b)[x] == SigmaCell(a, b, m[Sigma(a, b, x)])
  {
  }

  lemma ApartCell(m: Store, base: Node, root: Node?, a: Node, b: Node, x: Node)
    requires a in m && b in m && MutualAt(m, base, root, a) && MutualAt(m, base, root, b) && a != b && x in m
    requires base !in m
    requires m[b].parent in m && m[b].parent != a && m[m[b].parent].left == b && m[b].left == null
    requires m[a].parent != b && m[b].parent != m[a].parent
    requires m[b].parent != m[b].right && m[b].parent != m[a].left
    ensures x != a && x != b ==> ApartEdits(m, base, a, b)[x] == Edited(m, base, a, b, x)
  {
  }

  lemma ApartPair(m: Store, base: Node, root: Node?, a: Node, b: Node, x: Node)
    requires a in m && b in m && MutualAt(m, base, root, a) && MutualAt(m, base, root, b) && a != b
    requires base !in m && m[b].parent in m && m[b].parent != a && m[m[b].parent].left == b && m[b].left == null
    requires m[a].parent != b && (x == a || x == b)
    ensures ApartEdits(m, base, a, b)[x] == SigmaCell(a, b, m[Sigma(a, b, x)])
  {
  }

  lemma AdjacentSwapped(m: Store, base: Node, root: Node?, a: Node, b: Node)
    requires Mutual(m, base, root) && a in m && b in m && a != b && base !in m
    requires m[b].parent == a && m[a].right == b && m[b].left == null && m[a].parent != null && m[a].parent != b
    ensures AdjacentEdits(m, base, a, b) == Swapped(m, a, b)
  {
    assert MutualAt(m, base, root, a) && MutualAt(m, base, root, b);
    forall x | x in m ensures AdjacentEdits(m, base, a, b)[x] == Swapped(m, a, b)[x] {
      AdjacentCell(m, base, root, a, b, x);
      if x != a && x != b { EditedCell(m, base, root, a, b, x); }
    }
  }

  ghost predicate ApartReady(m: Store, base: Node, root: Node?, a: Node, b: Node) {
    && Mutual(m, base, root) && a in m && b in m && a != b && base !in m
    && m[b].parent in m && m[b].parent != a && m[m[b].parent].left == b && m[b].left == null
    && m[a].parent != null && m[a].parent != b && m[b].parent != m[a].parent
    && m[b].parent != m[b].right && m[b].parent != m[a].left
  }

  lemma ApartSwappedCell(m: Store, base: Node, root: Node?, a: Node, b: Node, x: Node)
    requires ApartReady(m, base, root, a, b) && x in m
    ensures x in ApartEdits(m, base, a, b) && ApartEdits(m, base, a, b)[x] == Swapped(m, a, b)[x]
  {
    assert MutualAt(m, base, root, a) && MutualAt(m, base, root, b);
    if x != a && x != b {
      ApartCell(m, base, root, a, b, x);
      EditedCell(m, base, root, a, b, x);
    } else {
      ApartPair(m, base, root, a, b, x);
    }
  }

  lemma SameStore(m: Store, n: Store)
    requires m.Keys == n.Keys && forall x :: x in m ==> m[x] == n[x]
    ensures m == n
  {
  }

  lemma ApartSwapped(m: Store, base: Node, root: Node?, a: Node, b: Node)
    requires ApartReady(m, base, root, a, b)
    ensures ApartEdits(m, base, a, b) == Swapped(m, a, b)
  {
    forall x | x in m ensures ApartEdits(m, base, a, b)[x] == Swapped(m, a, b)[x] {
      ApartSwappedCell(m, base, root, a, b, x);
    }
    SameStore(ApartEdits(m, base, a, b), Swapped(m, a, b));
  }

  // ---------- a node and its in-order successor ----------

  /** A node `a` whose right subtree starts, in order, with `b`. */
  ghost function WithSuccessor(l: Tree, a: Node, ha: Hue, ic: Ctx, b: Node, hb: Hue, r: Tree): Tree {
    Bin(l, a, ha, Plug(ic, Bin(Leaf, b, hb, r)))
  }

  ghost function SuccessorCtx(l: Tree, a: Node, ha: Hue, ic: Ctx, c: Ctx): Ctx {
    Compose(ic, InRight(l, a, ha, c))
  }

  lemma SuccessorRefocus(l: Tree, a: Node, ha: Hue, ic: Ctx, b: Node, hb: Hue, r: Tree, c: Ctx)
    ensures Plug(SuccessorCtx(l, a, ha, ic, c), Bin(Leaf, b, hb, r)) == Plug(c, WithSuccessor(l, a, ha, ic, b, hb, r))
  {
    PlugCompose(ic, InRight(l, a, ha, c), Bin(Leaf, b, hb, r));
  }

  lemma {:induction false} LinkedPlug(m: Store, c: Ctx, t: Tree, base: Node)
    ensures Linked(m, Plug(c, t), base) ==>
      Linked(m, t, ParentIn(c, base)) && (c.InLeft? && t.Bin? ==> c.node in m && m[c.node].left == t.node)
    ensures RootOf(Plug(c, t)) == RootIn(c, RootOf(t))
    decreases c
  {
    match c
    case Top =>
    case InLeft(n, h, r, up) => LinkedPlug(m, up, Bin(t, n, h, r), base);
    case InRight(l, n, h, up) => LinkedPlug(m, up, Bin(l, n, h, t), base);
  }

  /** The pieces of an exchange do not share nodes. */
  ghost predicate Separate(c: Ctx, l: Tree, a: Node, ic: Ctx, b: Node, r: Tree) {
    && a != b
    && {a, b} !! CtxNodes(c) && {a, b} !! CtxNodes(ic) && {a, b} !! Nodes(l) && {a, b} !! Nodes(r)
    && Nodes(l) !! Nodes(r) && Nodes(l) !! CtxNodes(ic) && Nodes(l) !! CtxNodes(c)
    && Nodes(r) !! CtxNodes(ic) && Nodes(r) !! CtxNodes(c) && CtxNodes(ic) !! CtxNodes(c)
  }

  lemma ExchangeSeparate(c: Ctx, l: Tree, a: Node, ha: Hue, ic: Ctx, b: Node, hb: Hue, r: Tree)
    requires ApartAll(c, WithSuccessor(l, a, ha, ic, b, hb, r))
    ensures Separate(c, l, a, ic, b, r)
    ensures Nodes(WithSuccessor(l, a, ha, ic, b, hb, r)) == Nodes(l) + {a, b} + CtxNodes(ic) + Nodes(r)
  {
    var low := Bin(Leaf, b, hb, r);
    PlugNodes(ic, low);
    PlugApart(ic, low);
    assert Nodes(low) == {b} + Nodes(r);
  }

  /** Where the nodes of an exchange are, seen from the store. */
  lemma ExchangeSites(m: Store, base: Node, root: Node?, c: Ctx, l: Tree, a: Node, ha: Hue, ic: Ctx, b: Node,
    hb: Hue, r: Tree)
    requires Focus(m, base, root, c, WithSuccessor(l, a, ha, ic, b, hb, r)) && Leftmost(ic)
    ensures Separate(c, l, a, ic, b, r)
    ensures m.Keys == Nodes(l) + {a, b} + CtxNodes(ic) + Nodes(r) + CtxNodes(c)
    ensures m[a] == Cell(ParentIn(c, base), RootOf(l), RootIn(ic, b), ColorOf(ha))
    ensures m[b] == Cell(ParentIn(ic, a), null, RootOf(r), ColorOf(hb))
    ensures !ic.Top? ==> ic.node in CtxNodes(ic) && m[ic.node].left == b
  {
    var t, low := WithSuccessor(l, a, ha, ic, b, hb, r), Bin(Leaf, b, hb, r);
    ExchangeSeparate(c, l, a, ha, ic, b, hb, r);
    LinkedPlug(m, ic, low, a);
    assert m[a] == Cell(ParentIn(c, base), RootOf(l), RootOf(Plug(ic, low)), ColorOf(ha));
    assert Linked(m, Plug(ic, low), a);
  }

  lemma {:induction false} RootInCtx(c: Ctx, child: Node?)
    requires !c.Top?
    ensures RootIn(c, child) != null && RootIn(c, child) in CtxNodes(c)
    decreases c
  {
    if !c.up.Top? { RootInCtx(c.up, c.node); }
  }

  /** Renaming turns the tree with `a` above its successor `b` into the one with `b` above `a`. */
  lemma ExchangedTree(c: Ctx, l: Tree, a: Node, ha: Hue, ic: Ctx, b: Node, hb: Hue, r: Tree)
    requires a !in CtxNodes(c) && b !in CtxNodes(c) && a !in CtxNodes(ic) && b !in CtxNodes(ic)
    requires a !in Nodes(l) && b !in Nodes(l) && a !in Nodes(r) && b !in Nodes(r) && a != b
    ensures SigmaTree(a, b, Plug(c, WithSuccessor(l, a, ha, ic, b, hb, r)))
         == Plug(c, WithSuccessor(l, b, ha, ic, a, hb, r))
  {
    SigmaPlug(a, b, c, WithSuccessor(l, a, ha, ic, b, hb, r));
    SigmaElsewhere(a, b, l);
    SigmaElsewhere(a, b, r);
    SigmaPlug(a, b, ic, Bin(Leaf, b, hb, r));
  }

  lemma ExchangedFocus(m: Store, base: Node, root: Node?, c: Ctx, l: Tree, a: Node, ha: Hue, ic: Ctx, b: Node,
    hb: Hue, r: Tree)
    requires Focus(m, base, root, c, WithSuccessor(l, a, ha, ic, b, hb, r)) && Leftmost(ic) && a in m && b in m
    ensures Focus(Swapped(m, a, b), base, SigmaOpt(a, b, root), SuccessorCtx(l, b, ha, ic, c), Bin(Leaf, a, hb, r))
  {
    var t := WithSuccessor(l, a, ha, ic, b, hb, r);
    var m', root' := Swapped(m, a, b), SigmaOpt(a, b, root);
    ExchangeSites(m, base, root, c, l, a, ha, ic, b, hb, r);
    FocusTop(m, base, root, c, t);
    SwappedFocus(m, base, root, a, b, Plug(c, t));
    ExchangedTree(c, l, a, ha, ic, b, hb, r);
    SuccessorRefocus(l, b, ha, ic, a, hb, r, c);
    Refocus(m', base, root', Top, Plug(c, WithSuccessor(l, b, ha, ic, a, hb, r)), SuccessorCtx(l, b, ha, ic, c),
      Bin(Leaf, a, hb, r));
  }

  /** Colours stay in place, so the exchange keeps the balance. */
  lemma ExchangedSettled(c: Ctx, l: Tree, a: Node, ha: Hue, ic: Ctx, b: Node, hb: Hue, r: Tree)
    requires Separate(c, l, a, ic, b, r)
    requires Settled(c, WithSuccessor(l, a, ha, ic, b, hb, r)) && LiveTree(WithSuccessor(l, a, ha, ic, b, hb, r))
    ensures Settled(SuccessorCtx(l, b, ha, ic, c), Bin(Leaf, a, hb, r)) && LiveTree(Bin(Leaf, a, hb, r))
  {
    var t, u := WithSuccessor(l, a, ha, ic, b, hb, r), WithSuccessor(l, b, ha, ic, a, hb, r);
    var d, low := SuccessorCtx(l, b, ha, ic, c), Bin(Leaf, a, hb, r);
    PlugRedBlack(c, t);
    PlugLive(c, t);
    ExchangedTree(c, l, a, ha, ic, b, hb, r);
    SigmaBalance(a, b, Plug(c, t));
    SuccessorRefocus(l, b, ha, ic, a, hb, r, c);
    PlugRedBlack(d, low);
    PlugLive(d, low);
  }

  lemma ExchangedParts(c: Ctx, l: Tree, a: Node, ha: Hue, ic: Ctx, b: Node, hb: Hue, r: Tree)
    requires Leftmost(ic)
    ensures var d := SuccessorCtx(l, b, ha, ic, c);
      Before(d) == Before(c) + InOrder(l) + [b] && After(d) == After(ic) + After(c)
    ensures InOrder(WithSuccessor(l, a, ha, ic, b, hb, r).right) == [b] + InOrder(r) + After(ic)
  {
    hide Before, After, InOrder, Plug, Compose;
    LeftmostBefore(ic);
    ComposeOrder(ic, InRight(l, b, ha, c));
    AroundRight(l, b, ha, c);
    assert Before(c) + InOrder(l) + [b] + [] == Before(c) + InOrder(l) + [b];
    PlugInOrder(ic, Bin(Leaf, b, hb, r));
    LowInOrder(b, hb, r);
    assert [] + ([b] + InOrder(r)) + After(ic) == [b] + InOrder(r) + After(ic);
  }

  lemma AroundRight(l: Tree, n: Node, h: Hue, c: Ctx)
    ensures Before(InRight(l, n, h, c)) == Before(c) + InOrder(l) + [n] && After(InRight(l, n, h, c)) == After(c)
  {
  }

  lemma LowInOrder(n: Node, h: Hue, r: Tree)
    ensures InOrder(Bin(Leaf, n, h, r)) == [n] + InOrder(r)
  {
  }

  lemma Regroup(x: seq<Node>, b: Node, r: seq<Node>, ai: seq<Node>, ac: seq<Node>)
    ensures (x + [b]) + r + (ai + ac) == x + ([b] + r + ai) + ac
  {
  }

  /** Taking out the lower of the two afterwards leaves the original order without `a`. */
  lemma ExchangedOrder(c: Ctx, l: Tree, a: Node, ha: Hue, ic: Ctx, b: Node, hb: Hue, r: Tree)
    requires Leftmost(ic)
    ensures var d, t := SuccessorCtx(l, b, ha, ic, c), WithSuccessor(l, a, ha, ic, b, hb, r);
      && Before(d) + InOrder(r) + After(d) == Before(c) + InOrder(l) + InOrder(t.right) + After(c)
      && |Before(d)| + 1 + |InOrder(r)| + |After(d)| == |Before(c)| + |InOrder(t)| + |After(c)|
  {
    ExchangedParts(c, l, a, ha, ic, b, hb, r);
    Regroup(Before(c) + InOrder(l), b, InOrder(r), After(ic), After(c));
  }
}
