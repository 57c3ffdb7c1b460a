/**
 Snapshots of the node fields and what it means for them to hold a given shape.

 A `Store` records the fields of every node at one moment. `Focus` says that a store holds
 the subtree `t` inside the context `c`; the lemmas below follow single edits of the store.
 */
module RedBlackStore {
  import opened RedBlackShape

  datatype Cell = Cell(parent: Node?, left: Node?, right: Node?, color: Color)

  type Store = map<Node, Cell>

  /** The store holds exactly the subtree `t`, hanging below `parent`. */
  ghost predicate Linked(m: Store, t: Tree, parent: Node) {
    match t
    case Leaf => true
    case Bin(l, n, h, r) =>
      && n in m && m[n] == Cell(parent, RootOf(l), RootOf(r), ColorOf(h))
      && Linked(m, l, n) && Linked(m, r, n)
  }

  /** The store holds the context `c` around `child`; the whole hangs below `base` and has root `root`. */
  ghost predicate Path(m: Store, c: Ctx, child: Node?, base: Node, root: Node?)
    decreases c
  {
    match c
    case Top => root == child
    case InLeft(n, h, r, up) =>
      && n in m && m[n] == Cell(ParentIn(up, base), child, RootOf(r), ColorOf(h))
      && Linked(m, r, n) && Path(m, up, n, base, root)
    case InRight(l, n, h, up) =>
      && n in m && m[n] == Cell(ParentIn(up, base), RootOf(l), child, ColorOf(h))
      && Linked(m, l, n) && Path(m, up, n, base, root)
  }

  ghost predicate Focus(m: Store, base: Node, root: Node?, c: Ctx, t: Tree) {
    && ApartAll(c, t) && m.Keys == Nodes(t) + CtxNodes(c) && base !in m
    && Path(m, c, RootOf(t), base, root) && Linked(m, t, ParentIn(c, base))
  }

  ghost predicate Same(m: Store, m': Store, s: set<Node>) {
    forall n :: n in s && n in m ==> n in m' && m'[n] == m[n]
  }

  lemma {:induction false} LinkedFrame(m: Store, m': Store, t: Tree, parent: Node)
    requires Linked(m, t, parent) && Same(m, m', Nodes(t))
    ensures Linked(m', t, parent)
  {
    if t.Bin? {
      LinkedFrame(m, m', t.left, t.node);
      LinkedFrame(m, m', t.right, t.node);
    }
  }

  lemma {:induction false} PathFrame(m: Store, m': Store, c: Ctx, child: Node?, base: Node, root: Node?)
    requires Path(m, c, child, base, root) && Same(m, m', CtxNodes(c))
    ensures Path(m', c, child, base, root)
    decreases c
  {
    match c
    case Top =>
    case InLeft(n, h, r, up) => LinkedFrame(m, m', r, n); PathFrame(m, m', up, n, base, root);
    case InRight(l, n, h, up) => LinkedFrame(m, m', l, n); PathFrame(m, m', up, n, base, root);
  }

  // ---------- moving the focus ----------

  lemma FocusLeft(m: Store, base: Node, root: Node?, c: Ctx, t: Tree)
    requires t.Bin?
    ensures Focus(m, base, root, c, t) <==> Focus(m, base, root, InLeft(t.node, t.hue, t.right, c), t.left)
  {
    assert Nodes(t) + CtxNodes(c) == Nodes(t.left) + CtxNodes(InLeft(t.node, t.hue, t.right, c));
  }

  lemma FocusRight(m: Store, base: Node, root: Node?, c: Ctx, t: Tree)
    requires t.Bin?
    ensures Focus(m, base, root, c, t) <==> Focus(m, base, root, InRight(t.left, t.node, t.hue, c), t.right)
  {
    assert Nodes(t) + CtxNodes(c) == Nodes(t.right) + CtxNodes(InRight(t.left, t.node, t.hue, c));
  }

  lemma {:induction false} FocusTop(m: Store, base: Node, root: Node?, c: Ctx, t: Tree)
    ensures Focus(m, base, root, c, t) <==> Focus(m, base, root, Top, Plug(c, t))
  {
    match c
    case Top =>
    case InLeft(n, h, r, up) =>
      FocusLeft(m, base, root, up, Bin(t, n, h, r));
      FocusTop(m, base, root, up, Bin(t, n, h, r));
    case InRight(l, n, h, up) =>
      FocusRight(m, base, root, up, Bin(l, n, h, t));
      FocusTop(m, base, root, up, Bin(l, n, h, t));
  }

  /** Two ways of looking at the same tree. */
  lemma Refocus(m: Store, base: Node, root: Node?, c: Ctx, t: Tree, d: Ctx, u: Tree)
    requires Focus(m, base, root, c, t) && Plug(c, t) == Plug(d, u)
    ensures Focus(m, base, root, d, u)
  {
    FocusTop(m, base, root, c, t);
    FocusTop(m, base, root, d, u);
  }

  // ---------- single edits ----------

  /** `x` hangs where the focus hangs: in the child slot of the parent. */
  ghost function Hang(m: Store, c: Ctx, x: Node?): Store {
    if c.Top? || c.node !in m then m
    else if c.InLeft? then m[c.node := m[c.node].(left := x)]
    else m[c.node := m[c.node].(right := x)]
  }

  /** A path survives when only the child slot of its lowest node changes. */
  lemma HangPath(m: Store, m': Store, c: Ctx, child: Node?, x: Node?, base: Node, root: Node?)
    requires Path(m, c, child, base, root) && ApartCtx(c)
    requires !c.Top? ==> c.node in m' && m'[c.node] == Hang(m, c, x)[c.node]
    requires !c.Top? ==> Same(m, m', CtxNodes(c) - {c.node})
    ensures Path(m', c, x, base, if c.Top? then x else root)
  {
    if c.InLeft? {
      LinkedFrame(m, m', c.right, c.node);
      PathFrame(m, m', c.up, c.node, base, root);
    } else if c.InRight? {
      LinkedFrame(m, m', c.left, c.node);
      PathFrame(m, m', c.up, c.node, base, root);
    }
  }

  /** A subtree survives when only the parent field of its root changes. */
  lemma AdoptedLinked(m: Store, m': Store, t: Tree, former: Node, parent: Node)
    requires Linked(m, t, former) && Apart(t)
    requires t.Bin? ==> t.node in m' && m'[t.node] == m[t.node].(parent := parent)
    requires t.Bin? ==> Same(m, m', Nodes(t.left) + Nodes(t.right))
    ensures Linked(m', t, parent)
  {
    if t.Bin? {
      LinkedFrame(m, m', t.left, t.node);
      LinkedFrame(m, m', t.right, t.node);
    }
  }

  ghost function WithParent(m: Store, x: Node?, p: Node): (r: Store)
    ensures r.Keys == m.Keys
  {
    if x == null || x !in m then m else m[x := m[x].(parent := p)]
  }

  ghost function WithChild(m: Store, x: Node, left: bool, child: Node?): (r: Store)
    ensures r.Keys == m.Keys
  {
    if x !in m then m else m[x := if left then m[x].(left := child) else m[x].(right := child)]
  }

  ghost function Painted(m: Store, n: Node, color: Color): Store {
    if n !in m then m else m[n := m[n].(color := color)]
  }

  lemma PaintedFocus(m: Store, base: Node, root: Node?, c: Ctx, t: Tree, color: Color)
    requires Focus(m, base, root, c, t) && t.Bin?
    ensures Focus(Painted(m, t.node, color), base, root, c, t.(hue := Live(color)))
  {
    var m' := Painted(m, t.node, color);
    LinkedFrame(m, m', t.left, t.node);
    LinkedFrame(m, m', t.right, t.node);
    PathFrame(m, m', c, t.node, base, root);
  }

  // ---------- rotations ----------

  ghost function RotatedLeft(t: Tree): Tree
    requires t.Bin? && t.right.Bin?
  {
    Bin(Bin(t.left, t.node, t.hue, t.right.left), t.right.node, t.right.hue, t.right.right)
  }

  ghost function RotatedRight(t: Tree): Tree
    requires t.Bin? && t.left.Bin?
  {
    Bin(t.left.left, t.left.node, t.left.hue, Bin(t.left.right, t.node, t.hue, t.right))
  }

  /** A rotation keeps the nodes and their order. */
  lemma RotatedLeftNodes(t: Tree)
    requires t.Bin? && t.right.Bin?
    ensures Nodes(RotatedLeft(t)) == Nodes(t)
    ensures Apart(t) ==> Apart(RotatedLeft(t))
    ensures InOrder(RotatedLeft(t)) == InOrder(t)
  {
    assert Apart(t) ==> Apart(t.right);
    var a, b, d, n, p := InOrder(t.left), InOrder(t.right.left), InOrder(t.right.right), t.node, t.right.node;
    assert (a + [n] + b) + [p] + d == a + [n] + (b + [p] + d);
  }

  lemma RotatedRightNodes(t: Tree)
    requires t.Bin? && t.left.Bin?
    ensures Nodes(RotatedRight(t)) == Nodes(t)
    ensures Apart(t) ==> Apart(RotatedRight(t))
    ensures InOrder(RotatedRight(t)) == InOrder(t)
  {
    RotatedLeftNodes(RotatedRight(t));
    assert Apart(t) ==> Apart(t.left);
  }

  lemma {:induction false} RootAbove(m: Store, c: Ctx, child: Node?, base: Node, root: Node?)
    requires Path(m, c, child, base, root) && !c.Top?
    ensures root in CtxNodes(c)
    decreases c
  {
    if !c.up.Top? { RootAbove(m, c.up, c.node, base, root); }
  }

  /** What the store says about the focus and its surroundings. */
  lemma Sites(m: Store, base: Node, root: Node?, c: Ctx, t: Tree)
    requires Focus(m, base, root, c, t) && t.Bin?
    ensures t.node in m && t.node != base
    ensures m[t.node] == Cell(ParentIn(c, base), RootOf(t.left), RootOf(t.right), ColorOf(t.hue))
    ensures t.left.Bin? ==> t.left.node in m && t.left.node != t.node && Linked(m, t.left, t.node)
    ensures t.right.Bin? ==> t.right.node in m && t.right.node != t.node && Linked(m, t.right, t.node)
    ensures c.Top? <==> root == t.node
    ensures c.InLeft? ==> c.node in m && m[c.node].left == t.node
    ensures c.InRight? ==> c.node in m && m[c.node].right == t.node && m[c.node].left != t.node
    ensures !c.Top? ==> c.node != t.node && c.node != base && m[c.node].parent != null && c.node !in Nodes(t)
    ensures forall x :: x in Nodes(t) ==> x in m && x != base
  {
    assert c.InRight? && c.left.Bin? ==> c.left.node in Nodes(c.left);
    if !c.Top? { RootAbove(m, c, t.node, base, root); }
  }

  lemma SitesBelow(m: Store, t: Tree, parent: Node)
    requires Linked(m, t, parent) && Apart(t) && t.Bin?
    ensures m[t.node] == Cell(parent, RootOf(t.left), RootOf(t.right), ColorOf(t.hue))
    ensures t.left.Bin? ==> t.left.node in Nodes(t) && t.left.node != t.node && Linked(m, t.left, t.node)
    ensures t.right.Bin? ==> t.right.node in Nodes(t) && t.right.node != t.node && Linked(m, t.right, t.node)
  {
  }

  /** What a rotation writes: the pivot `n`, its child `p` that moves up, the subtree root
      `inner` that changes sides, and the child slot (or root) that held `n`. */
  ghost predicate Rotates(m: Store, m': Store, base: Node, n: Node, p: Node, inner: Node?, atN: Cell, atP: Cell) {
    && m'.Keys == m.Keys
    && n in m && m'[n] == atN && p in m && m'[p] == atP
    && (inner != null ==> inner in m && m'[inner] == m[inner].(parent := n))
    && Reslots(m, m', base, n, p)
    && Same(m, m', m.Keys - {n, p, m[n].parent, inner})
  }

  /** The parent of `n` gets `x` in the child slot that held `n`. */
  ghost predicate Reslots(m: Store, m': Store, base: Node, n: Node, x: Node?) {
    n in m && m[n].parent != base ==>
      var up := m[n].parent;
      up != null && up in m && up in m' && m'[up] == if m[up].left == n then m[up].(left := x) else m[up].(right := x)
  }

  ghost predicate RotatesLeft(m: Store, m': Store, base: Node, n: Node) {
    && n in m && m[n].right != null && m[n].right in m
    && var p := m[n].right;
       Rotates(m, m', base, n, p, m[p].left,
               m[n].(parent := p, right := m[p].left), m[p].(parent := m[n].parent, left := n))
  }

  ghost predicate RotatesRight(m: Store, m': Store, base: Node, n: Node) {
    && n in m && m[n].left != null && m[n].left in m
    && var p := m[n].left;
       Rotates(m, m', base, n, p, m[p].right,
               m[n].(parent := p, left := m[p].right), m[p].(parent := m[n].parent, right := n))
  }

  lemma RotatedLeftFocus(m: Store, m': Store, base: Node, root: Node?, c: Ctx, t: Tree)
    requires Focus(m, base, root, c, t) && t.Bin? && t.right.Bin?
    requires RotatesLeft(m, m', base, t.node)
    ensures Focus(m', base, if c.Top? then t.right.node else root, c, RotatedLeft(t))
  {
    hide Linked, Path, Rotates, Apart, ApartCtx;
    Sites(m, base, root, c, t);
    RotatedLeftFrame(m, m', base, t, ParentIn(c, base));
    RotatedLeftNodes(t);
    RotatedLeftLinks(m, m', base, t, ParentIn(c, base));
    ReslotPath(m, m', base, root, c, t, t.right.node);
  }

  lemma RotatedLeftFrame(m: Store, m': Store, base: Node, t: Tree, parent: Node)
    requires t.Bin? && t.right.Bin? && Linked(m, t, parent) && RotatesLeft(m, m', base, t.node)
    ensures t.right.node in Nodes(t) && Reslots(m, m', base, t.node, t.right.node)
    ensures m'.Keys == m.Keys && Same(m, m', m.Keys - Nodes(t) - {parent})
  {
    assert t.right.left.Bin? ==> t.right.left.node in Nodes(t.right.left);
    assert Nodes(t.right.left) <= Nodes(t.right) <= Nodes(t);
  }

  lemma RotatedLeftLinks(m: Store, m': Store, base: Node, t: Tree, parent: Node)
    requires t.Bin? && t.right.Bin? && Apart(t) && Linked(m, t, parent) && parent !in Nodes(t)
    requires RotatesLeft(m, m', base, t.node)
    ensures Linked(m', RotatedLeft(t), parent)
  {
    var a, b, d, n, p := t.left, t.right.left, t.right.right, t.node, t.right.node;
    assert Apart(t.right) && Linked(m, t.right, n);
    assert b.Bin? ==> b.node in Nodes(b);
    LinkedKeys(m, t, parent);
    LinkedFrame(m, m', a, n);
    AdoptedLinked(m, m', b, p, n);
    LinkedFrame(m, m', d, p);
  }

  /** The path above a rotation: the slot that held its old top holds the new one. */
  lemma ReslotPath(m: Store, m': Store, base: Node, root: Node?, c: Ctx, t: Tree, p: Node)
    requires Focus(m, base, root, c, t) && t.Bin? && p in Nodes(t) && Reslots(m, m', base, t.node, p)
    requires m'.Keys == m.Keys && Same(m, m', m.Keys - Nodes(t) - {ParentIn(c, base)})
    ensures Path(m', c, p, base, if c.Top? then p else root)
  {
    Sites(m, base, root, c, t);
    HangPath(m, m', c, t.node, p, base, root);
  }

  lemma {:induction false} LinkedKeys(m: Store, t: Tree, parent: Node)
    requires Linked(m, t, parent)
    ensures forall x :: x in Nodes(t) ==> x in m
  {
    if t.Bin? {
      LinkedKeys(m, t.left, t.node);
      LinkedKeys(m, t.right, t.node);
    }
  }

  lemma RotatedRightFocus(m: Store, m': Store, base: Node, root: Node?, c: Ctx, t: Tree)
    requires Focus(m, base, root, c, t) && t.Bin? && t.left.Bin?
    requires RotatesRight(m, m', base, t.node)
    ensures Focus(m', base, if c.Top? then t.left.node else root, c, RotatedRight(t))
  {
    hide Linked, Path, Rotates, Apart, ApartCtx;
    Sites(m, base, root, c, t);
    RotatedRightFrame(m, m', base, t, ParentIn(c, base));
    RotatedRightNodes(t);
    RotatedRightLinks(m, m', base, t, ParentIn(c, base));
    ReslotPath(m, m', base, root, c, t, t.left.node);
  }

  lemma RotatedRightFrame(m: Store, m': Store, base: Node, t: Tree, parent: Node)
    requires t.Bin? && t.left.Bin? && Linked(m, t, parent) && RotatesRight(m, m', base, t.node)
    ensures t.left.node in Nodes(t) && Reslots(m, m', base, t.node, t.left.node)
    ensures m'.Keys == m.Keys && Same(m, m', m.Keys - Nodes(t) - {parent})
  {
    assert t.left.right.Bin? ==> t.left.right.node in Nodes(t.left.right);
    assert Nodes(t.left.right) <= Nodes(t.left) <= Nodes(t);
  }

  lemma RotatedRightLinks(m: Store, m': Store, base: Node, t: Tree, parent: Node)
    requires t.Bin? && t.left.Bin? && Apart(t) && Linked(m, t, parent) && parent !in Nodes(t)
    requires RotatesRight(m, m', base, t.node)
    ensures Linked(m', RotatedRight(t), parent)
  {
    var a, b, d, n, p := t.left.left, t.left.right, t.right, t.node, t.left.node;
    assert Apart(t.left) && Linked(m, t.left, n);
    assert b.Bin? ==> b.node in Nodes(b);
    LinkedKeys(m, t, parent);
    LinkedFrame(m, m', a, p);
    AdoptedLinked(m, m', b, p, n);
    LinkedFrame(m, m', d, n);
  }

  // ---------- taking a subtree's place ----------

  ghost predicate TakesPlace(m: Store, m': Store, base: Node, c: Ctx, u: Tree) {
    && m'.Keys == Nodes(u) + CtxNodes(c)
    && (u.Bin? ==> u.node in m && m'[u.node] == m[u.node].(parent := ParentIn(c, base)))
    && (!c.Top? ==> c.node in m && m'[c.node] == Hang(m, c, RootOf(u))[c.node])
    && Same(m, m', Nodes(u) - {RootOf(u)})
    && (!c.Top? ==> Same(m, m', CtxNodes(c) - {c.node}))
  }

  /** A subtree `u` of the focus takes the place of the focus. */
  lemma TakePlaceFocus(m: Store, m': Store, base: Node, root: Node?, c: Ctx, t: Tree, u: Tree, former: Node)
    requires Focus(m, base, root, c, t) && Linked(m, u, former) && Apart(u) && Nodes(u) <= Nodes(t)
    requires TakesPlace(m, m', base, c, u)
    ensures Focus(m', base, if c.Top? then RootOf(u) else root, c, u)
  {
    AdoptedLinked(m, m', u, former, ParentIn(c, base));
    HangPath(m, m', c, RootOf(t), RootOf(u), base, root);
  }

  /** The writes that unlink the root of the focus, leaving the subtree `u` in its place. */
  ghost function Unlinked(m: Store, base: Node, c: Ctx, n: Node, u: Tree): Store {
    WithParent(Hang(m, c, RootOf(u)), RootOf(u), ParentIn(c, base)) - {n}
  }

  lemma UnlinkedFocus(m: Store, base: Node, root: Node?, c: Ctx, t: Tree, u: Tree)
    requires Focus(m, base, root, c, t) && t.Bin?
    requires (u == t.left && t.right.Leaf?) || (u == t.right && t.left.Leaf?)
    ensures Focus(Unlinked(m, base, c, t.node, u), base, if c.Top? then RootOf(u) else root, c, u)
  {
    var m' := Unlinked(m, base, c, t.node, u);
    Sites(m, base, root, c, t);
    assert Linked(m, u, t.node) && (u.Bin? ==> u.node in Nodes(u));
    assert Nodes(t) == Nodes(u) + {t.node};
    TakePlaceFocus(m, m', base, root, c, t, u, t.node);
  }

  /** The writes that hang a new red leaf into an empty slot. */
  ghost function Attached(m: Store, base: Node, c: Ctx, n: Node): Store {
    Hang(m, c, n)[n := Cell(ParentIn(c, base), null, null, Red)]
  }

  lemma AttachedFocus(m: Store, base: Node, root: Node?, c: Ctx, n: Node)
    requires Focus(m, base, root, c, Leaf) && n !in m && n != base
    ensures Focus(Attached(m, base, c, n), base, if c.Top? then n else root, c, Bin(Leaf, n, Live(Red), Leaf))
  {
    HangPath(m, Attached(m, base, c, n), c, null, n, base, root);
  }
}
