/**
 Tree-shaped values that describe what a heap of `Node` objects looks like.

 `Tree` is a snapshot of a subtree: which node sits where, and with which colour. `Ctx` is
 the rest of the tree seen from that subtree (a zipper), so that a rotation or a recolouring
 in the middle of a tree can be described next to the point where it happens.
 Everything in this module is about snapshots only; `RedBlackTree` ties them to the heap.
 */
module RedBlackShape {

  datatype Color = Red | Black

  /** A node object of the tree, or the super root that stands above the real root. */
  class Node {
    var parent: Node?
    var left: Node?
    var right: Node?
    var color: Color
    const key: int

    constructor (key: int)
      ensures parent == null && left == null && right == null
      ensures color == Red && this.key == key
    {
      this.key := key;
      parent, left, right, color := null, null, null, Red;
    }
  }

  /** The part a node plays in the balance: its colour, or `Gone` for the node that is about
      to be deleted but is still linked in while the tree around it is repaired. */
  datatype Hue = Live(color: Color) | Gone

  function ColorOf(h: Hue): Color {
    if h.Live? then h.color else Black
  }

  function Weight(h: Hue): nat {
    if h == Live(Black) then 1 else 0
  }

  datatype Tree = Leaf | Bin(left: Tree, node: Node, hue: Hue, right: Tree)

  datatype Ctx =
    | Top
    | InLeft(node: Node, hue: Hue, right: Tree, up: Ctx)
    | InRight(left: Tree, node: Node, hue: Hue, up: Ctx)

  // ---------- contents ----------

  ghost function InOrder(t: Tree): seq<Node> {
    match t
    case Leaf => []
    case Bin(l, n, _, r) => InOrder(l) + [n] + InOrder(r)
  }

  ghost function Nodes(t: Tree): set<Node> {
    match t
    case Leaf => {}
    case Bin(l, n, _, r) => Nodes(l) + {n} + Nodes(r)
  }

  ghost function CtxNodes(c: Ctx): set<Node> {
    match c
    case Top => {}
    case InLeft(n, _, r, up) => {n} + Nodes(r) + CtxNodes(up)
    case InRight(l, n, _, up) => {n} + Nodes(l) + CtxNodes(up)
  }

  /** Everything that comes before the hole of `c` in order. */
  ghost function Before(c: Ctx): seq<Node> {
    match c
    case Top => []
    case InLeft(_, _, _, up) => Before(up)
    case InRight(l, n, _, up) => Before(up) + InOrder(l) + [n]
  }

  /** Everything that comes after the hole of `c` in order. */
  ghost function After(c: Ctx): seq<Node> {
    match c
    case Top => []
    case InLeft(n, _, r, up) => [n] + InOrder(r) + After(up)
    case InRight(_, _, _, up) => After(up)
  }

  ghost function Whole(c: Ctx, t: Tree): seq<Node> {
    Before(c) + InOrder(t) + After(c)
  }

  /** The whole without the root of the focus. */
  ghost function Rest(c: Ctx, t: Tree): seq<Node>
    requires t.Bin?
  {
    Before(c) + InOrder(t.left) + InOrder(t.right) + After(c)
  }

  ghost function Plug(c: Ctx, t: Tree): Tree {
    match c
    case Top => t
    case InLeft(n, h, r, up) => Plug(up, Bin(t, n, h, r))
    case InRight(l, n, h, up) => Plug(up, Bin(l, n, h, t))
  }

  ghost function Depth(c: Ctx): nat {
    match c
    case Top => 0
    case InLeft(_, _, _, up) => 1 + Depth(up)
    case InRight(_, _, _, up) => 1 + Depth(up)
  }

  /** The context whose hole is the hole of `inner`, with `inner` itself placed in the hole of `outer`. */
  ghost function Compose(inner: Ctx, outer: Ctx): Ctx {
    match inner
    case Top => outer
    case InLeft(n, h, r, up) => InLeft(n, h, r, Compose(up, outer))
    case InRight(l, n, h, up) => InRight(l, n, h, Compose(up, outer))
  }

  ghost function RootOf(t: Tree): Node? {
    if t.Leaf? then null else t.node
  }

  /** The parent of whatever is in the hole; `base` is the parent of the whole tree. */
  ghost function ParentIn(c: Ctx, base: Node): Node {
    if c.Top? then base else c.node
  }

  /** The root of the whole tree once `child` is the root of what is in the hole. */
  ghost function RootIn(c: Ctx, child: Node?): Node?
    decreases c
  {
    if c.Top? then child else RootIn(c.up, c.node)
  }

  // ---------- no node appears twice ----------

  ghost predicate Apart(t: Tree) {
    match t
    case Leaf => true
    case Bin(l, n, _, r) =>
      n !in Nodes(l) && n !in Nodes(r) && Nodes(l) !! Nodes(r) && Apart(l) && Apart(r)
  }

  ghost predicate ApartCtx(c: Ctx) {
    match c
    case Top => true
    case InLeft(n, _, r, up) =>
      n !in Nodes(r) && n !in CtxNodes(up) && Nodes(r) !! CtxNodes(up) && Apart(r) && ApartCtx(up)
    case InRight(l, n, _, up) =>
      n !in Nodes(l) && n !in CtxNodes(up) && Nodes(l) !! CtxNodes(up) && Apart(l) && ApartCtx(up)
  }

  ghost predicate ApartAll(c: Ctx, t: Tree) {
    Apart(t) && ApartCtx(c) && Nodes(t) !! CtxNodes(c)
  }

  lemma {:induction false} PlugNodes(c: Ctx, t: Tree)
    ensures Nodes(Plug(c, t)) == Nodes(t) + CtxNodes(c)
  {
    match c
    case Top =>
    case InLeft(n, h, r, up) => PlugNodes(up, Bin(t, n, h, r));
    case InRight(l, n, h, up) => PlugNodes(up, Bin(l, n, h, t));
  }

  lemma {:induction false} PlugApart(c: Ctx, t: Tree)
    ensures Apart(Plug(c, t)) <==> ApartAll(c, t)
  {
    match c
    case Top =>
    case InLeft(n, h, r, up) => PlugApart(up, Bin(t, n, h, r));
    case InRight(l, n, h, up) => PlugApart(up, Bin(l, n, h, t));
  }

  /** Plugging puts the context's elements around those of the subtree, in order. */
  lemma Regroup<T>(a: seq<T>, b: seq<T>, x: T, d: seq<T>, e: seq<T>)
    ensures a + (b + [x] + d) + e == a + b + ([x] + d + e) == (a + b + [x]) + d + e
    ensures a + (b + [x] + d) + e == (a + b) + [x] + (d + e) && [x] + d + e == [x] + (d + e)
  {
  }

  lemma {:induction false} PlugInOrder(c: Ctx, t: Tree)
    ensures InOrder(Plug(c, t)) == Before(c) + InOrder(t) + After(c)
  {
    match c
    case Top =>
    case InLeft(n, h, r, up) =>
      PlugInOrder(up, Bin(t, n, h, r));
      Regroup(Before(up), InOrder(t), n, InOrder(r), After(up));
    case InRight(l, n, h, up) =>
      PlugInOrder(up, Bin(l, n, h, t));
      Regroup(Before(up), InOrder(l), n, InOrder(t), After(up));
  }

  lemma {:induction false} PlugCompose(inner: Ctx, outer: Ctx, t: Tree)
    ensures Plug(Compose(inner, outer), t) == Plug(outer, Plug(inner, t))
    ensures CtxNodes(Compose(inner, outer)) == CtxNodes(inner) + CtxNodes(outer)
  {
    match inner
    case Top =>
    case InLeft(n, h, r, up) => PlugCompose(up, outer, Bin(t, n, h, r));
    case InRight(l, n, h, up) => PlugCompose(up, outer, Bin(l, n, h, t));
  }

  // ---------- search order ----------

  ghost predicate Increasing(s: seq<Node>) {
    |s| <= 1 || (s[0].key < s[1].key && Increasing(s[1..]))
  }

  ghost predicate Pairwise(s: seq<Node>) {
    forall i, j :: 0 <= i < j < |s| ==> s[i].key < s[j].key
  }

  /** Increasing from one element to the next means increasing between any two. */
  lemma {:induction false} IncreasingPairwise(s: seq<Node>)
    ensures Increasing(s) <==> Pairwise(s)
  {
    if |s| > 1 {
      IncreasingPairwise(s[1..]);
      if Increasing(s) {
        forall i, j | 0 <= i < j < |s| ensures s[i].key < s[j].key {
          assert s[1..][j - 1] == s[j] && s[1..][0] == s[1];
          if i > 0 { assert s[1..][i - 1] == s[i]; }
        }
      }
      if Pairwise(s) {
        forall i, j | 0 <= i < j < |s[1..]| ensures s[1..][i].key < s[1..][j].key {
          assert s[1..][i] == s[i + 1] && s[1..][j] == s[j + 1];
        }
      }
    }
  }

  lemma PairwiseAround(a: seq<Node>, n: Node, b: seq<Node>)
    requires Pairwise(a + [n] + b)
    ensures Pairwise(a) && Pairwise(b)
    ensures forall i :: 0 <= i < |a| ==> a[i].key < n.key
    ensures forall j :: 0 <= j < |b| ==> n.key < b[j].key
  {
    var s := a + [n] + b;
    assert s[|a|] == n;
    assert forall i :: 0 <= i < |a| ==> s[i] == a[i];
    assert forall j :: 0 <= j < |b| ==> s[|a| + 1 + j] == b[j];
  }

  lemma IncreasingAround(a: seq<Node>, n: Node, b: seq<Node>)
    requires Increasing(a + [n] + b)
    ensures Increasing(a) && Increasing(b)
    ensures forall i :: 0 <= i < |a| ==> a[i].key < n.key
    ensures forall j :: 0 <= j < |b| ==> n.key < b[j].key
  {
    IncreasingPairwise(a + [n] + b);
    PairwiseAround(a, n, b);
    IncreasingPairwise(a);
    IncreasingPairwise(b);
  }

  /** Every node of a tree has a position in its traversal ... */
  lemma {:induction false} IndexOf(t: Tree, x: Node) returns (i: nat)
    requires x in Nodes(t)
    ensures i < |InOrder(t)| && InOrder(t)[i] == x
  {
    var a := InOrder(t.left);
    if x in Nodes(t.left) {
      i := IndexOf(t.left, x);
    } else if x == t.node {
      i := |a|;
    } else {
      i := IndexOf(t.right, x);
      i := |a| + 1 + i;
    }
  }

  /** ... and every position of the traversal holds a node of the tree. */
  lemma {:induction false} NodeAt(t: Tree, i: nat)
    requires i < |InOrder(t)|
    ensures InOrder(t)[i] in Nodes(t)
  {
    var a := InOrder(t.left);
    if i < |a| {
      NodeAt(t.left, i);
    } else if i > |a| {
      NodeAt(t.right, i - |a| - 1);
    }
  }

  lemma KeysAround(l: Tree, n: Node, r: Tree)
    requires Increasing(InOrder(l) + [n] + InOrder(r))
    ensures Increasing(InOrder(l)) && Increasing(InOrder(r))
    ensures forall x :: x in Nodes(l) ==> x.key < n.key
    ensures forall x :: x in Nodes(r) ==> n.key < x.key
  {
    IncreasingAround(InOrder(l), n, InOrder(r));
    forall x | x in Nodes(l) ensures x.key < n.key { var i := IndexOf(l, x); }
    forall x | x in Nodes(r) ensures n.key < x.key { var i := IndexOf(r, x); }
  }

  /** A strictly increasing traversal leaves no room for a node to appear twice. */
  lemma {:induction false} IncreasingApart(t: Tree)
    requires Increasing(InOrder(t))
    ensures Apart(t)
  {
    match t
    case Leaf =>
    case Bin(l, n, _, r) =>
      KeysAround(l, n, r);
      IncreasingApart(l);
      IncreasingApart(r);
  }

  // ---------- the red-black rules ----------

  ghost predicate IsRed(t: Tree) {
    t.Bin? && t.hue == Live(Red)
  }

  /** Black nodes on the leftmost path. */
  ghost function BlackHeight(t: Tree): nat {
    if t.Leaf? then 0 else Weight(t.hue) + BlackHeight(t.left)
  }

  /** All paths from the root of `t` hold equally many black nodes. */
  ghost predicate Balanced(t: Tree) {
    t.Bin? ==> BlackHeight(t.left) == BlackHeight(t.right) && Balanced(t.left) && Balanced(t.right)
  }

  /** No red node has a red child. */
  ghost predicate Spaced(t: Tree) {
    t.Bin? ==> && (t.hue == Live(Red) ==> !IsRed(t.left) && !IsRed(t.right))
               && Spaced(t.left) && Spaced(t.right)
  }

  ghost predicate RedBlack(t: Tree) {
    !IsRed(t) && Balanced(t) && Spaced(t)
  }

  /** The hole of `c` must be filled with a subtree of black height `h`. */
  ghost predicate BalancedCtx(c: Ctx, h: nat) {
    match c
    case Top => true
    case InLeft(_, hue, r, up) => BlackHeight(r) == h && Balanced(r) && BalancedCtx(up, h + Weight(hue))
    case InRight(l, _, hue, up) => BlackHeight(l) == h && Balanced(l) && BalancedCtx(up, h + Weight(hue))
  }

  /** The hole of `c` may be filled with a red root. */
  ghost predicate RedFits(c: Ctx) {
    !c.Top? && c.hue != Live(Red)
  }

  ghost predicate SpacedCtx(c: Ctx) {
    match c
    case Top => true
    case InLeft(_, hue, r, up) =>
      Spaced(r) && SpacedCtx(up) && (hue == Live(Red) ==> !IsRed(r) && RedFits(up))
    case InRight(l, _, hue, up) =>
      Spaced(l) && SpacedCtx(up) && (hue == Live(Red) ==> !IsRed(l) && RedFits(up))
  }

  /** A tree keeps the red-black rules exactly when its focus and its context do and they fit together. */
  lemma {:induction false} PlugRedBlack(c: Ctx, t: Tree)
    ensures RedBlack(Plug(c, t)) <==>
            && Balanced(t) && Spaced(t) && BalancedCtx(c, BlackHeight(t)) && SpacedCtx(c)
            && (IsRed(t) ==> RedFits(c))
  {
    match c
    case Top =>
    case InLeft(n, h, r, up) => PlugRedBlack(up, Bin(t, n, h, r));
    case InRight(l, n, h, up) => PlugRedBlack(up, Bin(l, n, h, t));
  }

  // ---------- ends of the traversal ----------

  /** The context only ever goes left: its hole is where the first element sits. */
  ghost predicate Leftmost(c: Ctx) {
    c.Top? || (c.InLeft? && Leftmost(c.up))
  }

  ghost predicate Rightmost(c: Ctx) {
    c.Top? || (c.InRight? && Rightmost(c.up))
  }

  lemma {:induction false} LeftmostBefore(c: Ctx)
    ensures Leftmost(c) ==> Before(c) == []
    ensures Rightmost(c) ==> After(c) == []
  {
    if !c.Top? { LeftmostBefore(c.up); }
  }

  lemma {:induction false} ComposeOrder(inner: Ctx, outer: Ctx)
    ensures Before(Compose(inner, outer)) == Before(outer) + Before(inner)
    ensures After(Compose(inner, outer)) == After(inner) + After(outer)
  {
    match inner
    case Top =>
    case InLeft(n, h, r, up) => ComposeOrder(up, outer);
    case InRight(l, n, h, up) => ComposeOrder(up, outer);
  }

  /** Every node of a tree can be brought into focus. */
  lemma {:induction false} Locate(t: Tree, x: Node) returns (c: Ctx, u: Tree)
    requires x in Nodes(t)
    ensures Plug(c, u) == t && u.Bin? && u.node == x
  {
    if x == t.node {
      c, u := Top, t;
    } else if x in Nodes(t.left) {
      c, u := Locate(t.left, x);
      var outer := InLeft(t.node, t.hue, t.right, Top);
      PlugCompose(c, outer, u);
      c := Compose(c, outer);
    } else {
      c, u := Locate(t.right, x);
      var outer := InRight(t.left, t.node, t.hue, Top);
      PlugCompose(c, outer, u);
      c := Compose(c, outer);
    }
  }

  /** The position of the focus' root in the traversal of the whole tree. */
  ghost function Position(c: Ctx, t: Tree): nat
    requires t.Bin?
  {
    |Before(c)| + |InOrder(t.left)|
  }

  lemma SplitAt<T>(a: seq<T>, b: seq<T>, x: T, d: seq<T>, e: seq<T>)
    ensures var w, i := a + (b + [x] + d) + e, |a| + |b|;
      i < |w| && w[i] == x && w[..i] == a + b && w[i + 1..] == d + e && a + b + d + e == w[..i] + w[i + 1..]
  {
    assert a + (b + [x] + d) + e == (a + b) + [x] + (d + e);
    assert a + b + d + e == (a + b) + (d + e);
  }

  lemma InOrderBin(t: Tree)
    requires t.Bin?
    ensures InOrder(t) == InOrder(t.left) + [t.node] + InOrder(t.right)
  {
  }

  lemma AtPosition(c: Ctx, t: Tree)
    requires t.Bin?
    ensures var w, i := Whole(c, t), Position(c, t);
      && i < |w| && w[i] == t.node && w == InOrder(Plug(c, t))
      && w[..i] == Before(c) + InOrder(t.left) && w[i + 1..] == InOrder(t.right) + After(c)
      && Rest(c, t) == w[..i] + w[i + 1..]
  {
    hide Before, After, Plug, InOrder;
    PlugInOrder(c, t);
    InOrderBin(t);
    SplitAt(Before(c), InOrder(t.left), t.node, InOrder(t.right), After(c));
  }

  lemma IncreasingWithout(s: seq<Node>, i: nat)
    requires Increasing(s) && i < |s|
    ensures Increasing(s[..i] + s[i + 1..])
  {
    IncreasingPairwise(s);
    IncreasingPairwise(s[..i] + s[i + 1..]);
  }

  /** In a strictly increasing sequence an element has one position. */
  lemma OnePosition(s: seq<Node>, i: nat, j: nat)
    requires Increasing(s) && i < |s| && j < |s| && s[i].key == s[j].key
    ensures i == j
  {
    IncreasingPairwise(s);
  }

  ghost function First(s: seq<Node>): Node? {
    if s == [] then null else s[0]
  }

  ghost function Last(s: seq<Node>): Node? {
    if s == [] then null else s[|s| - 1]
  }

  lemma EndsWithout(s: seq<Node>, i: nat)
    requires i < |s|
    ensures var r := s[..i] + s[i + 1..];
      && First(r) == (if i == 0 then First(s[1..]) else First(s))
      && Last(r) == (if i == |s| - 1 then Last(s[..i]) else Last(s))
  {
  }

  /** What becomes of the two ends when the root of the focus goes. */
  lemma EndsOfRest(c: Ctx, t: Tree)
    requires t.Bin? && Increasing(Whole(c, t))
    ensures var w, earlier, later := Whole(c, t), Before(c) + InOrder(t.left), InOrder(t.right) + After(c);
      && First(Rest(c, t)) == (if t.node == First(w) then First(later) else First(w))
      && Last(Rest(c, t)) == (if t.node == Last(w) then Last(earlier) else Last(w))
      && (t.node == First(w) <==> earlier == []) && (t.node == Last(w) <==> later == [])
      && |w| == |earlier| + 1 + |later|
  {
    hide Increasing, First, Last;
    AtPosition(c, t);
    EndsAround(Whole(c, t), Position(c, t));
  }

  /** A focus with no node outside it is the whole tree. */
  lemma AloneAtTop(c: Ctx, t: Tree)
    requires t.Bin? && |Whole(c, t)| == 1
    ensures c.Top?
  {
  }

  lemma EndsAround(w: seq<Node>, i: nat)
    requires Increasing(w) && i < |w|
    ensures First(w[..i] + w[i + 1..]) == (if w[i] == First(w) then First(w[i + 1..]) else First(w))
    ensures Last(w[..i] + w[i + 1..]) == (if w[i] == Last(w) then Last(w[..i]) else Last(w))
    ensures (w[i] == First(w) <==> w[..i] == []) && (w[i] == Last(w) <==> w[i + 1..] == [])
    ensures |w| == |w[..i]| + 1 + |w[i + 1..]|
  {
    hide Increasing;
    EndsWithout(w, i);
    if w[0] == w[i] { OnePosition(w, 0, i); }
    if w[|w| - 1] == w[i] { OnePosition(w, |w| - 1, i); }
  }

  // ---------- where a key belongs ----------

  ghost predicate AllBelow(s: seq<Node>, key: int) {
    forall i :: 0 <= i < |s| ==> s[i].key < key
  }

  ghost predicate AllFrom(s: seq<Node>, key: int) {
    forall i :: 0 <= i < |s| ==> key <= s[i].key
  }

  /** The hole of `c` is where the elements change from below `key` to at least `key`. */
  ghost predicate Cut(c: Ctx, key: int) {
    AllBelow(Before(c), key) && AllFrom(After(c), key)
  }

  lemma PairwiseCut(a: seq<Node>, n: Node, b: seq<Node>, key: int)
    requires Pairwise(a + [n] + b)
    ensures n.key < key ==> AllBelow(a + [n], key)
    ensures key <= n.key ==> AllFrom([n] + b, key)
  {
    PairwiseAround(a, n, b);
  }

  /** Comparing with the root of the focus decides which side of it the cut is on. */
  lemma StepCut(c: Ctx, t: Tree, key: int)
    requires t.Bin? && Increasing(Whole(c, t)) && Cut(c, key)
    ensures if t.node.key < key then Cut(InRight(t.left, t.node, t.hue, c), key)
                                else Cut(InLeft(t.node, t.hue, t.right, c), key)
  {
    var earlier, later := Before(c) + InOrder(t.left), InOrder(t.right) + After(c);
    Regroup(Before(c), InOrder(t.left), t.node, InOrder(t.right), After(c));
    IncreasingPairwise(Whole(c, t));
    hide Increasing, Pairwise, AllBelow, AllFrom;
    PairwiseCut(earlier, t.node, later, key);
  }

  lemma IncreasingWith(a: seq<Node>, n: Node, b: seq<Node>)
    requires Increasing(a + b) && AllBelow(a, n.key) && AllFrom(b, n.key + 1)
    ensures Increasing(a + [n] + b)
  {
    IncreasingPairwise(a + b);
    PairwiseWith(a, n, b);
    IncreasingPairwise(a + [n] + b);
  }

  lemma PairwiseWith(a: seq<Node>, n: Node, b: seq<Node>)
    requires Pairwise(a + b) && AllBelow(a, n.key) && AllFrom(b, n.key + 1)
    ensures Pairwise(a + [n] + b)
  {
    var s, w := a + b, a + [n] + b;
    forall i, j | 0 <= i < j < |w| ensures w[i].key < w[j].key {
      assert w[i] == if i < |a| then a[i] else if i == |a| then n else b[i - |a| - 1];
      assert w[j] == if j < |a| then a[j] else if j == |a| then n else b[j - |a| - 1];
      if i != |a| && j != |a| {
        assert s[if i < |a| then i else i - 1] == w[i];
        assert s[if j < |a| then j else j - 1] == w[j];
      }
    }
  }

  lemma EndsWith(a: seq<Node>, n: Node, b: seq<Node>)
    requires AllBelow(a, n.key) && AllFrom(b, n.key + 1)
    ensures var s, w := a + b, a + [n] + b;
      && First(w) == (if s == [] || n.key < s[0].key then n else First(s))
      && Last(w) == (if s == [] || s[|s| - 1].key < n.key then n else Last(s))
  {
  }

  /** A key that is not there separates the elements strictly. */
  lemma StrictCut(c: Ctx, key: int, s: seq<Node>)
    requires Cut(c, key) && s == Before(c) + After(c) && forall i :: 0 <= i < |s| ==> s[i].key != key
    ensures AllFrom(After(c), key + 1)
  {
    forall i | 0 <= i < |After(c)| ensures key + 1 <= After(c)[i].key {
      assert s[|Before(c)| + i] == After(c)[i];
    }
  }
}
