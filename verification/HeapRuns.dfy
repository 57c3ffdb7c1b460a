/**
 What a row of two-bit allocation ids means: every maximal run of equal non-zero ids is one
 allocation. This module is about the rows only; `HeapBlocks` ties them to bitmap bytes.
 */
module HeapRuns {

  type Id = x: int | 0 <= x < 4

  /** The run that `k` belongs to, read rightwards from `k`, ends just before `e`. */
  ghost predicate IsRun(s: seq<Id>, k: nat, e: nat) {
    && k < e <= |s|
    && (forall j :: k <= j < e ==> s[j] == s[k])
    && (e < |s| ==> s[e] != s[k])
  }

  ghost function RunEnd(s: seq<Id>, k: nat): (e: nat)
    requires k < |s|
    ensures IsRun(s, k, e)
    decreases |s| - k
  {
    if k + 1 < |s| && s[k + 1] == s[k] then RunEnd(s, k + 1) else k + 1
  }

  lemma RunUnique(s: seq<Id>, k: nat, e: nat, f: nat)
    requires IsRun(s, k, e) && IsRun(s, k, f)
    ensures e == f
  {
  }

  lemma RunBounds(s: seq<Id>, k: nat, e: nat)
    requires IsRun(s, k, e)
    ensures k < e <= |s|
  {
  }

  ghost predicate IsStart(s: seq<Id>, k: nat) {
    k < |s| && s[k] != 0 && (k > 0 ==> s[k - 1] != s[k])
  }

  /** The allocations a row of ids stands for: first chunk to number of chunks. */
  ghost function Runs(s: seq<Id>): map<nat, nat> {
    map k: nat | k < |s| && IsStart(s, k) :: RunEnd(s, k) - k
  }

  /** The row with the chunks from `a` to `b` set to `id`. */
  ghost function Marked(s: seq<Id>, a: nat, b: nat, id: Id): (r: seq<Id>)
    requires a <= b <= |s|
    ensures |r| == |s|
    ensures forall j :: 0 <= j < |s| ==> r[j] == if a <= j < b then id else s[j]
  {
    s[..a] + seq(b - a, i => id) + s[b..]
  }

  lemma MarkedNothing(s: seq<Id>, a: nat)
    requires a <= |s|
    ensures Marked(s, a, a, 0) == s
  {
  }

  lemma MarkedNext(s: seq<Id>, a: nat, b: nat)
    requires a <= b < |s|
    ensures Marked(s, a, b, 0)[b] == s[b] && Marked(s, a, b, 0)[b := 0] == Marked(s, a, b + 1, 0)
  {
  }

  lemma RunIs(s: seq<Id>, k: nat, e: nat)
    requires k < e < |s| && (forall j :: k <= j < e ==> s[j] == s[k]) && s[e] != s[k]
    ensures IsRun(s, k, e)
  {
  }

  ghost predicate Uniform(s: seq<Id>, a: nat, b: nat, id: Id)
    requires a <= b <= |s|
  {
    forall j :: a <= j < b ==> s[j] == id
  }

  /** `id` differs from both neighbours of the chunks from `a` to `b`. */
  ghost predicate Distinct(s: seq<Id>, a: nat, b: nat, id: Id)
    requires a <= b <= |s|
  {
    id != 0 && (a > 0 ==> s[a - 1] != id) && (b < |s| ==> s[b] != id)
  }

  /** Two rows that agree outside the chunks from `a` to `b`. */
  ghost predicate SameOutside(s: seq<Id>, t: seq<Id>, a: nat, b: nat) {
    a < b <= |s| == |t| && forall j :: 0 <= j < |s| && !(a <= j < b) ==> t[j] == s[j]
  }

  /** A run that stays clear of the edited chunks keeps its extent. */
  lemma RunKept(s: seq<Id>, t: seq<Id>, a: nat, b: nat, k: nat)
    requires SameOutside(s, t, a, b) && k < |s| && !(a <= k < b)
    requires k < a ==> RunEnd(s, k) <= a && (RunEnd(s, k) == a ==> t[a] != s[k])
    ensures RunEnd(t, k) == RunEnd(s, k)
  {
    var e := RunEnd(s, k);
    assert IsRun(t, k, e);
    RunUnique(t, k, e, RunEnd(t, k));
  }

  lemma MarkAt(s: seq<Id>, a: nat, b: nat, id: Id, k: nat)
    requires a < b <= |s| && Uniform(s, a, b, 0) && Distinct(s, a, b, id) && k < |s|
    ensures var t := Marked(s, a, b, id);
      && (IsStart(t, k) <==> k == a || IsStart(s, k))
      && (IsStart(s, k) ==> k != a && RunEnd(t, k) == RunEnd(s, k))
  {
    var t := Marked(s, a, b, id);
    if IsStart(s, k) {
      assert !(a <= k < b);
      assert s[a] == 0;
      assert k < a ==> RunEnd(s, k) <= a;
      assert k < a && RunEnd(s, k) == a ==> s[a - 1] == s[k];
      RunKept(s, t, a, b, k);
    }
  }

  /** Marking free chunks with an id that differs from the neighbours adds exactly one allocation. */
  lemma MarkAddsRun(s: seq<Id>, a: nat, b: nat, id: Id)
    requires a < b <= |s| && Uniform(s, a, b, 0) && Distinct(s, a, b, id)
    ensures a !in Runs(s) && Runs(Marked(s, a, b, id)) == Runs(s)[a := b - a]
  {
    hide Runs, IsStart, RunEnd, Marked, Uniform, Distinct;
    var t := Marked(s, a, b, id);
    NewRun(s, a, b, id);
    MarkAt(s, a, b, id, a);
    RunsAt(s, a);
    forall k: nat
      ensures k in Runs(t) <==> k == a || k in Runs(s)
      ensures k in Runs(t) ==> Runs(t)[k] == if k == a then b - a else if k in Runs(s) then Runs(s)[k] else 0
    {
      RunsAt(s, k);
      RunsAt(t, k);
      if k < |s| { MarkAt(s, a, b, id, k); }
    }
  }

  lemma RunsAt(s: seq<Id>, k: nat)
    ensures k in Runs(s) <==> k < |s| && IsStart(s, k)
    ensures k in Runs(s) ==> Runs(s)[k] == RunEnd(s, k) - k
  {
  }

  lemma NewRun(s: seq<Id>, a: nat, b: nat, id: Id)
    requires a < b <= |s| && Distinct(s, a, b, id)
    ensures RunEnd(Marked(s, a, b, id), a) == b
  {
    var t := Marked(s, a, b, id);
    assert IsRun(t, a, b);
    RunUnique(t, a, b, RunEnd(t, a));
  }

  lemma ClearAt(s: seq<Id>, a: nat, k: nat)
    requires a < |s| && IsStart(s, a) && k < |s|
    ensures var t := Marked(s, a, RunEnd(s, a), 0);
      && (IsStart(t, k) <==> k != a && IsStart(s, k))
      && (k != a && IsStart(s, k) ==> RunEnd(t, k) == RunEnd(s, k))
  {
    var b := RunEnd(s, a);
    var t := Marked(s, a, b, 0);
    if k != a && IsStart(s, k) {
      assert !(a <= k < b);
      assert k < a ==> RunEnd(s, k) <= a;
      RunKept(s, t, a, b, k);
    }
  }

  /** Clearing the chunks of one allocation removes exactly that allocation. */
  lemma ClearRemovesRun(s: seq<Id>, a: nat)
    requires a in Runs(s)
    ensures Runs(Marked(s, a, RunEnd(s, a), 0)) == Runs(s) - {a}
  {
    hide IsStart, RunEnd, IsRun, Marked;
    RunBounds(s, a, RunEnd(s, a));
    var t := Marked(s, a, RunEnd(s, a), 0);
    forall k: nat | k < |s| ensures k in Runs(t) <==> k in Runs(s) - {a} { ClearAt(s, a, k); }
    forall k: nat | k in Runs(t) ensures Runs(t)[k] == (Runs(s) - {a})[k] { ClearAt(s, a, k); }
  }

  // ---------- counting free chunks ----------

  ghost function Zeros(s: seq<Id>): nat {
    if s == [] then 0 else (if s[0] == 0 then 1 else 0) + Zeros(s[1..])
  }

  lemma {:induction false} ZerosConcat(a: seq<Id>, b: seq<Id>)
    ensures Zeros(a + b) == Zeros(a) + Zeros(b)
  {
    if a == [] {
      assert a + b == b;
    } else {
      assert (a + b)[1..] == a[1..] + b;
      ZerosConcat(a[1..], b);
    }
  }

  lemma {:induction false} ZerosUniform(s: seq<Id>, id: Id)
    requires forall j :: 0 <= j < |s| ==> s[j] == id
    ensures Zeros(s) == if id == 0 then |s| else 0
  {
    if s != [] { ZerosUniform(s[1..], id); }
  }

  lemma ZerosAt(s: seq<Id>, a: nat)
    requires a <= |s|
    ensures Zeros(s) == Zeros(s[..a]) + Zeros(s[a..])
  {
    hide Zeros;
    assert s == s[..a] + s[a..];
    ZerosConcat(s[..a], s[a..]);
  }

  lemma ZerosSplit(s: seq<Id>, a: nat, b: nat)
    requires a <= b <= |s|
    ensures Zeros(s) == Zeros(s[..a]) + Zeros(s[a..b]) + Zeros(s[b..])
  {
    hide Zeros;
    ZerosAt(s, b);
    ZerosAt(s[..b], a);
    assert s[..b][..a] == s[..a] && s[..b][a..] == s[a..b];
  }

  lemma MarkedParts(s: seq<Id>, a: nat, b: nat, was: Id, id: Id)
    requires a <= b <= |s| && Uniform(s, a, b, was)
    ensures var t := Marked(s, a, b, id);
            && |t| == |s| && t[..a] == s[..a] && t[b..] == s[b..]
            && (forall j :: 0 <= j < b - a ==> s[a..b][j] == was)
            && (forall j :: 0 <= j < b - a ==> t[a..b][j] == id)
  {
  }

  /** Marking or clearing a uniform stretch moves the free count by its length. */
  lemma ZerosMarked(s: seq<Id>, a: nat, b: nat, was: Id, id: Id)
    requires a <= b <= |s| && Uniform(s, a, b, was)
    ensures Zeros(Marked(s, a, b, id)) + (if was == 0 then b - a else 0) == Zeros(s) + (if id == 0 then b - a else 0)
  {
    hide Zeros, Marked, Uniform;
    var t := Marked(s, a, b, id);
    MarkedParts(s, a, b, was, id);
    ZerosSplit(s, a, b);
    ZerosSplit(t, a, b);
    ZerosUniform(s[a..b], was);
    ZerosUniform(t[a..b], id);
  }

  lemma ZerosAtLeast(s: seq<Id>, a: nat, b: nat)
    ensures a <= b <= |s| && Uniform(s, a, b, 0) ==> Zeros(s) >= b - a
  {
    if a <= b <= |s| && Uniform(s, a, b, 0) {
      ZerosSplit(s, a, b);
      ZerosUniform(s[a..b], 0);
    }
  }

  /** Marking within the first `n` slots. */
  lemma MarkedPrefix(s: seq<Id>, n: nat, a: nat, b: nat, id: Id)
    requires a <= b <= n <= |s|
    ensures Marked(s, a, b, id)[..n] == Marked(s[..n], a, b, id)
    ensures Uniform(s, n, |s|, 0) ==> Uniform(Marked(s, a, b, id), n, |s|, 0)
  {
  }

  lemma {:induction false} ZerosBound(s: seq<Id>)
    ensures Zeros(s) <= |s|
  {
    if s != [] { ZerosBound(s[1..]); }
  }
}
