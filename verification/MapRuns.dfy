/** Which lists the correction of the memory map puts in order: exactly those without a crowded page. */
module MapRuns {
  import opened Common
  import opened PhysicalRanges
  import opened MapCorrection

  // ---------- tidy lists ----------

  /** A turn on a tidy list leaves it tidy and describing the same memory, or ends with every pair resolved. */
  lemma TidyTurn(s: seq<Range>, i: nat, was: seq<Range>)
    requires Describes(s, was) && ResolvedTo(s, i)
    ensures match TurnAt(s, i)
      case Stopped => false
      case Done(t) => t == s && ResolvedTo(s, |s|)
      case Looking(t, j) => Describes(t, was) && ResolvedTo(t, j)
  {
    hide Pieces, Crowded, SameMap, AtMostTwice;
    if i + 1 < |s| {
      if TriviallyMergeable(s[i], s[i + 1]) {
        MergeStep(s, i, was);
      } else if s[i].Overlaps(s[i + 1]) {
        ShatterStep(s, i, was);
        PiecesLegal(s[i], s[i + 1]);
      } else {
        ResolvedNext(s, i);
      }
    }
  }

  lemma {:induction false} TidyRun(s: seq<Range>, i: nat, was: seq<Range>, n: nat)
    requires Describes(s, was) && ResolvedTo(s, i)
    ensures match AfterTurns(s, i, n)
      case Stopped => false
      case Done(t) => Tidy(t) && Normal(t) && SameMap(was, t)
      case Looking(t, j) => true
    decreases n
  {
    if n > 0 {
      TidyTurn(s, i, was);
      match TurnAt(s, i)
      case Done(t) => ResolvedIsNormal(t);
      case Looking(t, j) => TidyRun(t, j, was, n - 1);
      case Stopped =>
    }
  }

  // ---------- a list out of order ----------

  ghost predicate ApartAt(s: seq<Range>, k: nat) {
    k + 1 < |s| && s[k].end <= s[k + 1].begin
  }

  /**
   The free range at `m` stands right before a reserved one that begins below it. The turns have yet to come to it,
   over pairs that are apart with a reserved range at the end, or they have passed it.
   */
  ghost predicate StuckAt(s: seq<Range>, i: nat, m: nat) {
    && m + 1 < |s| && s[m].IsFree() && s[m + 1].IsReserved() && s[m + 1].begin < s[m].begin
    && (forall k :: i <= k < m ==> ApartAt(s, k)) && (i < m ==> s[m - 1].IsReserved())
  }

  ghost predicate Stuck(s: seq<Range>, i: nat) {
    AllLegal(s) && NoneEmpty(s) && exists m :: StuckAt(s, i, m)
  }

  /** No turn gets a stuck list out of it. */
  ghost predicate Fails(p: Progress) {
    match p
    case Stopped => true
    case Done(t) => !Normal(t)
    case Looking(t, j) => Stuck(t, j)
  }

  lemma StuckBefore(s: seq<Range>, i: nat, m: nat)
    requires AllLegal(s) && NoneEmpty(s) && StuckAt(s, i, m) && i < m
    ensures Fails(TurnAt(s, i))
  {
    assert ApartAt(s, i);
    assert s[i].begin < s[i].end && s[i + 1].begin < s[i + 1].end;
    if TriviallyMergeable(s[i], s[i + 1]) {
      MergedLegal(s, i);
      var t := MergedAt(s, i);
      forall k | i <= k < m - 1 ensures ApartAt(t, k) { assert ApartAt(s, k + 1); }
      assert StuckAt(t, i, m - 1);
    } else {
      assert StuckAt(s, i + 1, m);
    }
  }

  lemma MergedLegal(s: seq<Range>, i: nat)
    requires i + 1 < |s| && AllLegal(s) && NoneEmpty(s) && TriviallyMergeable(s[i], s[i + 1])
    ensures AllLegal(MergedAt(s, i)) && NoneEmpty(MergedAt(s, i))
  {
    assert Legal(s[i]) && Legal(s[i + 1]);
  }

  lemma StuckHere(s: seq<Range>, m: nat)
    requires AllLegal(s) && NoneEmpty(s) && StuckAt(s, m, m)
    ensures Fails(TurnAt(s, m))
  {
    if !s[m].Overlaps(s[m + 1]) { assert StuckAt(s, m + 1, m); }
  }

  lemma StuckBehind(s: seq<Range>, i: nat, m: nat)
    requires AllLegal(s) && NoneEmpty(s) && StuckAt(s, i, m) && m < i
    ensures Fails(TurnAt(s, i))
  {
    hide Pieces;
    if i + 1 >= |s| {
      assert s[m].end > s[m + 1].begin;
    } else if TriviallyMergeable(s[i], s[i + 1]) {
      MergedLegal(s, i);
      assert StuckAt(MergedAt(s, i), i, m);
    } else if !s[i].Overlaps(s[i + 1]) {
      assert StuckAt(s, i + 1, m);
    } else if s[i].Contains(s[i + 1].begin) {
      assert Legal(s[i]) && Legal(s[i + 1]);
      PiecesLegal(s[i], s[i + 1]);
      if i == m + 1 { FirstPiece(s[i], s[i + 1]); }
      assert StuckAt(Shattered(s, i), i - 1, m);
    }
  }

  /** The pieces of a pair that begins with a reserved range begin with one, at the same address. */
  lemma FirstPiece(x: Range, y: Range)
    requires Shatterable(x, y) && x.IsReserved()
    ensures var p := Pieces(x, y); p != [] && p[0].IsReserved() && p[0].begin == x.begin
  {
    PiecesCases(x, y);
    if x.kind < y.kind { KeepReserved(Range(x.begin, y.begin, x.kind)); }
  }

  lemma StuckTurn(s: seq<Range>, i: nat)
    requires Stuck(s, i)
    ensures Fails(TurnAt(s, i))
  {
    var m :| StuckAt(s, i, m);
    if i < m {
      StuckBefore(s, i, m);
    } else if i == m {
      StuckHere(s, m);
    } else {
      StuckBehind(s, i, m);
    }
  }

  // ---------- overshooting gets the list stuck ----------

  lemma {:induction false} PrefixApart(s: seq<Range>, i: nat, j: nat)
    requires NoneEmpty(s) && Ascending(s) && ResolvedTo(s, i) && j < i < |s|
    ensures s[j].end <= s[i].begin
    decreases i - j
  {
    assert Resolved(s[j], s[j + 1]);
    assert s[j].begin < s[j].end && s[j + 1].begin < s[j + 1].end;
    if j + 1 < i { PrefixApart(s, i, j + 1); }
  }

  /** The pieces of an overshooting pair end with the reserved range and the free rest behind it. */
  lemma OvershootPieces(x: Range, y: Range, lo: Range, hi: Range, next: Range) returns (first: seq<Range>, rest: Range)
    requires Shatterable(x, y) && RestAbove(lo, hi, next) && ((lo == x && hi == y) || (lo == y && hi == x))
    ensures Pieces(x, y) == first + [hi, rest] && rest.IsFree() && next.begin < rest.begin && hi.end <= rest.begin
    ensures |first| <= 1 && forall r :: r in first ==> r.end <= hi.begin
    ensures x.begin <= Pieces(x, y)[0].begin
  {
    PiecesCases(x, y);
    PiecesAscend(x, y);
    var r := Range(hi.end, lo.end, FREE);
    KeepFree(r);
    Rounding(hi.end, lo.end);
    Rounding(lo.end, lo.end);
    rest := Range(RoundUp(hi.end), RoundDown(lo.end), FREE);
    assert Keep(r) == [rest];
    if lo == x {
      first := Keep(Range(x.begin, y.begin, x.kind));
      KeepFree(Range(x.begin, y.begin, x.kind));
      Rounding(y.begin, y.begin);
    } else {
      first := [];
    }
  }

  lemma OvershootSticks(s: seq<Range>, i: nat)
    requires Orderly(s) && ResolvedTo(s, i) && Overshoots(s, i) && Shatterable(s[i], s[i + 1])
    ensures Stuck(Shattered(s, i), if i > 0 then i - 1 else 0)
  {
    hide Pieces, AtMostTwice;
    var x, y, z := s[i], s[i + 1], s[i + 2];
    var (lo, hi) := if RestAbove(x, y, z) then (x, y) else (y, x);
    var first, rest := OvershootPieces(x, y, lo, hi, z);
    PiecesLegal(x, y);
    NextReserved(s, i, lo, hi);
    var t, m, j := Shattered(s, i), i + |first| + 1, if i > 0 then i - 1 else 0;
    assert t == s[..i] + first + [hi, rest] + s[i + 2..];
    assert t[m - 1] == hi && t[m] == rest && t[m + 1] == z;
    forall k | j <= k < m ensures ApartAt(t, k) {
      if k < i {
        PrefixApart(s, i, i - 1);
      } else if k == i && first != [] {
        assert t[i] == first[0];
      }
    }
    assert StuckAt(t, j, m);
  }

  /** The range an overshooting rest jumps over is reserved, as it begins inside a page. */
  lemma NextReserved(s: seq<Range>, i: nat, lo: Range, hi: Range)
    requires i + 2 < |s| && Orderly(s) && RestAbove(lo, hi, s[i + 2])
    requires (lo == s[i] && hi == s[i + 1]) || (lo == s[i + 1] && hi == s[i])
    ensures s[i + 2].IsReserved()
  {
    var z := s[i + 2];
    NextIsClear(s, i);
    assert Legal(z);
    Rounding(hi.end, z.begin);
  }

  // ---------- a crowded list stays crowded until then ----------

  /** Two ranges with an address in common are not among the resolved ones. */
  lemma SharersLater(s: seq<Range>, i: nat, a: nat, b: nat, addr: nat)
    requires NoneEmpty(s) && Ascending(s) && ResolvedTo(s, i) && i < |s|
    requires a < b < |s| && s[a].Contains(addr) && s[b].Contains(addr)
    ensures i <= a
  {
    if a < i {
      if b < i {
        ResolvedLess(s, i, b);
        PrefixApart(s, b, a);
      } else {
        PrefixApart(s, i, a);
        AscendingApart(s, i, b);
      }
    }
  }

  lemma ResolvedLess(s: seq<Range>, i: nat, j: nat)
    requires ResolvedTo(s, i) && j <= i
    ensures ResolvedTo(s, j)
  {
  }

  /** The three ranges of a crowded page around `e`. */
  ghost predicate Crowd(s: seq<Range>, e: nat, f: Range, p: Range, q: Range) {
    && f in s && f.IsFree() && f.Contains(e) && RoundUp(e) < f.end
    && p in s && p.IsReserved() && p.end == e
    && q in s && q.IsReserved() && e <= q.begin < RoundUp(e)
  }

  lemma CrowdOf(s: seq<Range>) returns (e: nat, f: Range, p: Range, q: Range)
    requires Crowded(s)
    ensures Crowd(s, e, f, p, q)
  {
    e :| FreeAround(s, e) && EndsAt(s, e) && BeginsIn(s, e);
    f :| f in s && f.IsFree() && f.Contains(e) && RoundUp(e) < f.end;
    p :| p in s && p.IsReserved() && p.end == e;
    q :| q in s && q.IsReserved() && e <= q.begin < RoundUp(e);
  }

  lemma CrowdCrowds(s: seq<Range>, e: nat, f: Range, p: Range, q: Range)
    requires Crowd(s, e, f, p, q)
    ensures FreeAround(s, e) && EndsAt(s, e) && BeginsIn(s, e) && Crowded(s)
  {
  }

  /** All three are still ahead. */
  lemma CrowdAhead(s: seq<Range>, i: nat) returns (e: nat, f: Range, p: Range, q: Range)
    requires Orderly(s) && ResolvedTo(s, i) && Crowded(s) && i < |s|
    ensures Crowd(s[i..], e, f, p, q) && e % PAGE_SIZE != 0 && f.begin <= RoundDown(e) < e
  {
    hide AtMostTwice, Crowded, ResolvedTo;
    e, f, p, q := CrowdOf(s);
    var a :| 0 <= a < |s| && s[a] == f;
    var b :| 0 <= b < |s| && s[b] == p;
    var c :| 0 <= c < |s| && s[c] == q;
    assert Legal(s[a]) && s[b].begin < s[b].end;
    Rounding(e, f.begin);
    if a < b { SharersLater(s, i, a, b, e - 1); } else { SharersLater(s, i, b, a, e - 1); }
    if c < i {
      AscendingApart(s, c, i);
      AscendingApart(s, i, a);
    }
    assert s[i..][a - i] == f && s[i..][b - i] == p && s[i..][c - i] == q;
  }

  /** A range from `i` on is one of the pair or stands behind it and begins no earlier than what follows the pair. */
  lemma Ahead(s: seq<Range>, i: nat, r: Range)
    requires i + 1 < |s| && Ascending(s) && r in s[i..]
    ensures r == s[i] || r == s[i + 1] || (i + 2 < |s| && r in s[i + 2..] && s[i + 2].begin <= r.begin)
  {
    var k :| 0 <= k < |s| - i && s[i..][k] == r;
    if k >= 2 {
      AscendingApart(s, i + 2, i + k);
      assert s[i + 2..][k - 2] == r;
    }
  }

  lemma ShatteredHas(s: seq<Range>, i: nat, r: Range)
    requires i + 1 < |s| && s[i].Contains(s[i + 1].begin) && (r in s[i + 2..] || r in Pieces(s[i], s[i + 1]))
    ensures r in Shattered(s, i)
  {
  }

  /** A reserved range of the pair leaves a reserved piece with its end, or the other one, reserved too, covers it. */
  lemma PieceWithEnd(x: Range, y: Range, p: Range) returns (r: Range)
    requires Shatterable(x, y) && (p == x || p == y) && p.IsReserved()
    ensures (r in Pieces(x, y) && r.IsReserved() && r.end == p.end)
      || (x.IsReserved() && y.IsReserved() && x.Contains(p.end - 1) && y.Contains(p.end - 1))
  {
    PiecesCases(x, y);
    r := Pieces(x, y)[0];
    if x.kind < y.kind {
      r := if p == x && y.end < x.end then Range(y.end, x.end, x.kind) else y;
    } else if x.kind > y.kind {
      r := if x.end == p.end then x else Range(x.end, y.end, y.kind);
    }
    if r.IsReserved() { KeepReserved(r); }
  }

  /** The same for its beginning. */
  lemma PieceWithBegin(x: Range, y: Range, q: Range) returns (r: Range)
    requires Shatterable(x, y) && (q == x || q == y) && q.IsReserved()
    ensures (r in Pieces(x, y) && r.IsReserved() && r.begin == q.begin)
      || (x.IsReserved() && y.IsReserved() && x.Contains(q.begin) && y.Contains(q.begin))
  {
    PiecesCases(x, y);
    if q == x {
      FirstPiece(x, y);
      r := Pieces(x, y)[0];
    } else {
      r := y;
    }
  }

  lemma EndsKept(s: seq<Range>, i: nat, e: nat, p: Range)
    requires i + 1 < |s| && Orderly(s) && Shatterable(s[i], s[i + 1]) && FreeAround(s, e) && e % PAGE_SIZE != 0
    requires p in s[i..] && p.IsReserved() && p.end == e
    ensures EndsAt(Shattered(s, i), e)
  {
    Ahead(s, i, p);
    var r := p;
    if p == s[i] || p == s[i + 1] {
      r := PieceWithEnd(s[i], s[i + 1], p);
      if !(r in Pieces(s[i], s[i + 1]) && r.IsReserved() && r.end == e) {
        Rounding(e, e);
        FreeMakesThree(s, i, e, e - 1);
      }
    }
    ShatteredHas(s, i, r);
  }

  lemma BeginsKept(s: seq<Range>, i: nat, e: nat, q: Range)
    requires i + 1 < |s| && Orderly(s) && Shatterable(s[i], s[i + 1]) && FreeAround(s, e) && e % PAGE_SIZE != 0
    requires q in s[i..] && q.IsReserved() && e <= q.begin < RoundUp(e)
    ensures BeginsIn(Shattered(s, i), e)
  {
    Ahead(s, i, q);
    var r := q;
    if q == s[i] || q == s[i + 1] {
      r := PieceWithBegin(s[i], s[i + 1], q);
      if !(r in Pieces(s[i], s[i + 1]) && r.IsReserved() && r.begin == q.begin) {
        Rounding(e, e);
        FreeMakesThree(s, i, e, q.begin);
      }
    }
    ShatteredHas(s, i, r);
  }

  /** The rest of the free range holds the crowded page, unless it overshoots. */
  lemma RestReached(s: seq<Range>, i: nat, lo: Range, hi: Range, e: nat, p: Range, q: Range)
    requires i + 1 < |s| && Orderly(s) && Crowd(s[i..], e, lo, p, q) && hi.IsReserved()
    requires (lo == s[i] && hi == s[i + 1]) || (lo == s[i + 1] && hi == s[i])
    ensures Overshoots(s, i) || (hi.end <= lo.end && RoundUp(hi.end) <= e)
  {
    Ahead(s, i, p);
    Ahead(s, i, q);
    assert hi.begin < hi.end && p.begin < p.end by { InSuffix(s, i, p); }
    if i + 2 < |s| { NextIsClear(s, i); }
    Rounding(e, e);
    Rounding(hi.end, e);
    Rounding(hi.end, RoundUp(e));
  }

  lemma InSuffix(s: seq<Range>, i: nat, r: Range)
    requires i <= |s| && NoneEmpty(s) && r in s[i..]
    ensures r.begin < r.end
  {
  }

  lemma RestPiece(x: Range, y: Range, lo: Range, hi: Range, e: nat) returns (r: Range)
    requires Shatterable(x, y) && ((lo == x && hi == y) || (lo == y && hi == x))
    requires lo.IsFree() && hi.IsReserved() && lo.Contains(e) && hi.end <= lo.end && RoundUp(hi.end) <= e
    ensures r in Pieces(x, y) && r.IsFree() && r.Contains(e) && r.end == lo.end
  {
    PiecesCases(x, y);
    r := Range(RoundUp(hi.end), lo.end, FREE);
    KeepFree(Range(hi.end, lo.end, FREE));
    Rounding(lo.end, lo.end);
  }

  lemma FreeKept(s: seq<Range>, i: nat, e: nat, f: Range, p: Range, q: Range)
    requires i + 1 < |s| && Orderly(s) && Shatterable(s[i], s[i + 1]) && !Overshoots(s, i)
    requires Crowd(s[i..], e, f, p, q)
    ensures FreeAround(Shattered(s, i), e)
  {
    hide Overshoots, AtMostTwice;
    var x, y := s[i], s[i + 1];
    Ahead(s, i, f);
    var r := f;
    if f == x || f == y {
      if x.kind == y.kind {
        PiecesCases(x, y);
        r := Pieces(x, y)[0];
      } else {
        var hi := if f == x then y else x;
        RestReached(s, i, f, hi, e, p, q);
        r := RestPiece(x, y, f, hi, e);
      }
    }
    ShatteredHas(s, i, r);
  }

  /** A turn that splits a pair in order leaves a crowded list crowded. */
  lemma ShatterCrowded(s: seq<Range>, i: nat)
    requires i + 1 < |s| && Orderly(s) && ResolvedTo(s, i) && Crowded(s) && !Overshoots(s, i)
    requires Shatterable(s[i], s[i + 1])
    ensures Crowded(Shattered(s, i))
  {
    hide Pieces, Overshoots, Orderly, ResolvedTo, FreeAround, EndsAt, BeginsIn;
    var e, f, p, q := CrowdAhead(s, i);
    assert FreeAround(s, e) by { AheadInside(s, i, e, f, p, q); }
    FreeKept(s, i, e, f, p, q);
    EndsKept(s, i, e, p);
    BeginsKept(s, i, e, q);
  }

  lemma AheadInside(s: seq<Range>, i: nat, e: nat, f: Range, p: Range, q: Range)
    requires i <= |s| && Crowd(s[i..], e, f, p, q)
    ensures FreeAround(s, e)
  {
    assert f in s;
  }

  /** So does one that merges a pair: neither of two touching reserved ranges can be part of the crowd. */
  lemma MergeCrowded(s: seq<Range>, i: nat)
    requires i + 1 < |s| && Orderly(s) && ResolvedTo(s, i) && Crowded(s) && TriviallyMergeable(s[i], s[i + 1])
    ensures Crowded(MergedAt(s, i))
  {
    hide AtMostTwice, ResolvedTo, Crowded;
    var e, f, p, q := CrowdAhead(s, i);
    var x, y, t := s[i], s[i + 1], MergedAt(s, i);
    Ahead(s, i, f);
    Ahead(s, i, p);
    Ahead(s, i, q);
    Rounding(e, e);
    assert x.begin < x.end && y.begin < y.end;
    var z := Merged(x, y);
    assert z in t && forall r :: r in s[i + 2..] ==> r in t;
    assert f in s[i + 2..] ==> y.begin <= f.begin by { if f in s[i + 2..] { LaterBegins(s, i, f); } }
    var f', p', q' := if f == x || f == y then z else f, if p == y then z else p, if q == x then z else q;
    CrowdCrowds(t, e, f', p', q');
  }

  lemma LaterBegins(s: seq<Range>, i: nat, r: Range)
    requires i + 1 < |s| && Ascending(s) && r in s[i + 2..]
    ensures s[i + 1].begin <= r.begin
  {
    var k :| 0 <= k < |s[i + 2..]| && s[i + 2..][k] == r;
    AscendingApart(s, i + 1, i + 2 + k);
  }

  /** A list with every pair resolved is not crowded. */
  lemma ResolvedUncrowded(s: seq<Range>)
    requires Orderly(s) && s != [] && ResolvedTo(s, |s|)
    ensures !Crowded(s)
  {
    if Crowded(s) {
      ResolvedLess(s, |s|, |s| - 1);
      var e, f, p, q := CrowdAhead(s, |s| - 1);
    }
  }

  // ---------- whole runs ----------

  /** The list is crowded and in order so far, or out of order for good. */
  ghost predicate Doomed(s: seq<Range>, i: nat) {
    (Orderly(s) && ResolvedTo(s, i) && Crowded(s)) || Stuck(s, i)
  }

  lemma CrowdedTurn(s: seq<Range>, i: nat)
    requires Orderly(s) && ResolvedTo(s, i) && Crowded(s)
    ensures match TurnAt(s, i)
      case Stopped => true
      case Done(t) => !Normal(t)
      case Looking(t, j) => Doomed(t, j)
  {
    hide Pieces, Crowded, Overshoots, Stuck;
    if i + 1 >= |s| {
      CrowdedNotEmpty(s);
      ResolvedUncrowded(s);
    } else if TriviallyMergeable(s[i], s[i + 1]) {
      MergeOrderly(s, i);
      MergeResolved(s, i);
      MergeCrowded(s, i);
    } else if !s[i].Overlaps(s[i + 1]) {
      ResolvedNext(s, i);
    } else {
      assert Legal(s[i]) && Legal(s[i + 1]) && s[i].begin <= s[i + 1].begin;
      if Overshoots(s, i) {
        OvershootSticks(s, i);
      } else {
        SpliceOrder(s, i);
        ShatterResolved(s, i);
        ShatterCrowded(s, i);
      }
    }
  }

  lemma CrowdedNotEmpty(s: seq<Range>)
    requires Crowded(s)
    ensures s != []
  {
  }

  lemma {:induction false} DoomedRun(s: seq<Range>, i: nat, n: nat)
    requires Doomed(s, i)
    ensures match AfterTurns(s, i, n)
      case Stopped => true
      case Done(t) => !Normal(t)
      case Looking(t, j) => Doomed(t, j)
    decreases n
  {
    hide Stuck, Orderly, ResolvedTo, Crowded, Normal, TurnAt;
    if n > 0 {
      if Stuck(s, i) { StuckTurn(s, i); } else { CrowdedTurn(s, i); }
      match TurnAt(s, i)
      case Looking(t, j) => DoomedRun(t, j, n - 1);
      case other =>
    }
  }

  /** An orderly list comes out in order, without a failed assertion, exactly if it is not crowded. */
  lemma CorrectedIff(s: seq<Range>, hint: nat, n: nat)
    requires Orderly(s) && ResolvedTo(s, hint) && !AfterTurns(s, hint, n).Looking?
    ensures var end := AfterTurns(s, hint, n);
      && (end.Done? && Normal(end.list) <==> !Crowded(s))
      && (!Crowded(s) ==> Tidy(end.list) && SameMap(s, end.list))
  {
    hide Orderly, ResolvedTo, Crowded, Normal, AfterTurns, Stuck;
    if Crowded(s) {
      DoomedRun(s, hint, n);
    } else {
      DescribesItself(s);
      TidyRun(s, hint, s, n);
    }
  }

  lemma DescribesItself(s: seq<Range>)
    requires Tidy(s)
    ensures Describes(s, s)
  {
  }
}
