/** What correcting the physical memory map does to its list: splitting overlapping ranges and merging neighbours. */
module MapCorrection {
  import opened Common
  import opened PhysicalRanges

  /** Splits two overlapping ranges, the first starting no later than the second, into at most three. */
  function ShatterAgainst(x: Range, y: Range): (r: (Range, Range, Range))
    requires x.Contains(y.begin)
  {
    if x.kind == y.kind then
      (Range(x.begin, if x.end > y.end then x.end else y.end, x.kind), Nothing, Nothing)
    else
      var third := if y.end <= x.end then Range(y.end, x.end, x.kind) else Nothing;
      if x.kind > y.kind then
        if x.end <= y.end then (x, Range(x.end, y.end, y.kind), third)
        else (x, Nothing, Nothing)
      else
        (Range(x.begin, y.begin, x.kind), y, third)
  }

  predicate TriviallyMergeable(x: Range, y: Range) {
    x.end == y.begin && x.kind == y.kind
  }

  /** Free pieces shrink to whole pages. */
  function Trimmed(r: Range): Range {
    if r.IsFree() then
      var aligned := r.AlignedTo(PAGE_SIZE);
      var length := aligned.end - aligned.begin;
      if length < 0 then aligned else Range(aligned.begin, aligned.begin + (length - length % PAGE_SIZE), aligned.kind)
    else r
  }

  predicate IsValid(r: Range) {
    !r.Empty() && (r.Length() >= PAGE_SIZE || r.IsReserved())
  }

  function Keep(r: Range): seq<Range> {
    if IsValid(Trimmed(r)) then [Trimmed(r)] else []
  }

  /** The pieces of a shattered pair that go back into the list, in order. */
  function Pieces(x: Range, y: Range): seq<Range>
    requires x.Contains(y.begin)
  {
    var r := ShatterAgainst(x, y);
    Keep(r.0) + Keep(r.1) + Keep(r.2)
  }

  // ---------- what shattering does to two ranges ----------

  ghost predicate Shatterable(x: Range, y: Range) {
    Legal(x) && Legal(y) && x.Contains(y.begin) && y.begin < y.end
  }

  lemma KeepReserved(r: Range)
    requires r.IsReserved()
    ensures Keep(r) == if r.Empty() then [] else [r]
  {
  }

  /** Page boundaries are a page apart, and counting from one leaves remainders as they are. */
  lemma Boundaries(a: nat, b: nat)
    requires a % PAGE_SIZE == 0 && a <= b
    ensures (b - a) % PAGE_SIZE == b % PAGE_SIZE
    ensures b % PAGE_SIZE == 0 && a < b ==> PAGE_SIZE <= b - a
  {
  }

  lemma TrimmedFree(r: Range)
    requires r.IsFree() && RoundUp(r.begin) < r.end
    ensures Trimmed(r) == Range(RoundUp(r.begin), RoundDown(r.end), FREE) && RoundUp(r.begin) <= RoundDown(r.end)
  {
    Rounding(r.begin, r.end);
    Rounding(r.end, RoundUp(r.begin));
    Boundaries(RoundUp(r.begin), r.end);
  }

  lemma KeepFree(r: Range)
    requires r.IsFree() && r.begin <= r.end
    ensures Keep(r) ==
      if RoundUp(r.begin) < RoundDown(r.end) then [Range(RoundUp(r.begin), RoundDown(r.end), FREE)] else []
  {
    Rounding(r.begin, r.end);
    Rounding(r.end, r.begin);
    if RoundUp(r.begin) < r.end {
      TrimmedFree(r);
      Boundaries(RoundUp(r.begin), RoundDown(r.end));
      hide RoundUp, RoundDown, Trimmed;
    }
  }

  /** The four ways a pair falls apart. */
  lemma PiecesCases(x: Range, y: Range)
    requires Shatterable(x, y)
    ensures Pieces(x, y) ==
      if x.kind == y.kind then [Range(x.begin, if x.end > y.end then x.end else y.end, x.kind)]
      else if x.kind < y.kind then
        Keep(Range(x.begin, y.begin, x.kind)) + [y] + (if y.end <= x.end then Keep(Range(y.end, x.end, x.kind)) else [])
      else if x.end <= y.end then [x] + Keep(Range(x.end, y.end, y.kind))
      else [x]
  {
    var (p, q, r) := ShatterAgainst(x, y);
    KeepReserved(Nothing);
    if x.kind == y.kind {
      if x.IsFree() { KeepFree(p); } else { KeepReserved(p); }
    } else if x.kind > y.kind {
      KeepReserved(x);
      KeepReserved(Range(x.end, x.end, x.kind));
    } else {
      KeepReserved(y);
    }
  }

  lemma CountPair(x: Range, y: Range, a: nat)
    ensures Count([x, y], a) == (if x.Contains(a) then 1 else 0) + (if y.Contains(a) then 1 else 0)
    ensures TypeAt([x, y], a) == Max(if x.Contains(a) then x.kind else 0, if y.Contains(a) then y.kind else 0)
    ensures x.begin <= x.end && y.begin <= y.end ==> TotalLength([x, y]) == x.Length() + y.Length()
  {
    assert [x, y][1..] == [y];
    CountOne(y, a);
  }

  lemma CountOne(x: Range, a: nat)
    ensures Count([x], a) == if x.Contains(a) then 1 else 0
    ensures TypeAt([x], a) == if x.Contains(a) then x.kind else 0
    ensures x.begin <= x.end ==> TotalLength([x]) == x.Length()
  {
  }

  /** Whether trimming leaves `a` in the range. */
  predicate Spared(r: Range, a: nat) {
    r.Contains(a) && (r.IsFree() ==> RoundUp(r.begin) <= a < RoundDown(r.end))
  }

  lemma CountKept(r: Range, a: nat)
    requires r.begin <= r.end
    ensures Count(Keep(r), a) == if Spared(r, a) then 1 else 0
    ensures TypeAt(Keep(r), a) == if Spared(r, a) then r.kind else 0
    ensures TotalLength(Keep(r)) <= r.Length()
  {
    if r.IsFree() {
      KeepFree(r);
      Rounding(r.begin, r.end);
      Rounding(r.end, r.begin);
      CountOne(Range(RoundUp(r.begin), RoundDown(r.end), FREE), a);
    } else {
      KeepReserved(r);
      CountOne(r, a);
    }
  }

  function One(b: bool): nat { if b then 1 else 0 }

  /** How the three parts of a shattered pair share out its addresses. */
  lemma ShatterParts(x: Range, y: Range, a: nat)
    requires Shatterable(x, y)
    ensures var (p, q, r) := ShatterAgainst(x, y);
      && p.begin <= p.end && q.begin <= q.end && r.begin <= r.end
      && One(p.Contains(a)) + One(q.Contains(a)) + One(r.Contains(a)) == One(x.Contains(a) || y.Contains(a))
      && p.Length() + q.Length() + r.Length() < x.Length() + y.Length()
  {
    if x.kind == y.kind {
    } else if x.kind > y.kind {
      if x.end <= y.end {
      } else {
      }
    } else if y.end <= x.end {
    } else {
    }
  }

  /** The type at `a` among three parts of which at most one contains it. */
  ghost function PartType(p: Range, q: Range, r: Range, a: nat): nat {
    if p.Contains(a) then p.kind else if q.Contains(a) then q.kind else if r.Contains(a) then r.kind else 0
  }

  lemma ShatterTypes(x: Range, y: Range, a: nat)
    requires Shatterable(x, y)
    ensures var (p, q, r) := ShatterAgainst(x, y);
      PartType(p, q, r, a) == Max(if x.Contains(a) then x.kind else 0, if y.Contains(a) then y.kind else 0)
  {
  }

  /** A page of `a` that one of the ranges makes unusable. */
  ghost predicate Spoilt(x: Range, y: Range, a: nat) {
    exists b :: SamePage(a, b) && ((x.IsReserved() && x.Contains(b)) || (y.IsReserved() && y.Contains(b)))
  }

  /** What trimming cuts off a free part shares its page with the other, reserved range. */
  lemma CutOffIsSpoilt(x: Range, y: Range, a: nat)
    requires Shatterable(x, y)
    ensures var (p, q, r) := ShatterAgainst(x, y);
      (p.Contains(a) && !Spared(p, a)) || (q.Contains(a) && !Spared(q, a)) || (r.Contains(a) && !Spared(r, a)) ==>
        PartType(p, q, r, a) == FREE && Spoilt(x, y, a)
  {
    var (p, q, r) := ShatterAgainst(x, y);
    if x.kind == y.kind {
      Rounding(p.begin, a);
      Rounding(p.end, a);
    } else if x.kind < y.kind {
      if p.Contains(a) && !Spared(p, a) {
        Rounding(y.begin, a);
        assert SamePage(a, y.begin);
      }
      if r.Contains(a) && !Spared(r, a) {
        JustBefore(y, a);
      }
    } else if q.Contains(a) && !Spared(q, a) {
      JustBefore(x, a);
    }
  }

  lemma JustBefore(y: Range, a: nat)
    requires y.begin < y.end <= a < RoundUp(y.end)
    ensures SamePage(a, y.end - 1) && y.Contains(y.end - 1)
  {
    Rounding(y.end, a);
    Rounding(y.end, y.end - 1);
  }

  ghost predicate PieceKept(x: Range, y: Range, a: nat)
    requires x.Contains(y.begin)
  {
    TypeAt(Pieces(x, y), a) == TypeAt([x, y], a) ||
    (TypeAt([x, y], a) == FREE && TypeAt(Pieces(x, y), a) == 0 && Spoilt(x, y, a))
  }

  /**
   The pieces cover what the pair covered, at most once and with the greater type, and are shorter in all.
   What they leave uncovered was usable memory in a page that is not usable as a whole.
   */
  lemma PiecesCover(x: Range, y: Range, a: nat)
    requires Shatterable(x, y)
    ensures Count(Pieces(x, y), a) <= if x.Contains(a) || y.Contains(a) then 1 else 0
    ensures PieceKept(x, y, a)
    ensures TotalLength(Pieces(x, y)) < TotalLength([x, y])
  {
    var (p, q, r) := ShatterAgainst(x, y);
    ShatterParts(x, y, a);
    ShatterTypes(x, y, a);
    CutOffIsSpoilt(x, y, a);
    CountKept(p, a);
    CountKept(q, a);
    CountKept(r, a);
    Concat3(Keep(p), Keep(q), Keep(r), a);
    CountPair(x, y, a);
    hide Keep, ShatterAgainst, Spoilt, RoundUp, RoundDown;
  }

  lemma PiecesLegal(x: Range, y: Range)
    requires Shatterable(x, y)
    ensures Pieces(x, y) != [] && AllLegal(Pieces(x, y)) && NoneEmpty(Pieces(x, y))
  {
    hide Keep, ShatterAgainst, AllLegal, NoneEmpty;
    PiecesSome(x, y);
    var (p, q, r) := ShatterAgainst(x, y);
    ShatterParts(x, y, 0);
    PartKinds(x, y);
    KeptLegal(p);
    KeptLegal(q);
    KeptLegal(r);
    LegalConcat(Keep(p), Keep(q));
    LegalConcat(Keep(p) + Keep(q), Keep(r));
  }

  lemma PartKinds(x: Range, y: Range)
    requires Shatterable(x, y)
    ensures var (p, q, r) := ShatterAgainst(x, y); p.kind > 0 && q.kind > 0 && r.kind > 0
  {
  }

  lemma LegalConcat(s: seq<Range>, t: seq<Range>)
    requires AllLegal(s) && NoneEmpty(s) && AllLegal(t) && NoneEmpty(t)
    ensures AllLegal(s + t) && NoneEmpty(s + t)
  {
  }

  lemma PiecesSome(x: Range, y: Range)
    requires Shatterable(x, y)
    ensures Pieces(x, y) != []
  {
    PiecesCases(x, y);
    hide Pieces, Keep;
  }

  lemma KeptLegal(r: Range)
    requires r.begin <= r.end && r.kind > 0
    ensures AllLegal(Keep(r)) && NoneEmpty(Keep(r))
  {
    if r.IsFree() {
      KeepFree(r);
      Rounding(r.begin, r.end);
      Rounding(r.end, r.begin);
    } else {
      KeepReserved(r);
    }
  }

  // ---------- crowded pages ----------

  /** A free range reaches beyond the page in which `e` lies. */
  ghost predicate FreeAround(s: seq<Range>, e: nat) {
    exists f :: f in s && f.IsFree() && f.Contains(e) && RoundUp(e) < f.end
  }

  ghost predicate EndsAt(s: seq<Range>, e: nat) {
    exists p :: p in s && p.IsReserved() && p.end == e
  }

  ghost predicate BeginsIn(s: seq<Range>, e: nat) {
    exists q :: q in s && q.IsReserved() && e <= q.begin < RoundUp(e)
  }

  /**
   Under a free range that goes on beyond the page, one reserved range ends in a page and another one begins
   behind it: when the first is cut out the free rest starts behind the second, and the list is out of order.
   */
  ghost predicate Crowded(s: seq<Range>) {
    exists e :: FreeAround(s, e) && EndsAt(s, e) && BeginsIn(s, e)
  }

  /** Whole pages are never crowded. */
  lemma WholePagesUncrowded(s: seq<Range>)
    requires forall k :: 0 <= k < |s| ==> WholePages(s[k])
    ensures !Crowded(s)
  {
    forall e | EndsAt(s, e) ensures !BeginsIn(s, e) { Rounding(e, e); }
  }

  /** What the correction needs to succeed. */
  ghost predicate Tidy(s: seq<Range>) {
    Orderly(s) && !Crowded(s)
  }

  /** Sorted, without empty ranges, and no address covered more than twice. */
  ghost predicate Orderly(s: seq<Range>) {
    AllLegal(s) && NoneEmpty(s) && Ascending(s) && AtMostTwice(s)
  }

  // ---------- a shattered pair in the list ----------

  function Shattered(s: seq<Range>, i: nat): seq<Range>
    requires i + 1 < |s| && s[i].Contains(s[i + 1].begin)
  {
    s[..i] + Pieces(s[i], s[i + 1]) + s[i + 2..]
  }

  /** A third range with an address of two neighbours makes three. */
  lemma TripleCount(s: seq<Range>, i: nat, r: Range, a: nat)
    requires i + 1 < |s| && s[i].Contains(a) && s[i + 1].Contains(a)
    requires r.Contains(a) && (r in s[..i] || r in s[i + 2..])
    ensures Count(s, a) >= 3
  {
    assert s == s[..i] + [s[i], s[i + 1]] + s[i + 2..];
    Concat3(s[..i], [s[i], s[i + 1]], s[i + 2..], a);
    CountPair(s[i], s[i + 1], a);
    if r in s[..i] {
      var k :| 0 <= k < i && s[..i][k] == r;
      Covered(s[..i], k, a);
    } else {
      var k :| 0 <= k < |s[i + 2..]| && s[i + 2..][k] == r;
      Covered(s[i + 2..], k, a);
    }
  }

  lemma NextIsClear(s: seq<Range>, i: nat)
    requires i + 2 < |s| && Orderly(s)
    ensures s[i + 2].begin >= s[i].end || s[i + 2].begin >= s[i + 1].end
  {
    var a := s[i + 2].begin;
    if a < s[i].end && a < s[i + 1].end {
      assert s[i + 2] == s[i + 2..][0];
      TripleCount(s, i, s[i + 2], a);
    }
  }

  lemma Elsewhere(s: seq<Range>, i: nat, r: Range)
    requires i + 1 < |s| && r in s
    ensures r in s[..i] || r in s[i + 2..] || r == s[i] || r == s[i + 1]
  {
    assert s == s[..i] + [s[i], s[i + 1]] + s[i + 2..];
  }

  /** The free range around a crowded page is not one of two reserved neighbours, and has every address of the page. */
  lemma FreeMakesThree(s: seq<Range>, i: nat, e: nat, a: nat)
    requires i + 1 < |s| && AllLegal(s) && FreeAround(s, e) && e % PAGE_SIZE != 0 && RoundDown(e) <= a < RoundUp(e)
    requires s[i].IsReserved() && s[i + 1].IsReserved() && s[i].Contains(a) && s[i + 1].Contains(a)
    ensures Count(s, a) >= 3
  {
    var f :| f in s && f.IsFree() && f.Contains(e) && RoundUp(e) < f.end;
    assert Legal(f);
    Rounding(e, f.begin);
    Elsewhere(s, i, f);
    TripleCount(s, i, f, a);
  }

  lemma FreeStays(s: seq<Range>, i: nat, e: nat)
    requires i + 1 < |s| && Shatterable(s[i], s[i + 1]) && FreeAround(Shattered(s, i), e)
    ensures FreeAround(s, e)
  {
    var x, y := s[i], s[i + 1];
    var f :| f in Shattered(s, i) && f.IsFree() && f.Contains(e) && RoundUp(e) < f.end;
    if f in Pieces(x, y) {
      FreePiece(x, y, f, e);
    } else {
      assert f in s[..i] || f in s[i + 2..];
      assert f in s;
    }
  }

  /** A free piece lies in a free range of the pair that reaches as far beyond the page. */
  lemma FreePiece(x: Range, y: Range, f: Range, e: nat)
    requires Shatterable(x, y) && f in Pieces(x, y) && f.IsFree() && f.Contains(e) && RoundUp(e) < f.end
    ensures (x.IsFree() && x.Contains(e) && RoundUp(e) < x.end) || (y.IsFree() && y.Contains(e) && RoundUp(e) < y.end)
  {
    PiecesCases(x, y);
    if x.kind == y.kind {
      Rounding(e, x.end);
      Rounding(e, y.begin);
    } else if x.kind < y.kind {
      if f in Keep(Range(x.begin, y.begin, x.kind)) {
        KeptInside(Range(x.begin, y.begin, x.kind), f);
      } else if y.end <= x.end {
        KeptInside(Range(y.end, x.end, x.kind), f);
      }
    } else if x.end <= y.end {
      KeptInside(Range(x.end, y.end, y.kind), f);
    }
  }

  lemma KeptInside(r: Range, f: Range)
    requires r.begin <= r.end
    ensures f in Keep(r) ==> r.begin <= f.begin && f.end <= r.end && f.kind == r.kind && (r.IsReserved() ==> f == r)
  {
    if r.IsFree() {
      KeepFree(r);
      Rounding(r.begin, r.end);
      Rounding(r.end, r.begin);
    } else {
      KeepReserved(r);
    }
  }

  lemma EndsStay(s: seq<Range>, i: nat, e: nat)
    requires i + 1 < |s| && AllLegal(s) && Shatterable(s[i], s[i + 1]) && AtMostTwice(s)
    requires FreeAround(s, e) && e % PAGE_SIZE != 0 && EndsAt(Shattered(s, i), e)
    ensures EndsAt(s, e)
  {
    var x, y := s[i], s[i + 1];
    var p :| p in Shattered(s, i) && p.IsReserved() && p.end == e;
    if p in Pieces(x, y) {
      ReservedPiece(x, y, p);
      if p.end == y.begin && x.IsReserved() && y.IsReserved() {
        Rounding(e, e);
        FreeMakesThree(s, i, e, e);
      }
      assert x in s && y in s;
    } else {
      assert p in s[..i] || p in s[i + 2..];
      assert p in s;
    }
  }

  lemma BeginsStay(s: seq<Range>, i: nat, e: nat)
    requires i + 1 < |s| && AllLegal(s) && Shatterable(s[i], s[i + 1]) && AtMostTwice(s)
    requires FreeAround(s, e) && e % PAGE_SIZE != 0 && BeginsIn(Shattered(s, i), e)
    ensures BeginsIn(s, e)
  {
    var x, y := s[i], s[i + 1];
    var q :| q in Shattered(s, i) && q.IsReserved() && e <= q.begin < RoundUp(e);
    if q in Pieces(x, y) {
      ReservedPiece(x, y, q);
      if (q.begin == x.end || q.begin == y.end) && x.Contains(q.begin - 1) && y.Contains(q.begin - 1)
        && x.IsReserved() && y.IsReserved() {
        Rounding(e, e);
        FreeMakesThree(s, i, e, q.begin - 1);
      }
      assert x in s && y in s;
    } else {
      assert q in s[..i] || q in s[i + 2..];
      assert q in s;
    }
  }

  /** A reserved piece begins and ends where a reserved range of the pair does, unless both are reserved. */
  lemma ReservedPiece(x: Range, y: Range, p: Range)
    requires Shatterable(x, y) && p in Pieces(x, y) && p.IsReserved()
    ensures (x.IsReserved() && p.end == x.end) || (y.IsReserved() && p.end == y.end)
         || (x.IsReserved() && y.IsReserved() && p.end == y.begin)
    ensures (x.IsReserved() && p.begin == x.begin) || (y.IsReserved() && p.begin == y.begin)
         || (x.IsReserved() && y.IsReserved() && (p.begin == x.end || p.begin == y.end)
             && x.Contains(p.begin - 1) && y.Contains(p.begin - 1))
  {
    PiecesCases(x, y);
    if x.kind < y.kind {
      KeptInside(Range(x.begin, y.begin, x.kind), p);
      if y.end <= x.end { KeptInside(Range(y.end, x.end, x.kind), p); }
    } else if x.kind > y.kind && x.end <= y.end {
      KeptInside(Range(x.end, y.end, y.kind), p);
    }
  }

  lemma CrowdedBefore(s: seq<Range>, i: nat)
    requires i + 1 < |s| && AllLegal(s) && AtMostTwice(s) && Shatterable(s[i], s[i + 1]) && Crowded(Shattered(s, i))
    ensures Crowded(s)
  {
    var t := Shattered(s, i);
    var e :| FreeAround(t, e) && EndsAt(t, e) && BeginsIn(t, e);
    Rounding(e, e);
    FreeStays(s, i, e);
    EndsStay(s, i, e);
    BeginsStay(s, i, e);
  }

  /** What is left of the free `lo` behind the reserved `hi` begins above the next range. */
  ghost predicate RestAbove(lo: Range, hi: Range, next: Range) {
    && lo.IsFree() && hi.IsReserved() && hi.end <= lo.end
    && RoundUp(hi.end) < lo.end && next.begin < RoundUp(hi.end)
  }

  /** Splitting the pair at `i` puts the free rest out of order. */
  ghost predicate Overshoots(s: seq<Range>, i: nat) {
    i + 2 < |s| && (RestAbove(s[i], s[i + 1], s[i + 2]) || RestAbove(s[i + 1], s[i], s[i + 2]))
  }

  /** That takes a crowded page. */
  lemma OvershootIsCrowded(s: seq<Range>, i: nat)
    requires Orderly(s) && Overshoots(s, i) && s[i].Contains(s[i + 1].begin)
    ensures Crowded(s)
  {
    var x, y, z := s[i], s[i + 1], s[i + 2];
    var (lo, hi) := if RestAbove(x, y, z) then (x, y) else (y, x);
    NextIsClear(s, i);
    Rounding(hi.end, z.begin);
    assert Legal(lo) && Legal(hi) && Legal(z);
    assert hi in s && lo in s && z in s;
    assert FreeAround(s, hi.end) && EndsAt(s, hi.end) && BeginsIn(s, hi.end);
  }

  /** The pieces are in order and start no earlier than the pair. */
  lemma PiecesAscend(x: Range, y: Range)
    requires Shatterable(x, y)
    ensures var p := Pieces(x, y); p != [] && Ascending(p) && x.begin <= p[0].begin
  {
    PiecesCases(x, y);
    if x.kind < y.kind {
      KeptBegins(Range(x.begin, y.begin, x.kind));
      if y.end <= x.end { KeptBegins(Range(y.end, x.end, x.kind)); }
    } else if x.kind > y.kind && x.end <= y.end {
      KeptBegins(Range(x.end, y.end, y.kind));
    }
  }

  lemma KeptBegins(r: Range)
    requires r.begin <= r.end
    ensures |Keep(r)| <= 1
    ensures forall k :: 0 <= k < |Keep(r)| ==>
      Keep(r)[k].begin == (if r.IsFree() then RoundUp(r.begin) else r.begin) < r.end
  {
    if r.IsFree() {
      KeepFree(r);
      Rounding(r.begin, r.end);
      Rounding(r.end, r.begin);
    } else {
      KeepReserved(r);
    }
  }

  /** The last piece begins before the next range. */
  lemma LastPiece(s: seq<Range>, i: nat)
    requires i + 2 < |s| && Orderly(s) && !Overshoots(s, i) && Shatterable(s[i], s[i + 1])
    ensures var p := Pieces(s[i], s[i + 1]); p != [] && p[|p| - 1].begin <= s[i + 2].begin
  {
    var x, y, z := s[i], s[i + 1], s[i + 2];
    PiecesCases(x, y);
    NextIsClear(s, i);
    if x.kind < y.kind && y.end <= x.end {
      RestBelow(x, y, z);
    } else if x.kind > y.kind && x.end <= y.end {
      RestBelow(y, x, z);
    }
  }

  lemma RestBelow(lo: Range, hi: Range, next: Range)
    requires lo.kind < hi.kind && hi.end <= lo.end && hi.end <= next.begin && !RestAbove(lo, hi, next)
    requires Legal(lo)
    ensures var p := Keep(Range(hi.end, lo.end, lo.kind)); p != [] ==> |p| == 1 && p[0].begin <= next.begin
  {
    KeptBegins(Range(hi.end, lo.end, lo.kind));
  }

  lemma SpliceOrder(s: seq<Range>, i: nat)
    requires i + 1 < |s| && Orderly(s) && !Overshoots(s, i) && Shatterable(s[i], s[i + 1])
    ensures Orderly(Shattered(s, i))
  {
    hide Pieces, Overshoots;
    PiecesLegal(s[i], s[i + 1]);
    PiecesAscend(s[i], s[i + 1]);
    if i + 2 < |s| { LastPiece(s, i); }
    SpliceAscends(s, i);
    var t := Shattered(s, i);
    forall a: nat ensures Count(t, a) <= 2 { SpliceCover(s, i, a); }
  }

  lemma SpliceAscends(s: seq<Range>, i: nat)
    requires i + 1 < |s| && Ascending(s) && s[i].Contains(s[i + 1].begin)
    requires var p := Pieces(s[i], s[i + 1]);
      && p != [] && Ascending(p) && s[i].begin <= p[0].begin
      && (i + 2 < |s| ==> p[|p| - 1].begin <= s[i + 2].begin)
    ensures Ascending(Shattered(s, i))
  {
  }

  lemma SpliceLegal(s: seq<Range>, i: nat)
    requires i + 1 < |s| && AllLegal(s) && Shatterable(s[i], s[i + 1])
    ensures AllLegal(Shattered(s, i)) && i < |Shattered(s, i)| && TotalLength(Shattered(s, i)) < TotalLength(s)
  {
    PiecesLegal(s[i], s[i + 1]);
    SpliceCover(s, i, 0);
  }

  lemma SpliceCover(s: seq<Range>, i: nat, a: nat)
    requires i + 1 < |s| && Shatterable(s[i], s[i + 1])
    ensures var t := Shattered(s, i); TotalLength(t) < TotalLength(s) && Count(t, a) <= Count(s, a) && KeptAt(s, t, a)
  {
    var x, y := s[i], s[i + 1];
    assert s == s[..i] + [x, y] + s[i + 2..];
    PiecesCover(x, y, a);
    CountPair(x, y, a);
    Concat3(s[..i], [x, y], s[i + 2..], a);
    Concat3(s[..i], Pieces(x, y), s[i + 2..], a);
    if Spoilt(x, y, a) { SpoiltIsShared(s, i, a); }
    hide Pieces, Spoilt, Shared;
  }

  lemma SpoiltIsShared(s: seq<Range>, i: nat, a: nat)
    requires i + 1 < |s| && Spoilt(s[i], s[i + 1], a) && s[i].kind > 0 && s[i + 1].kind > 0
    ensures Shared(s, a)
  {
    var x, y := s[i], s[i + 1];
    var b :| SamePage(a, b) && ((x.IsReserved() && x.Contains(b)) || (y.IsReserved() && y.Contains(b)));
    if x.IsReserved() && x.Contains(b) { Covered(s, i, b); } else { Covered(s, i + 1, b); }
  }

  // ---------- merging neighbours ----------

  function Merged(x: Range, y: Range): Range {
    Range(x.begin, y.end, x.kind)
  }

  function MergedAt(s: seq<Range>, i: nat): seq<Range>
    requires i + 1 < |s|
  {
    s[..i] + [Merged(s[i], s[i + 1])] + s[i + 2..]
  }

  lemma MergeCover(s: seq<Range>, i: nat, a: nat)
    requires i + 1 < |s| && AllLegal(s) && TriviallyMergeable(s[i], s[i + 1])
    ensures var t := MergedAt(s, i);
      AllLegal(t) && Count(t, a) == Count(s, a) && TypeAt(t, a) == TypeAt(s, a) && TotalLength(t) == TotalLength(s)
  {
    var x, y := s[i], s[i + 1];
    assert s == s[..i] + [x, y] + s[i + 2..];
    assert Legal(x) && Legal(y);
    CountPair(x, y, a);
    CountOne(Merged(x, y), a);
    Concat3(s[..i], [x, y], s[i + 2..], a);
    Concat3(s[..i], [Merged(x, y)], s[i + 2..], a);
  }

  lemma MergeOrderly(s: seq<Range>, i: nat)
    requires i + 1 < |s| && Orderly(s) && TriviallyMergeable(s[i], s[i + 1])
    ensures Orderly(MergedAt(s, i)) && SameMap(s, MergedAt(s, i))
  {
    var t := MergedAt(s, i);
    forall a: nat ensures AllLegal(t) && Count(t, a) <= 2 && KeptAt(s, t, a) { MergeCover(s, i, a); }
    assert KeptAt(s, t, 0);
  }

  lemma CrowdedBeforeMerge(s: seq<Range>, i: nat)
    requires i + 1 < |s| && AllLegal(s) && Ascending(s) && TriviallyMergeable(s[i], s[i + 1]) && Crowded(MergedAt(s, i))
    ensures Crowded(s)
  {
    var t := MergedAt(s, i);
    var e :| FreeAround(t, e) && EndsAt(t, e) && BeginsIn(t, e);
    MergedEnds(s, i, e);
    MergedBegins(s, i, e);
    MergedFree(s, i, e);
  }

  lemma Unmerged(s: seq<Range>, i: nat, r: Range)
    requires i + 1 < |s| && r in MergedAt(s, i) && r != Merged(s[i], s[i + 1])
    ensures r in s && (r in s[..i] || r in s[i + 2..])
  {
  }

  lemma MergedEnds(s: seq<Range>, i: nat, e: nat)
    requires i + 1 < |s| && s[i].kind == s[i + 1].kind && EndsAt(MergedAt(s, i), e)
    ensures EndsAt(s, e)
  {
    var p :| p in MergedAt(s, i) && p.IsReserved() && p.end == e;
    if p == Merged(s[i], s[i + 1]) { assert s[i + 1] in s; } else { Unmerged(s, i, p); }
  }

  lemma MergedBegins(s: seq<Range>, i: nat, e: nat)
    requires i + 1 < |s| && s[i].kind == s[i + 1].kind && BeginsIn(MergedAt(s, i), e)
    ensures BeginsIn(s, e)
  {
    var q :| q in MergedAt(s, i) && q.IsReserved() && e <= q.begin < RoundUp(e);
    if q == Merged(s[i], s[i + 1]) { assert s[i] in s; } else { Unmerged(s, i, q); }
  }

  /** No range begins between the first of two neighbours and the second. */
  lemma NothingBetween(s: seq<Range>, i: nat, q: Range)
    requires i + 1 < |s| && Ascending(s) && (q in s[..i] || q in s[i + 2..])
    ensures q.begin <= s[i].begin || s[i + 1].begin <= q.begin
  {
    if q in s[..i] {
      var k :| 0 <= k < i && s[..i][k] == q;
      AscendingApart(s, k, i);
    } else {
      var k :| 0 <= k < |s[i + 2..]| && s[i + 2..][k] == q;
      AscendingApart(s, i + 1, i + 2 + k);
    }
  }

  /** The merged range reaches no further beyond a page than its parts, as nothing begins between them. */
  lemma MergedFree(s: seq<Range>, i: nat, e: nat)
    requires i + 1 < |s| && AllLegal(s) && Ascending(s) && TriviallyMergeable(s[i], s[i + 1])
    requires FreeAround(MergedAt(s, i), e) && BeginsIn(MergedAt(s, i), e)
    ensures FreeAround(s, e)
  {
    var x, y, t := s[i], s[i + 1], MergedAt(s, i);
    var q :| q in t && q.IsReserved() && e <= q.begin < RoundUp(e);
    var f :| f in t && f.IsFree() && f.Contains(e) && RoundUp(e) < f.end;
    if f == Merged(x, y) {
      assert Legal(x) && Legal(y) && x in s && y in s;
      Unmerged(s, i, q);
      NothingBetween(s, i, q);
      Rounding(e, y.begin);
      Rounding(e, x.begin);
    } else {
      Unmerged(s, i, f);
    }
  }

  // ---------- the result ----------

  /** Neighbours that neither overlap nor could be merged. */
  ghost predicate Resolved(x: Range, y: Range) {
    !x.Overlaps(y) && !TriviallyMergeable(x, y)
  }

  /** The first `n` neighbouring pairs are resolved. */
  ghost predicate ResolvedTo(s: seq<Range>, n: nat) {
    forall k :: 0 <= k < n && k + 1 < |s| ==> Resolved(s[k], s[k + 1])
  }

  /** Pairwise disjoint, in order, and no two touching ranges of one type. */
  ghost predicate Normal(s: seq<Range>) {
    && (forall j, k :: 0 <= j < k < |s| ==> s[j].end <= s[k].begin)
    && (forall k :: 0 <= k < |s| - 1 ==> s[k].end == s[k + 1].begin ==> s[k].kind != s[k + 1].kind)
  }

  lemma ResolvedIsNormal(s: seq<Range>)
    requires NoneEmpty(s) && Ascending(s) && ResolvedTo(s, |s|)
    ensures Normal(s)
  {
    forall k | 0 <= k < |s| - 1
      ensures s[k].end <= s[k + 1].begin && (s[k].end == s[k + 1].begin ==> s[k].kind != s[k + 1].kind) {
      assert Resolved(s[k], s[k + 1]);
    }
    forall j, k | 0 <= j < k < |s| ensures s[j].end <= s[k].begin { EndsBefore(s, j, k); }
  }

  lemma {:induction false} EndsBefore(s: seq<Range>, j: nat, k: nat)
    requires j < k < |s| && NoneEmpty(s) && forall m :: 0 <= m < |s| - 1 ==> s[m].end <= s[m + 1].begin
    ensures s[j].end <= s[k].begin
  {
    if j + 1 < k {
      EndsBefore(s, j, k - 1);
      assert s[k - 1].begin < s[k - 1].end;
    }
  }

  /** The list still describes the memory that `was` described, and is fit for further correction. */
  ghost predicate Describes(s: seq<Range>, was: seq<Range>) {
    Tidy(s) && SameMap(was, s)
  }

  /** Pairs before the previous one stay resolved. */
  lemma ShatterResolved(s: seq<Range>, i: nat)
    requires i + 1 < |s| && ResolvedTo(s, i) && s[i].Contains(s[i + 1].begin)
    ensures ResolvedTo(Shattered(s, i), if i > 0 then i - 1 else 0)
  {
    var t := Shattered(s, i);
    assert forall k :: 0 <= k < i ==> t[k] == s[k];
  }

  lemma MergeResolved(s: seq<Range>, i: nat)
    requires i + 1 < |s| && NoneEmpty(s) && Ascending(s) && TriviallyMergeable(s[i], s[i + 1]) && ResolvedTo(s, i)
    ensures ResolvedTo(MergedAt(s, i), i)
  {
    var t := MergedAt(s, i);
    forall k | 0 <= k < i ensures Resolved(t[k], t[k + 1]) {
      assert Resolved(s[k], s[k + 1]);
      assert t[k] == s[k] && (k + 1 < i ==> t[k + 1] == s[k + 1]);
      assert s[k].begin < s[k].end && s[k + 1].begin < s[k + 1].end;
    }
  }

  /** A shattered pair leaves a tidy list tidy and describing the same memory. */
  lemma ShatterStep(s: seq<Range>, i: nat, was: seq<Range>)
    requires i + 1 < |s| && Describes(s, was) && s[i].Overlaps(s[i + 1]) && ResolvedTo(s, i)
    ensures Shatterable(s[i], s[i + 1])
    ensures var t := Shattered(s, i); Describes(t, was) && ResolvedTo(t, if i > 0 then i - 1 else 0)
  {
    assert Legal(s[i]) && Legal(s[i + 1]) && s[i].begin <= s[i + 1].begin;
    var t := Shattered(s, i);
    if Overshoots(s, i) { OvershootIsCrowded(s, i); }
    SpliceOrder(s, i);
    if Crowded(t) { CrowdedBefore(s, i); }
    forall a: nat ensures KeptAt(s, t, a) { SpliceCover(s, i, a); }
    SameMapTrans(was, s, t);
    ShatterResolved(s, i);
    hide Crowded, KeptAt, Pieces;
  }

  lemma MergeStep(s: seq<Range>, i: nat, was: seq<Range>)
    requires i + 1 < |s| && Describes(s, was) && TriviallyMergeable(s[i], s[i + 1]) && ResolvedTo(s, i)
    ensures Describes(MergedAt(s, i), was) && ResolvedTo(MergedAt(s, i), i)
  {
    MergeOrderly(s, i);
    var t := MergedAt(s, i);
    if Crowded(t) { CrowdedBeforeMerge(s, i); }
    SameMapTrans(was, s, t);
    MergeResolved(s, i);
  }

  // ---------- the correction as a sequence of turns ----------

  /** After a turn: done, stopped by a failed assertion, or about to look at the pair at `at`. */
  datatype Progress = Done(list: seq<Range>) | Stopped | Looking(list: seq<Range>, at: nat)

  /** What the correction does with the pair at `i`. */
  function TurnAt(s: seq<Range>, i: nat): Progress {
    if i + 1 >= |s| then Done(s)
    else if TriviallyMergeable(s[i], s[i + 1]) then Looking(MergedAt(s, i), i)
    else if !s[i].Overlaps(s[i + 1]) then Looking(s, i + 1)
    else if !s[i].Contains(s[i + 1].begin) || Pieces(s[i], s[i + 1]) == [] then Stopped
    else Looking(Shattered(s, i), if i > 0 then i - 1 else 0)
  }

  function AfterTurns(s: seq<Range>, i: nat, n: nat): Progress
    decreases n
  {
    if n == 0 then Looking(s, i)
    else match TurnAt(s, i)
      case Looking(t, j) => AfterTurns(t, j, n - 1)
      case other => other
  }

  lemma {:induction false} OneMoreTurn(s: seq<Range>, i: nat, n: nat, t: seq<Range>, j: nat)
    requires AfterTurns(s, i, n) == Looking(t, j)
    ensures AfterTurns(s, i, n + 1) == TurnAt(t, j)
    decreases n
  {
    if n > 0 { OneMoreTurn(TurnAt(s, i).list, TurnAt(s, i).at, n - 1, t, j); }
  }

  lemma PairLegal(s: seq<Range>, i: nat)
    requires i + 1 < |s| && AllLegal(s)
    ensures s[i].Overlaps(s[i + 1]) && s[i].Contains(s[i + 1].begin) ==> Shatterable(s[i], s[i + 1])
  {
    assert Legal(s[i]) && Legal(s[i + 1]);
  }

  lemma NoTurns(s: seq<Range>, i: nat)
    ensures AfterTurns(s, i, 0) == Looking(s, i)
  {
  }

  lemma ResolvedNext(s: seq<Range>, i: nat)
    requires ResolvedTo(s, i) && (i + 1 < |s| ==> Resolved(s[i], s[i + 1]))
    ensures ResolvedTo(s, i + 1)
  {
  }

  /** Where the loops are: at a pair, or past the end. */
  ghost function Position(s: seq<Range>, i: nat): Progress {
    if i < |s| then Looking(s, i) else Done(s)
  }
}
