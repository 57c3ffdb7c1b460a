/** Address ranges and the sorted list of allocated ones. */
module VirtualRanges {
  import opened Arithmetic
  import opened Common

  const ADDRESS_LIMIT := 0x1_0000_0000_0000_0000

  /** Addresses from `begin` up to but not including `end`. */
  datatype Range = Range(begin: nat, end: nat) {
    predicate Contains(a: int) { begin <= a < end }
    predicate ContainsRange(r: Range) { Contains(r.begin) && r.end <= end }
    function Length(): int { end - begin }
  }

  const EMPTY := Range(0, 0)

  /** The range from its first aligned address on, or the empty range; the addition wraps at 64 bits. */
  function AlignedTo(r: Range, alignment: nat): Range
    requires 0 < alignment
  {
    var remainder := r.begin % alignment;
    var aligned := if remainder != 0 then (r.begin + (alignment - remainder)) % ADDRESS_LIMIT else r.begin;
    if aligned < r.begin || aligned >= r.end then EMPTY else Range(aligned, r.end)
  }

  /** The aligned range starts at the least aligned address; it is empty only if that one is past the end. */
  lemma AlignedToIsLeast(r: Range, alignment: nat)
    requires 0 < alignment < ADDRESS_LIMIT && r.begin <= r.end < ADDRESS_LIMIT
    ensures var x := AlignedTo(r, alignment);
      && (x != EMPTY ==> x.end == r.end && r.begin <= x.begin < x.end && x.begin % alignment == 0)
      && (forall a: nat :: r.begin <= a < r.end && a % alignment == 0 ==> x != EMPTY && x.begin <= a)
  {
    var remainder := r.begin % alignment;
    var up := if remainder != 0 then r.begin + (alignment - remainder) else r.begin;
    RoundUpMultiple(r.begin, alignment);
    forall a: nat | r.begin <= a < r.end && a % alignment == 0 ensures up <= a {
      NextMultiple(r.begin, a, alignment);
    }
  }

  lemma NextMultiple(b: nat, a: nat, c: nat)
    requires c > 0 && b <= a && a % c == 0
    ensures b + (if b % c != 0 then c - b % c else 0) <= a
  {
    var p, q, r := b / c, a / c, b % c;
    assert b == p * c + r && a == q * c;
    assert (q - p) * c == q * c - p * c;
    MulGap(q - p, c);
    DivMonotone(b, a, c);
  }

  /** Length rounded up to whole pages in 64 bits. */
  function RoundUp(length: nat): nat {
    var n := (length + (PAGE_SIZE - 1)) % ADDRESS_LIMIT;
    n - n % PAGE_SIZE
  }

  /** The least whole number of pages that holds `length` bytes. */
  ghost predicate IsRoundedUp(length: nat, n: int) {
    n % PAGE_SIZE == 0 && length <= n < length + PAGE_SIZE
  }

  /** The rounding is exact unless it wraps, and then the outcome is below the length. */
  lemma RoundUpIs(length: nat)
    requires length < ADDRESS_LIMIT
    ensures if length + (PAGE_SIZE - 1) < ADDRESS_LIMIT then IsRoundedUp(length, RoundUp(length))
      else RoundUp(length) < length
  {
  }

  lemma OneRoundedUp(length: nat, n: nat, m: nat)
    requires IsRoundedUp(length, n) && IsRoundedUp(length, m)
    ensures n == m
  {
  }

  // ---------- the list of allocated ranges ----------

  /** Sorted, non-empty, apart with a gap between neighbours, and inside the base. */
  ghost predicate WellFormed(base: Range, s: seq<Range>) {
    AllInside(base, s) && SortedApart(s)
  }

  ghost predicate AllInside(base: Range, s: seq<Range>) {
    forall i :: 0 <= i < |s| ==> base.begin <= s[i].begin < s[i].end <= base.end
  }

  ghost predicate SortedApart(s: seq<Range>) {
    forall i, j :: 0 <= i < j < |s| ==> s[i].end < s[j].begin
  }

  ghost predicate Covered(s: seq<Range>, a: int) {
    exists i :: 0 <= i < |s| && s[i].Contains(a)
  }

  ghost predicate Free(s: seq<Range>, r: Range) {
    forall a :: r.Contains(a) ==> !Covered(s, a)
  }

  /** Everything before position `i` ends below `r` and everything from `i` on begins above it. */
  ghost predicate FitsAt(s: seq<Range>, i: nat, r: Range) {
    i <= |s| && (forall j :: 0 <= j < i ==> s[j].end <= r.begin) && (forall j :: i <= j < |s| ==> r.end <= s[j].begin)
  }

  lemma ConcatOrder(base: Range, a: seq<Range>, b: seq<Range>)
    requires WellFormed(base, a) && WellFormed(base, b) && (a != [] && b != [] ==> a[|a| - 1].end < b[0].begin)
    ensures WellFormed(base, a + b)
  {
    InsideConcat(base, a, b);
    SortedConcat(base, a, b);
  }

  lemma InsideConcat(base: Range, a: seq<Range>, b: seq<Range>)
    requires AllInside(base, a) && AllInside(base, b)
    ensures AllInside(base, a + b)
  {
  }

  lemma SortedConcat(base: Range, a: seq<Range>, b: seq<Range>)
    requires WellFormed(base, a) && WellFormed(base, b) && (a != [] && b != [] ==> a[|a| - 1].end < b[0].begin)
    ensures SortedApart(a + b)
  {
    var t := a + b;
    forall i, j | 0 <= i < j < |t| ensures t[i].end < t[j].begin {
      if i < |a| <= j {
        Extremes(base, a, i);
        Extremes(base, b, j - |a|);
      }
    }
  }

  lemma Extremes(base: Range, s: seq<Range>, i: nat)
    requires WellFormed(base, s) && i < |s|
    ensures s[0].begin <= s[i].begin && s[i].end <= s[|s| - 1].end
  {
    assert i > 0 ==> s[0].end < s[i].begin;
    assert i < |s| - 1 ==> s[i].end < s[|s| - 1].begin;
  }

  lemma CoveredConcat(a: seq<Range>, b: seq<Range>, x: int)
    ensures Covered(a + b, x) <==> Covered(a, x) || Covered(b, x)
  {
    if Covered(a, x) {
      var j :| 0 <= j < |a| && a[j].Contains(x);
      assert (a + b)[j].Contains(x);
    }
    if Covered(b, x) {
      var j :| 0 <= j < |b| && b[j].Contains(x);
      assert (a + b)[|a| + j].Contains(x);
    }
  }

  /** `s` with the ranges from `lo` to `hi` replaced by `mid`. */
  function Spliced(s: seq<Range>, lo: nat, hi: nat, mid: seq<Range>): seq<Range>
    requires lo <= hi <= |s|
  {
    s[..lo] + mid + s[hi..]
  }

  lemma SpliceOrder(base: Range, s: seq<Range>, lo: nat, hi: nat, mid: seq<Range>)
    requires WellFormed(base, s) && lo <= hi <= |s| && WellFormed(base, mid)
    requires lo > 0 && |mid| > 0 ==> s[lo - 1].end < mid[0].begin
    requires hi < |s| && |mid| > 0 ==> mid[|mid| - 1].end < s[hi].begin
    ensures WellFormed(base, Spliced(s, lo, hi, mid))
  {
    ConcatOrder(base, s[..lo], mid);
    ConcatOrder(base, s[..lo] + mid, s[hi..]);
  }

  lemma SpliceCovers(s: seq<Range>, lo: nat, hi: nat, mid: seq<Range>, a: int)
    requires lo <= hi <= |s|
    ensures Covered(Spliced(s, lo, hi, mid), a) <==> Covered(s[..lo], a) || Covered(mid, a) || Covered(s[hi..], a)
  {
    CoveredConcat(s[..lo], mid, a);
    CoveredConcat(s[..lo] + mid, s[hi..], a);
  }

  lemma CoveredSplit(s: seq<Range>, lo: nat, hi: nat, a: int)
    requires lo <= hi <= |s|
    ensures Covered(s, a) <==> Covered(s[..lo], a) || Covered(s[lo..hi], a) || Covered(s[hi..], a)
  {
    SpliceCovers(s, lo, hi, s[lo..hi], a);
    assert Spliced(s, lo, hi, s[lo..hi]) == s;
  }

  predicate JoinsBefore(s: seq<Range>, i: nat, r: Range)
    requires i <= |s|
  {
    i > 0 && s[i - 1].end == r.begin
  }

  predicate JoinsAfter(s: seq<Range>, i: nat, r: Range)
    requires i <= |s|
  {
    i < |s| && s[i].begin == r.end
  }

  /** The new range, joined with the ranges it touches. */
  function Joined(s: seq<Range>, i: nat, r: Range): Range
    requires i <= |s|
  {
    Range(if JoinsBefore(s, i, r) then s[i - 1].begin else r.begin, if JoinsAfter(s, i, r) then s[i].end else r.end)
  }

  function MergedInsert(s: seq<Range>, i: nat, r: Range): seq<Range>
    requires i <= |s|
  {
    Spliced(s, if JoinsBefore(s, i, r) then i - 1 else i, if JoinsAfter(s, i, r) then i + 1 else i, [Joined(s, i, r)])
  }

  /** Inserting with merging keeps the order and leaves no two ranges touching. */
  lemma MergeKeeps(base: Range, s: seq<Range>, i: nat, r: Range)
    requires WellFormed(base, s) && FitsAt(s, i, r) && base.begin <= r.begin < r.end <= base.end
    ensures WellFormed(base, MergedInsert(s, i, r))
  {
    SpliceOrder(base, s, if JoinsBefore(s, i, r) then i - 1 else i, if JoinsAfter(s, i, r) then i + 1 else i,
      [Joined(s, i, r)]);
  }

  /** It adds exactly the new addresses. */
  lemma MergeCovers(base: Range, s: seq<Range>, i: nat, r: Range, a: int)
    requires WellFormed(base, s) && i <= |s| && r.begin < r.end
    ensures Covered(MergedInsert(s, i, r), a) <==> Covered(s, a) || r.Contains(a)
  {
    var lo, hi := if JoinsBefore(s, i, r) then i - 1 else i, if JoinsAfter(s, i, r) then i + 1 else i;
    var x := Joined(s, i, r);
    SpliceCovers(s, lo, hi, [x], a);
    CoveredSplit(s, lo, hi, a);
    JoinedCovers(base, s, i, r, a);
    assert Covered([x], a) <==> x.Contains(a) by { assert [x][0] == x; }
  }

  lemma JoinedCovers(base: Range, s: seq<Range>, i: nat, r: Range, a: int)
    requires WellFormed(base, s) && i <= |s| && r.begin < r.end
    ensures var lo, hi := if JoinsBefore(s, i, r) then i - 1 else i, if JoinsAfter(s, i, r) then i + 1 else i;
      Joined(s, i, r).Contains(a) <==> Covered(s[lo..hi], a) || r.Contains(a)
  {
    var lo, hi := if JoinsBefore(s, i, r) then i - 1 else i, if JoinsAfter(s, i, r) then i + 1 else i;
    var m := s[lo..hi];
    assert forall j :: 0 <= j < |m| ==> m[j] == s[lo + j];
    if JoinsBefore(s, i, r) && s[i - 1].Contains(a) { assert m[0].Contains(a); }
    if JoinsAfter(s, i, r) && s[i].Contains(a) { assert m[i - lo].Contains(a); }
  }

  // ---------- free space ----------

  /** An allocation of `length` at `a` lies in the base and touches nothing allocated. */
  ghost predicate RoomAt(base: Range, s: seq<Range>, a: nat, length: nat) {
    base.begin <= a && a + length <= base.end && Free(s, Range(a, a + length))
  }

  ghost predicate AlignedRoomAt(base: Range, s: seq<Range>, a: nat, length: nat, alignment: nat)
    requires alignment > 0
  {
    RoomAt(base, s, a, length) && a % alignment == 0
  }

  lemma FitsMeansFree(s: seq<Range>, i: nat, r: Range)
    requires FitsAt(s, i, r)
    ensures Free(s, r)
  {
  }

  /** A free stretch lies wholly before or wholly behind each allocated range. */
  lemma FreeIsOutside(base: Range, s: seq<Range>, a: nat, length: nat, i: nat)
    requires WellFormed(base, s) && i < |s| && length > 0 && Free(s, Range(a, a + length))
    ensures a + length <= s[i].begin || s[i].end <= a
  {
    var x := if a < s[i].begin then s[i].begin else a;
    if a < s[i].end && s[i].begin < a + length {
      assert Range(a, a + length).Contains(x) && s[i].Contains(x);
    }
  }

  /** Where a free stretch belongs in the list. */
  lemma FreeFits(base: Range, s: seq<Range>, r: Range, i: nat)
    requires WellFormed(base, s) && r.begin < r.end && Free(s, r) && i <= |s|
    requires (i > 0 ==> s[i - 1].begin <= r.begin) && (i < |s| ==> r.begin <= s[i].begin)
    ensures FitsAt(s, i, r)
  {
    forall j | 0 <= j < i ensures s[j].end <= r.begin { FreeIsOutside(base, s, r.begin, r.end - r.begin, j); }
    forall j | i <= j < |s| ensures r.end <= s[j].begin { FreeIsOutside(base, s, r.begin, r.end - r.begin, j); }
  }
}
