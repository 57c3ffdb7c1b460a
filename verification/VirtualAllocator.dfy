/** The allocator of virtual address ranges. */
module VirtualAllocators {
  import opened Common
  import opened VirtualRanges

  datatype Outcome = Allocated(range: Range) | Panic

  class VirtualAllocator {
    const base: Range
    /** In order of their beginnings. */
    var ranges: seq<Range>

    constructor (begin: nat, end: nat)
      requires begin <= end < ADDRESS_LIMIT
      ensures Valid() && base == Range(begin, end) && ranges == []
    {
      base := Range(begin, end);
      ranges := [];
    }

    ghost predicate Valid()
      reads this
    {
      base.begin <= base.end < ADDRESS_LIMIT && WellFormed(base, ranges)
    }

    /** The first range that begins at `address` or later. */
    method LowerBound(address: nat) returns (i: nat)
      requires Valid()
      ensures i <= |ranges|
      ensures forall j :: 0 <= j < i ==> ranges[j].begin < address
      ensures forall j :: i <= j < |ranges| ==> address <= ranges[j].begin
    {
      i := 0;
      while i < |ranges| && ranges[i].begin < address
        invariant i <= |ranges| && forall j :: 0 <= j < i ==> ranges[j].begin < address
      {
        i := i + 1;
      }
    }

    /** Decides whether the address is allocated. */
    method IsAllocated(address: nat) returns (r: bool)
      requires Valid()
      ensures r <==> Covered(ranges, address)
    {
      if !base.Contains(address) {
        return false;
      }
      if ranges == [] {
        return false;
      }
      var i := LowerBound(address);
      if i == |ranges| || ranges[i].begin != address {
        if i == 0 {
          return false;
        }
        i := i - 1;
      }
      r := ranges[i].Contains(address);
    }

    /** Adds the range between its neighbours, joining those it touches. */
    method MergeAndEmplace(i: nat, r: Range)
      requires i <= |ranges|
      modifies this
      ensures ranges == MergedInsert(old(ranges), i, r)
    {
      var before, after := i > 0 && ranges[i - 1].end == r.begin, i < |ranges| && ranges[i].begin == r.end;
      if before && after {
        var merged := Range(ranges[i - 1].begin, ranges[i].end);
        ranges := ranges[..i - 1] + [merged] + ranges[i + 1..];
      } else if before {
        var merged := Range(ranges[i - 1].begin, r.end);
        ranges := ranges[..i - 1] + [merged] + ranges[i..];
      } else if after {
        var merged := Range(r.begin, ranges[i].end);
        ranges := ranges[..i] + [merged] + ranges[i + 1..];
      } else {
        ranges := ranges[..i] + [r] + ranges[i..];
      }
    }

    /** The addresses of `r` join the allocated ones, and nothing else changes. */
    twostate predicate Added(r: Range)
      reads this
    {
      forall a :: Covered(ranges, a) <==> Covered(old(ranges), a) || r.Contains(a)
    }

    /** Emplacing a free range keeps the list well formed and adds exactly its addresses. */
    method Emplace(i: nat, r: Range)
      requires Valid() && FitsAt(ranges, i, r) && base.begin <= r.begin < r.end <= base.end
      modifies this
      ensures Valid() && Added(r)
    {
      MergeKeeps(base, ranges, i, r);
      forall a ensures Covered(MergedInsert(ranges, i, r), a) <==> Covered(ranges, a) || r.Contains(a) {
        MergeCovers(base, ranges, i, r, a);
      }
      MergeAndEmplace(i, r);
    }

    /**
     Searches the gaps in order for an aligned place with room, from low addresses to high.
     `i` is the gap found, or the number of ranges if only the last gap is left to try.
     */
    method FindGap(length: nat, alignment: nat) returns (i: nat, gapBegin: nat, found: Range)
      requires Valid() && 0 < length && 0 < alignment < ADDRESS_LIMIT
      ensures i <= |ranges| && gapBegin == (if i == 0 then base.begin else ranges[i - 1].end)
      ensures forall a: nat :: AlignedRoomAt(base, ranges, a, length, alignment) ==> gapBegin <= a
      ensures found == EMPTY ==> i == |ranges|
      ensures found != EMPTY ==>
        && i < |ranges| && found == AlignedTo(Range(gapBegin, ranges[i].begin), alignment)
        && found.begin + length <= found.end
    {
      i, gapBegin, found := 0, base.begin, EMPTY;
      while i < |ranges|
        invariant i <= |ranges| && gapBegin == (if i == 0 then base.begin else ranges[i - 1].end)
        invariant forall a: nat :: AlignedRoomAt(base, ranges, a, length, alignment) ==> gapBegin <= a
        invariant found == EMPTY
      {
        var potential := AlignedTo(Range(gapBegin, ranges[i].begin), alignment);
        if potential != EMPTY && potential.Length() >= length {
          found := potential;
          return;
        }
        NoRoomInGap(base, ranges, i, gapBegin, length, alignment);
        gapBegin := ranges[i].end;
        i := i + 1;
      }
    }

    /** The lowest aligned address with room for `n` bytes is taken, or the outcome is that there is none. */
    twostate predicate Took(outcome: Outcome, n: nat, step: nat)
      requires step > 0
      reads this
    {
      match outcome
      case Panic => ranges == old(ranges) && forall a: nat :: !AlignedRoomAt(base, old(ranges), a, n, step)
      case Allocated(r) =>
        && r.end == r.begin + n && Added(r)
        && AlignedRoomAt(base, old(ranges), r.begin, n, step)
        && forall a: nat :: AlignedRoomAt(base, old(ranges), a, n, step) ==> r.begin <= a
    }

    method TakeRoom(n: nat, step: nat) returns (outcome: Outcome)
      requires Valid() && 0 < n && 0 < step < ADDRESS_LIMIT
      modifies this
      ensures Valid() && Took(outcome, n, step)
    {
      var i, gapBegin, found := FindGap(n, step);
      if found == EMPTY {
        found := AlignedTo(Range(gapBegin, base.end), step);
        AlignedToIsLeast(Range(gapBegin, base.end), step);
        if found == EMPTY || found.Length() < n {
          return Panic;
        }
      } else {
        AlignedToIsLeast(Range(gapBegin, ranges[i].begin), step);
      }
      var r := Range(found.begin, found.begin + n);
      FitsMeansFree(ranges, i, r);
      Emplace(i, r);
      return Allocated(r);
    }

    /**
     Returns the lowest aligned address with room for the length in whole pages, and fails exactly if there is none.
     A length that cannot be rounded up in 64 bits has no room anywhere.
     */
    method Allocate(length: nat, alignment: nat) returns (outcome: Outcome)
      requires Valid() && 0 < length < ADDRESS_LIMIT && alignment < ADDRESS_LIMIT
      requires alignment < PAGE_SIZE || alignment % PAGE_SIZE == 0
      modifies this
      ensures Valid() && (length + PAGE_SIZE - 1 >= ADDRESS_LIMIT ==> outcome.Panic?)
      ensures forall n: nat :: IsRoundedUp(length, n) ==>
        Took(outcome, n, if alignment < PAGE_SIZE then PAGE_SIZE else alignment)
      ensures outcome.Allocated? ==> IsRoundedUp(length, outcome.range.end - outcome.range.begin)
    {
      var step := if alignment < PAGE_SIZE then PAGE_SIZE else alignment;
      var n := RoundUp(length);
      RoundUpIs(length);
      forall m: nat | IsRoundedUp(length, m) ensures m == n || (n < length && m >= ADDRESS_LIMIT) {
        SizeTried(length, m);
      }
      if n < length {
        return Panic;
      }
      outcome := TakeRoom(n, step);
    }

    /**
     Allocates the pages of a given range. A clash is noticed unless the range begins at a free address
     and its first clash is with a range that ends before it does. The list is spoilt by a clash that goes unnoticed,
     or by pages that reach beyond a base that does not end with a page; by nothing else.
     */
    method AllocateRange(r: Range) returns (outcome: Outcome)
      requires Valid() && r.begin < r.end && base.Contains(r.begin) && base.Contains(r.end - 1)
      requires base.end <= ADDRESS_LIMIT - PAGE_SIZE
      modifies this
      ensures var x := Paged(r);
        && PageAligned(x.begin) && r.begin - PAGE_SIZE < x.begin <= r.begin
        && PageAligned(x.end) && r.end <= x.end < r.end + PAGE_SIZE
        && (outcome.Panic? ==> unchanged(this)) && (outcome.Allocated? ==> outcome.range == x)
        && (outcome.Panic? <==> !Free(old(ranges), x) && !Swallows(old(ranges), x))
        && (outcome.Allocated? ==> (Valid() <==> Free(old(ranges), x) && base.begin <= x.begin && x.end <= base.end))
        && (Free(old(ranges), x) ==> Added(x))
    {
      var x := Paged(r);
      PagedAround(r);
      var i := LowerBound(x.begin);
      ClashCases(base, ranges, x, i);
      if i < |ranges| && ranges[i].begin == x.begin {
        return Panic;
      }
      if i < |ranges| && ranges[i].Contains(x.end - 1) {
        return Panic;
      }
      if i > 0 && ranges[i - 1].Contains(x.begin) {
        return Panic;
      }
      if i == |ranges| || x.end <= ranges[i].begin {
        EmplacePages(i, x);
      } else {
        SwallowBreaks(base, ranges, i, x);
        MergeAndEmplace(i, x);
      }
      return Allocated(x);
    }

    /** Emplaces free pages, which need not lie inside the base. */
    method EmplacePages(i: nat, x: Range)
      requires Valid() && FitsAt(ranges, i, x) && x.begin < x.end
      modifies this
      ensures Valid() <==> base.begin <= x.begin && x.end <= base.end
      ensures Added(x)
    {
      if base.begin <= x.begin && x.end <= base.end {
        Emplace(i, x);
      } else {
        OutsideBreaks(base, ranges, i, x);
        forall a ensures Covered(MergedInsert(ranges, i, x), a) <==> Covered(ranges, a) || x.Contains(a) {
          MergeCovers(base, ranges, i, x, a);
        }
        MergeAndEmplace(i, x);
      }
    }

    /**
     Frees exactly the addresses of `r`, splitting the range it lies in; refuses if `r` is not allocated throughout.
     An empty range inside another splits that one in two that touch, and only then is the list spoilt.
     */
    method Deallocate(r: Range) returns (outcome: Outcome)
      requires Valid() && r.begin <= r.end && PageAligned(r.begin) && PageAligned(r.end)
      modifies this
      ensures outcome.Panic? ==> unchanged(this)
      ensures outcome.Allocated? ==> forall a :: Covered(ranges, a) <==> Covered(old(ranges), a) && !r.Contains(a)
      ensures r.begin < r.end ==> (outcome.Allocated? <==> forall a :: r.Contains(a) ==> Covered(old(ranges), a))
      ensures r.begin == r.end ==> (outcome.Allocated? <==> base.begin < r.begin && Covered(old(ranges), r.begin))
      ensures Valid() <==> outcome.Panic? || r.begin < r.end || !Inside(old(ranges), r.begin)
    {
      if !(base.Contains(r.begin) && base.Contains(r.end - 1)) {
        if r.begin < r.end { OutsideUncovered(base, ranges, r); }
        return Panic;
      }
      var i := LowerBound(r.begin);
      if i == |ranges| || ranges[i].begin != r.begin {
        if i == 0 {
          if r.begin < r.end { assert r.Contains(r.begin) && !Covered(ranges, r.begin); }
          return Panic;
        }
        i := i - 1;
      }
      if r.begin < r.end { CoveredThroughout(base, ranges, r, i); }
      OnlyInOne(base, ranges, r.begin, i);
      if !ranges[i].ContainsRange(r) {
        return Panic;
      }
      CutOut(i, r);
      return Allocated(r);
    }

    /** What is left of range `i` on either side of `r` stays. */
    method CutOut(i: nat, r: Range)
      requires Valid() && i < |ranges| && r.begin <= r.end && ranges[i].ContainsRange(r)
      modifies this
      ensures forall a :: Covered(ranges, a) <==> Covered(old(ranges), a) && !r.Contains(a)
      ensures Valid() <==> r.begin < r.end || r.begin == old(ranges)[i].begin
    {
      var pieces := LeftOver(ranges[i], r);
      CutKeepsIff(base, ranges, i, r);
      hide WellFormed, LeftOver;
      forall a ensures Covered(Spliced(ranges, i, i + 1, pieces), a) <==> Covered(ranges, a) && !r.Contains(a) {
        CutCovers(base, ranges, i, r, a);
      }
      ranges := ranges[..i] + pieces + ranges[i + 1..];
    }
  }

  /** The pages that hold the range. */
  function Paged(r: Range): Range
    requires r.begin <= r.end
  {
    var begin := r.begin - r.begin % PAGE_SIZE;
    var length := r.end - begin;
    Range(begin, begin + (length + (PAGE_SIZE - 1)) / PAGE_SIZE * PAGE_SIZE)
  }

  lemma PagedAround(r: Range)
    requires r.begin < r.end
    ensures var x := Paged(r);
      && PageAligned(x.begin) && r.begin - PAGE_SIZE < x.begin <= r.begin
      && PageAligned(x.end) && r.end <= x.end < r.end + PAGE_SIZE
  {
    var x := Paged(r);
    var first, pages := x.begin / PAGE_SIZE, (r.end - x.begin + (PAGE_SIZE - 1)) / PAGE_SIZE;
    assert x.begin == first * PAGE_SIZE && x.end == (first + pages) * PAGE_SIZE;
  }

  /** The size tried for, and why it is not another. */
  lemma SizeTried(length: nat, m: nat)
    requires length < ADDRESS_LIMIT && IsRoundedUp(length, m)
    ensures m == RoundUp(length) || (RoundUp(length) < length && m >= ADDRESS_LIMIT)
  {
    RoundUpIs(length);
    if length + (PAGE_SIZE - 1) < ADDRESS_LIMIT {
      OneRoundedUp(length, m, RoundUp(length));
    }
  }

  lemma OutsideBreaks(base: Range, s: seq<Range>, i: nat, r: Range)
    requires i <= |s| && WellFormed(base, s) && r.begin < r.end && !(base.begin <= r.begin && r.end <= base.end)
    ensures !WellFormed(base, MergedInsert(s, i, r))
  {
    var t, lo := MergedInsert(s, i, r), if JoinsBefore(s, i, r) then i - 1 else i;
    assert t[lo] == Joined(s, i, r);
  }

  /** The case the checks of `AllocateRange` miss: `r` begins free, and a range lies inside it short of its end. */
  ghost predicate Swallows(s: seq<Range>, r: Range) {
    !Covered(s, r.begin) && exists i :: 0 <= i < |s| && r.begin < s[i].begin && s[i].end < r.end
  }

  /** What the neighbours of the insertion point say about a clash. */
  lemma ClashCases(base: Range, s: seq<Range>, r: Range, i: nat)
    requires WellFormed(base, s) && r.begin < r.end && i <= |s|
    requires (forall j :: 0 <= j < i ==> s[j].begin < r.begin) && (forall j :: i <= j < |s| ==> r.begin <= s[j].begin)
    ensures Covered(s, r.begin) <==> (i < |s| && s[i].begin == r.begin) || (i > 0 && s[i - 1].Contains(r.begin))
    ensures Swallows(s, r) <==> !Covered(s, r.begin) && i < |s| && s[i].end < r.end
    ensures Free(s, r) <==> !Covered(s, r.begin) && (i == |s| || r.end <= s[i].begin)
    ensures Free(s, r) ==> FitsAt(s, i, r)
  {
    if Covered(s, r.begin) {
      var j :| 0 <= j < |s| && s[j].Contains(r.begin);
      assert r.Contains(r.begin);
    }
    if Free(s, r) {
      assert r.Contains(r.begin);
      FreeFits(base, s, r, i);
    }
    if !Covered(s, r.begin) && (i == |s| || r.end <= s[i].begin) {
      assert i > 0 ==> !s[i - 1].Contains(r.begin);
      assert FitsAt(s, i, r);
    }
  }

  /** If the aligned part of gap `i` is too short, no aligned room begins before the range behind it ends. */
  lemma NoRoomInGap(base: Range, s: seq<Range>, i: nat, gapBegin: nat, length: nat, alignment: nat)
    requires WellFormed(base, s) && base.end < ADDRESS_LIMIT && i < |s|
    requires gapBegin == (if i == 0 then base.begin else s[i - 1].end)
    requires 0 < length && 0 < alignment < ADDRESS_LIMIT
    requires var p := AlignedTo(Range(gapBegin, s[i].begin), alignment); p == EMPTY || p.Length() < length
    requires forall a: nat :: AlignedRoomAt(base, s, a, length, alignment) ==> gapBegin <= a
    ensures forall a: nat :: AlignedRoomAt(base, s, a, length, alignment) ==> s[i].end <= a
  {
    AlignedToIsLeast(Range(gapBegin, s[i].begin), alignment);
    forall a: nat | AlignedRoomAt(base, s, a, length, alignment) ensures s[i].end <= a {
      FreeIsOutside(base, s, a, length, i);
    }
  }

  /** Merging in a range that swallows its neighbour never leaves a well-formed list. */
  lemma SwallowBreaks(base: Range, s: seq<Range>, i: nat, r: Range)
    requires i < |s| && r.begin < s[i].begin < r.end
    ensures !WellFormed(base, MergedInsert(s, i, r))
  {
    var t, lo := MergedInsert(s, i, r), if JoinsBefore(s, i, r) then i - 1 else i;
    assert t[lo] == Joined(s, i, r) && t[lo + 1] == s[i];
  }

  /** Such an input, and the list it leaves. */
  lemma SwallowExample()
    ensures var s, r := [Range(0x2000, 0x3000)], Range(0x1000, 0x5000);
      WellFormed(Range(0, 0x10000), s) && Swallows(s, r) && !Free(s, r) && MergedInsert(s, 0, r) == [r, s[0]]
  {
    var s, r := [Range(0x2000, 0x3000)], Range(0x1000, 0x5000);
    assert s[0].Contains(0x2000) && r.Contains(0x2000);
  }

  /** The address lies in a range and does not begin it. */
  ghost predicate Inside(s: seq<Range>, a: nat) {
    exists j :: 0 <= j < |s| && s[j].begin < a < s[j].end
  }

  /** The range the search for `a` settles on is the only one that can hold it. */
  lemma OnlyInOne(base: Range, s: seq<Range>, a: nat, i: nat)
    requires WellFormed(base, s) && i < |s| && s[i].begin <= a
    requires forall j :: i < j < |s| ==> a < s[j].begin || s[i].begin == a
    ensures Covered(s, a) <==> s[i].Contains(a)
    ensures Inside(s, a) <==> s[i].begin < a < s[i].end
  {
  }

  /** Such an empty range in the middle of another, and the two touching ranges freeing it leaves. */
  lemma EmptyRangeExample()
    ensures var base, s, r := Range(0, 0x10000), [Range(0x1000, 0x3000)], Range(0x2000, 0x2000);
      && WellFormed(base, s) && Inside(s, r.begin)
      && var t := Spliced(s, 0, 1, LeftOver(s[0], r));
      t == [Range(0x1000, 0x2000), Range(0x2000, 0x3000)] && !WellFormed(base, t)
  {
    var base, s, r := Range(0, 0x10000), [Range(0x1000, 0x3000)], Range(0x2000, 0x2000);
    assert s[0].begin < r.begin < s[0].end;
    CutKeepsIff(base, s, 0, r);
  }

  lemma OutsideUncovered(base: Range, s: seq<Range>, r: Range)
    requires WellFormed(base, s) && r.begin < r.end && !(base.Contains(r.begin) && base.Contains(r.end - 1))
    ensures exists a :: r.Contains(a) && !Covered(s, a)
  {
    if base.Contains(r.begin) {
      assert r.Contains(r.end - 1) && !Covered(s, r.end - 1);
    } else {
      assert r.Contains(r.begin) && !Covered(s, r.begin);
    }
  }

  /** Allocated throughout means allocated within one range, as ranges never touch. */
  lemma CoveredThroughout(base: Range, s: seq<Range>, r: Range, i: nat)
    requires WellFormed(base, s) && r.begin < r.end && i < |s| && s[i].begin <= r.begin
    requires forall j :: i < j < |s| ==> r.begin < s[j].begin || s[i].begin == r.begin
    ensures s[i].ContainsRange(r) <==> forall a :: r.Contains(a) ==> Covered(s, a)
  {
    if s[i].ContainsRange(r) {
      forall a | r.Contains(a) ensures Covered(s, a) { assert s[i].Contains(a); }
    } else if !s[i].Contains(r.begin) {
      assert r.Contains(r.begin);
      assert !Covered(s, r.begin);
    } else {
      assert r.Contains(s[i].end);
      assert !Covered(s, s[i].end);
    }
  }

  /** What is left of `x` before and after `r`. */
  function LeftOver(x: Range, r: Range): seq<Range> {
    var before, after := Range(x.begin, r.begin), Range(r.end, x.end);
    (if before.begin < before.end then [before] else []) + (if after.begin < after.end then [after] else [])
  }

  /** Cutting keeps the list well formed except where it splits a range without freeing anything. */
  lemma CutKeepsIff(base: Range, s: seq<Range>, i: nat, r: Range)
    requires WellFormed(base, s) && i < |s| && s[i].ContainsRange(r) && r.begin <= r.end
    ensures WellFormed(base, Spliced(s, i, i + 1, LeftOver(s[i], r))) <==> r.begin < r.end || r.begin == s[i].begin
  {
    var pieces := LeftOver(s[i], r);
    if r.begin < r.end || r.begin == s[i].begin {
      SpliceOrder(base, s, i, i + 1, pieces);
    } else {
      var t := Spliced(s, i, i + 1, pieces);
      assert t[i] == pieces[0] && t[i + 1] == pieces[1];
    }
  }

  lemma CutCovers(base: Range, s: seq<Range>, i: nat, r: Range, a: int)
    requires WellFormed(base, s) && i < |s| && s[i].ContainsRange(r) && r.begin <= r.end
    ensures Covered(Spliced(s, i, i + 1, LeftOver(s[i], r)), a) <==> Covered(s, a) && !r.Contains(a)
  {
    SpliceCovers(s, i, i + 1, LeftOver(s[i], r), a);
    CoveredSplit(s, i, i + 1, a);
    assert s[i..i + 1] == [s[i]];
    assert Covered([s[i]], a) <==> s[i].Contains(a) by { assert [s[i]][0] == s[i]; }
    LeftOverCovers(s[i], r, a);
    if s[i].Contains(a) { RestApart(base, s, i, a); }
  }

  lemma LeftOverCovers(x: Range, r: Range, a: int)
    requires x.begin <= r.begin <= r.end <= x.end
    ensures Covered(LeftOver(x, r), a) <==> x.Contains(a) && !r.Contains(a)
  {
    var before, after := Range(x.begin, r.begin), Range(r.end, x.end);
    var pieces := LeftOver(x, r);
    if before.Contains(a) { assert pieces[0] == before; }
    if after.Contains(a) { assert pieces[|pieces| - 1] == after; }
  }

  lemma RestApart(base: Range, s: seq<Range>, i: nat, a: int)
    requires WellFormed(base, s) && i < |s| && s[i].Contains(a)
    ensures !Covered(s[..i], a) && !Covered(s[i + 1..], a)
  {
  }
}
