/** The physical memory map: overlapping ranges are split and merged in place until none overlap. */
module MemoryMaps {
  import opened PhysicalRanges
  import opened MapCorrection
  import opened MapRuns

  class MemoryMap {
    var entries: seq<Range>

    constructor (ranges: seq<Range>)
      ensures entries == ranges
    {
      entries := ranges;
    }

    method EraseRangeAt(index: nat)
      requires index < |entries|
      modifies this
      ensures entries == old(entries)[..index] + old(entries)[index + 1..]
    {
      if index == |entries| - 1 {
        entries := entries[..index];
        return;
      }
      entries := entries[..index] + entries[index + 1..];
    }

    method EmplaceRangeAt(index: nat, r: Range)
      requires index <= |entries|
      modifies this
      ensures entries == old(entries)[..index] + [r] + old(entries)[index..]
    {
      entries := entries[..index] + [r] + entries[index..];
    }

    /** Lays the next piece down at `j`: over an old entry, or in between once both are used up. */
    method LayPiece(i: nat, j: nat, r: Range, ghost s: seq<Range>, ghost kept: seq<Range>)
      requires i + 1 < |s| && |kept| <= 2 && j == i + |kept| && entries == Laid(s, i, kept)
      modifies this
      ensures entries == Laid(s, i, kept + [r])
    {
      if j - i == 2 {
        EmplaceRangeAt(j, r);
      } else {
        entries := entries[j := r];
      }
    }

    /** Replaces the overlapping entries `i` and `i + 1` by the pieces of the shattered pair. */
    method ShatterAt(i: nat)
      requires i + 1 < |entries| && Shatterable(entries[i], entries[i + 1])
      modifies this
      ensures entries == Shattered(old(entries), i)
    {
      ghost var s := entries;
      PiecesLegal(entries[i], entries[i + 1]);
      var (r0, r1, r2) := ShatterAgainst(entries[i], entries[i + 1]);
      var newRanges := [Trimmed(r0), Trimmed(r1), Trimmed(r2)];
      ghost var kept: seq<Range> := [];
      var j, k := i, 0;
      while k < 3
        invariant k <= 3 && j == i + |kept| && |kept| <= k && entries == Laid(s, i, kept)
        invariant kept == KeptOf(newRanges[..k])
      {
        assert newRanges[..k + 1] == newRanges[..k] + [newRanges[k]];
        if IsValid(newRanges[k]) {
          LayPiece(i, j, newRanges[k], s, kept);
          kept := kept + [newRanges[k]];
          j := j + 1;
        }
        k := k + 1;
      }
      KeptPieces(s[i], s[i + 1], newRanges);
      if j == i {
        assert false;
      }
      if j - i == 1 {
        EraseRangeAt(j);
      }
    }

    /**
     Splits and merges until no neighbours overlap and no touching neighbours share a type, or until an assertion
     fails. A sorted list without empty ranges and triple cover comes out apart and in order exactly if no page is
     crowded, and then every address keeps its type, save usable memory in pages that are not usable as a whole.
     */
    method CorrectOverlappingRanges(hint: nat) returns (ok: bool)
      requires entries != [] && AllLegal(entries)
      modifies this
      ensures AllLegal(entries)
      ensures exists n :: AfterTurns(old(entries), hint, n) == if ok then Done(entries) else Stopped
      ensures Orderly(old(entries)) && ResolvedTo(old(entries), hint) ==>
        && (ok && Normal(entries) <==> !Crowded(old(entries)))
        && (!Crowded(old(entries)) ==> Tidy(entries) && SameMap(old(entries), entries))
    {
      hide Orderly, Tidy, ResolvedTo, SameMap, Normal, AfterTurns, TotalLength, AllLegal, Pieces, Crowded;
      ghost var was := entries;
      ghost var n := 0;
      var i: nat := hint;
      NoTurns(was, hint);
      if i >= |entries| {
        OneMoreTurn(was, hint, 0, was, hint);
        n := 1;
      }
      while i < |entries| - 1
        invariant entries != [] && AllLegal(entries) && AfterTurns(was, hint, n) == Position(entries, i)
        decreases TotalLength(entries), |entries|, |entries| - i
      {
        ghost var total, count, at := TotalLength(entries), |entries|, i;
        while i < |entries| - 1 && (entries[i].Overlaps(entries[i + 1]) ||
          TriviallyMergeable(entries[i], entries[i + 1]))
          invariant i < |entries| && AllLegal(entries) && AfterTurns(was, hint, n) == Looking(entries, i)
          invariant TotalLength(entries) < total ||
            (TotalLength(entries) == total && (|entries| < count || (|entries| == count && i == at)))
          decreases TotalLength(entries), |entries|
        {
          ghost var s := entries;
          PairLegal(s, i);
          OneMoreTurn(was, hint, n, s, i);
          n := n + 1;
          if TriviallyMergeable(entries[i], entries[i + 1]) {
            MergeCover(s, i, 0);
            entries := entries[i := Merged(entries[i], entries[i + 1])];
            EraseRangeAt(i + 1);
            assert entries == MergedAt(s, i);
            continue;
          }
          if !entries[i].Contains(entries[i + 1].begin) {
            Outcome(was, hint, n);
            return false;
          }
          PiecesLegal(s[i], s[i + 1]);
          SpliceLegal(s, i);
          ShatterAt(i);
          if i != 0 {
            i := i - 1;
          }
        }
        OneMoreTurn(was, hint, n, entries, i);
        n := n + 1;
        i := i + 1;
      }
      if i < |entries| {
        OneMoreTurn(was, hint, n, entries, i);
        n := n + 1;
      }
      Outcome(was, hint, n);
      return true;
    }
  }

  lemma Outcome(s: seq<Range>, hint: nat, n: nat)
    requires !AfterTurns(s, hint, n).Looking?
    ensures var end := AfterTurns(s, hint, n); Orderly(s) && ResolvedTo(s, hint) ==>
      && (end.Done? && Normal(end.list) <==> !Crowded(s))
      && (!Crowded(s) ==> Tidy(end.list) && SameMap(s, end.list))
  {
    if Orderly(s) && ResolvedTo(s, hint) { CorrectedIff(s, hint, n); }
  }

  /** The list after the pieces `kept` were written over entries `i` and `i + 1` and behind them. */
  ghost function Laid(s: seq<Range>, i: nat, kept: seq<Range>): seq<Range>
    requires i + 1 < |s|
  {
    s[..i] + kept + s[if |kept| < 2 then i + |kept| else i + 2..]
  }

  ghost function KeptOf(rs: seq<Range>): seq<Range> {
    if rs == [] then [] else KeptOf(rs[..|rs| - 1]) + (if IsValid(rs[|rs| - 1]) then [rs[|rs| - 1]] else [])
  }

  lemma KeptPieces(x: Range, y: Range, rs: seq<Range>)
    requires x.Contains(y.begin)
    requires var (p, q, r) := ShatterAgainst(x, y); rs == [Trimmed(p), Trimmed(q), Trimmed(r)]
    ensures KeptOf(rs[..3]) == Pieces(x, y)
  {
    assert rs[..3] == rs && rs[..2] == [rs[0], rs[1]] && [rs[0], rs[1]][..1] == [rs[0]] && [rs[0]][..0] == [];
    assert KeptOf([rs[0]]) == KeptOf([]) + (if IsValid(rs[0]) then [rs[0]] else []);
  }

  // ---------- lists that are not tidy ----------

  const TRIPLE := [Range(0, 0x4000, 1), Range(0x1000, 0x3000, 2), Range(0x2000, 0x4000, 1)]

  const TRIPLE_AFTER :=
    [Range(0, 0x1000, 1), Range(0x1000, 0x3000, 2), Range(0x3000, 0x4000, 1), Range(0x2000, 0x4000, 1)]

  lemma TripleShatters()
    ensures Shattered(TRIPLE, 0) == TRIPLE_AFTER && Pieces(TRIPLE[0], TRIPLE[1]) != []
  {
    PiecesCases(TRIPLE[0], TRIPLE[1]);
    KeepFree(Range(0, 0x1000, 1));
    KeepFree(Range(0x3000, 0x4000, 1));
  }

  /** Three ranges over one address: a piece ends up behind the third range, and two turns later an assertion fails. */
  lemma TripleCoverFails()
    ensures AllLegal(TRIPLE) && NoneEmpty(TRIPLE) && Ascending(TRIPLE) && !Crowded(TRIPLE)
    ensures Count(TRIPLE, 0x2000) == 3 && AfterTurns(TRIPLE, 0, 4) == Stopped
  {
    hide Pieces;
    var s, t := TRIPLE, TRIPLE_AFTER;
    WholePagesUncrowded(s);
    assert s[1..] == [s[1], s[2]];
    CountPair(s[1], s[2], 0x2000);
    TripleShatters();
    FirstTurn(s, t, 0);
    OneMoreTurn(s, 0, 1, t, 0);
    OneMoreTurn(s, 0, 2, t, 1);
    OneMoreTurn(s, 0, 3, t, 2);
  }

  lemma FirstTurn(s: seq<Range>, t: seq<Range>, j: nat)
    requires TurnAt(s, 0) == Looking(t, j)
    ensures AfterTurns(s, 0, 1) == Looking(t, j)
  {
    OneMoreTurn(s, 0, 0, s, 0);
  }

  const CROWDED := [Range(0, 0x3000, 1), Range(16, 32, 2), Range(48, 64, 2)]

  const CROWDED_AFTER := [Range(16, 32, 2), Range(0x1000, 0x3000, 1), Range(48, 64, 2)]

  lemma CrowdedShatters()
    ensures Shattered(CROWDED, 0) == CROWDED_AFTER && Pieces(CROWDED[0], CROWDED[1]) != []
  {
    PiecesCases(CROWDED[0], CROWDED[1]);
    KeepFree(Range(0, 16, 1));
    KeepFree(Range(32, 0x3000, 1));
  }

  lemma CrowdedPage()
    ensures AllLegal(CROWDED) && NoneEmpty(CROWDED) && Ascending(CROWDED) && AtMostTwice(CROWDED) && Crowded(CROWDED)
  {
    var s := CROWDED;
    forall a: nat ensures Count(s, a) <= 2 {
      assert s[1..] == [s[1], s[2]];
      CountPair(s[1], s[2], a);
    }
    assert s[0] in s && s[1] in s && s[2] in s;
    assert FreeAround(s, 32) && EndsAt(s, 32) && BeginsIn(s, 32);
  }

  /** A crowded page: the correction ends, with usable memory listed before reserved memory that lies below it. */
  lemma CrowdedPageFails()
    ensures AllLegal(CROWDED) && NoneEmpty(CROWDED) && Ascending(CROWDED) && AtMostTwice(CROWDED) && Crowded(CROWDED)
    ensures AfterTurns(CROWDED, 0, 4) == Done(CROWDED_AFTER) && !Ascending(CROWDED_AFTER) && !Normal(CROWDED_AFTER)
  {
    hide Pieces, Crowded, AtMostTwice;
    var s, t := CROWDED, CROWDED_AFTER;
    CrowdedPage();
    CrowdedShatters();
    FirstTurn(s, t, 0);
    OneMoreTurn(s, 0, 1, t, 0);
    OneMoreTurn(s, 0, 2, t, 1);
    OneMoreTurn(s, 0, 3, t, 2);
    assert t[1].begin > t[2].begin;
    assert t[1].end > t[2].begin;
  }

  /** An empty reserved entry hides two overlapping ranges from each other. */
  lemma EmptyEntryFails()
    ensures var s := [Range(0, 0x2000, 2), Range(0x1000, 0x1000, 3), Range(0x1000, 0x3000, 2)];
      AllLegal(s) && Ascending(s) && AtMostTwice(s) && !Crowded(s) && AfterTurns(s, 0, 3) == Done(s) && !Normal(s)
  {
    hide Pieces;
    var x, y, z := Range(0, 0x2000, 2), Range(0x1000, 0x1000, 3), Range(0x1000, 0x3000, 2);
    var s := [x, y, z];
    WholePagesUncrowded(s);
    forall a: nat ensures Count(s, a) <= 2 {
      assert s[1..] == [y, z];
      CountPair(y, z, a);
    }
    FirstTurn(s, s, 1);
    OneMoreTurn(s, 0, 1, s, 1);
    OneMoreTurn(s, 0, 2, s, 2);
    assert s[0].end > s[2].begin;
  }
}
