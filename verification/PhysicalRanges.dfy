/** Typed physical address ranges and what a list of them says about each address. */
module PhysicalRanges {
  import opened Common

  /** Memory types are ordered; when ranges overlap the greater type wins. */
  type MemoryType = nat
  const FREE: MemoryType := 1
  const RESERVED: MemoryType := 2

  datatype Range = Range(begin: nat, end: nat, kind: MemoryType) {

    predicate Empty() { begin == end }

    function Length(): int { end - begin }

    predicate IsFree() { kind == FREE }

    predicate IsReserved() { !IsFree() }

    predicate Contains(a: nat) { begin <= a < end }

    predicate Overlaps(other: Range) {
      if Empty() || other.Empty() then false
      else Contains(other.begin) || other.Contains(begin)
    }

    /** The part of the range from the first multiple of `alignment` on, or an empty range if there is none. */
    function AlignedTo(alignment: nat): Range
      requires alignment > 0
    {
      var remainder := begin % alignment;
      var aligned := if remainder != 0 then begin + (alignment - remainder) else begin;
      if aligned >= end then Range(0, 0, kind) else Range(aligned, end, kind)
    }
  }

  predicate WholePages(r: Range) {
    PageAligned(r.begin) && PageAligned(r.end)
  }

  const Nothing := Range(0, 0, RESERVED)

  function RoundDown(a: nat): nat { a - a % PAGE_SIZE }

  function RoundUp(a: nat): nat { if a % PAGE_SIZE == 0 then a else a - a % PAGE_SIZE + PAGE_SIZE }

  predicate SamePage(a: nat, b: nat) { RoundDown(a) == RoundDown(b) }

  /** Rounding goes to the nearest page boundary. */
  lemma Rounding(a: nat, b: nat)
    ensures RoundDown(a) <= a <= RoundUp(a) && RoundDown(a) % PAGE_SIZE == 0 && RoundUp(a) % PAGE_SIZE == 0
    ensures a % PAGE_SIZE != 0 ==> RoundUp(a) == RoundDown(a) + PAGE_SIZE
    ensures b % PAGE_SIZE == 0 && a <= b ==> RoundUp(a) <= b
    ensures b % PAGE_SIZE == 0 && b <= a ==> b <= RoundDown(a)
    ensures RoundDown(a) <= b <= a ==> SamePage(a, b)
    ensures a <= b < RoundUp(a) ==> SamePage(a, b)
  {
  }

  /** Usable memory comes in whole pages; memory of other types need not. */
  ghost predicate Legal(r: Range) {
    r.begin <= r.end && r.kind > 0 && (r.IsFree() ==> WholePages(r))
  }

  ghost predicate AllLegal(s: seq<Range>) {
    forall k :: 0 <= k < |s| ==> Legal(s[k])
  }

  ghost predicate NoneEmpty(s: seq<Range>) {
    forall k :: 0 <= k < |s| ==> s[k].begin < s[k].end
  }

  ghost predicate Ascending(s: seq<Range>) {
    forall k :: 0 <= k < |s| - 1 ==> s[k].begin <= s[k + 1].begin
  }

  lemma {:induction false} AscendingApart(s: seq<Range>, j: nat, k: nat)
    requires Ascending(s) && j <= k < |s|
    ensures s[j].begin <= s[k].begin
  {
    if j < k { AscendingApart(s, j, k - 1); }
  }

  // ---------- what a list says about an address ----------

  /** How many ranges cover `a`. */
  ghost function Count(s: seq<Range>, a: nat): nat {
    if s == [] then 0 else (if s[0].Contains(a) then 1 else 0) + Count(s[1..], a)
  }

  ghost function Max(x: nat, y: nat): nat { if x >= y then x else y }

  /** The greatest type that covers `a`, or 0. */
  ghost function TypeAt(s: seq<Range>, a: nat): nat {
    if s == [] then 0 else Max(if s[0].Contains(a) then s[0].kind else 0, TypeAt(s[1..], a))
  }

  ghost function TotalLength(s: seq<Range>): nat {
    if s == [] then 0 else (if s[0].begin <= s[0].end then s[0].end - s[0].begin else 0) + TotalLength(s[1..])
  }

  lemma {:induction false} Concat(s: seq<Range>, t: seq<Range>, a: nat)
    ensures Count(s + t, a) == Count(s, a) + Count(t, a)
    ensures TypeAt(s + t, a) == Max(TypeAt(s, a), TypeAt(t, a))
    ensures TotalLength(s + t) == TotalLength(s) + TotalLength(t)
  {
    if s == [] {
      assert s + t == t;
    } else {
      assert (s + t)[1..] == s[1..] + t;
      Concat(s[1..], t, a);
    }
  }

  lemma Concat3(p: seq<Range>, x: seq<Range>, q: seq<Range>, a: nat)
    ensures Count(p + x + q, a) == Count(p, a) + Count(x, a) + Count(q, a)
    ensures TypeAt(p + x + q, a) == Max(TypeAt(p, a), Max(TypeAt(x, a), TypeAt(q, a)))
    ensures TotalLength(p + x + q) == TotalLength(p) + TotalLength(x) + TotalLength(q)
  {
    Concat(p + x, q, a);
    Concat(p, x, a);
  }

  /** No address is covered more than twice. */
  ghost predicate AtMostTwice(s: seq<Range>) {
    forall a: nat :: Count(s, a) <= 2
  }

  /** Some address in the page of `a` is not usable. */
  ghost predicate Shared(s: seq<Range>, a: nat) {
    exists b :: SamePage(a, b) && TypeAt(s, b) > FREE
  }

  /** Address `a` keeps its type, unless it was usable memory in a page shared with memory that is not. */
  ghost predicate KeptAt(s: seq<Range>, t: seq<Range>, a: nat) {
    TypeAt(t, a) == TypeAt(s, a) || (TypeAt(s, a) == FREE && TypeAt(t, a) == 0 && Shared(s, a))
  }

  ghost predicate SameMap(s: seq<Range>, t: seq<Range>) {
    forall a: nat :: KeptAt(s, t, a)
  }

  lemma SameMapTrans(s: seq<Range>, t: seq<Range>, u: seq<Range>)
    requires SameMap(s, t) && SameMap(t, u)
    ensures SameMap(s, u)
  {
    forall a: nat ensures KeptAt(s, u, a) {
      assert KeptAt(s, t, a) && KeptAt(t, u, a);
      if TypeAt(u, a) != TypeAt(t, a) && TypeAt(t, a) == TypeAt(s, a) {
        var b :| SamePage(a, b) && TypeAt(t, b) > FREE;
        assert KeptAt(s, t, b);
      }
    }
  }

  /** Where all memory comes in whole pages no page is shared, so every address keeps its type. */
  lemma WholePagesKept(s: seq<Range>, t: seq<Range>, a: nat)
    requires SameMap(s, t) && forall k :: 0 <= k < |s| ==> WholePages(s[k])
    ensures TypeAt(t, a) == TypeAt(s, a)
  {
    assert KeptAt(s, t, a);
    if Shared(s, a) {
      var b :| SamePage(a, b) && TypeAt(s, b) > FREE;
      SamePageSameType(s, a, b);
    }
  }

  lemma {:induction false} SamePageSameType(s: seq<Range>, a: nat, b: nat)
    requires SamePage(a, b) && forall k :: 0 <= k < |s| ==> WholePages(s[k])
    ensures TypeAt(s, a) == TypeAt(s, b)
  {
    if s != [] {
      SamePageSameType(s[1..], a, b);
      assert WholePages(s[0]);
    }
  }

  /** Three members of a list that share an address make it covered at least three times. */
  lemma {:induction false} Covered(s: seq<Range>, k: nat, a: nat)
    requires k < |s| && s[k].Contains(a)
    ensures Count(s, a) >= 1 && TypeAt(s, a) >= s[k].kind
  {
    if k > 0 { Covered(s[1..], k - 1, a); }
  }
}
