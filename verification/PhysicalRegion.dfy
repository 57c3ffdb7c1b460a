/** A bit array searched a word at a time, and the page allocator of a physical region built on it. */
module PhysicalRegions {
  import opened Common

  const BITS_PER_UNIT := 64

  /** A machine word as its bits, least significant first. */
  type Unit = u: seq<bool> | |u| == BITS_PER_UNIT witness seq(BITS_PER_UNIT, _ => false)

  /** The word test of the search: no bit of the wanted value. */
  predicate IsBad(u: Unit, wanted: bool) {
    u == seq(BITS_PER_UNIT, _ => !wanted)
  }

  /** The lowest bit of the wanted value in a word that has one. */
  method FindFirst(u: Unit, wanted: bool) returns (k: nat)
    requires !IsBad(u, wanted)
    ensures k < BITS_PER_UNIT && u[k] == wanted && forall j :: 0 <= j < k ==> u[j] != wanted
  {
    HasWanted(u, wanted);
    k := 0;
    while u[k] != wanted
      invariant k < BITS_PER_UNIT && forall j :: 0 <= j < k ==> u[j] != wanted
      decreases BITS_PER_UNIT - k
    {
      k := k + 1;
    }
  }

  lemma HasWanted(u: Unit, wanted: bool)
    requires !IsBad(u, wanted)
    ensures exists k :: 0 <= k < BITS_PER_UNIT && u[k] == wanted
  {
    var bad := seq(BITS_PER_UNIT, _ => !wanted);
    var k :| 0 <= k < BITS_PER_UNIT && u[k] != bad[k];
  }

  class DynamicBitArray {
    var bitCount: nat
    var units: seq<Unit>

    ghost predicate Valid()
      reads this
    {
      bitCount <= |units| * BITS_PER_UNIT < bitCount + BITS_PER_UNIT
    }

    ghost predicate Bit(i: nat)
      requires Valid() && i < bitCount
      reads this
    {
      units[i / BITS_PER_UNIT][i % BITS_PER_UNIT]
    }

    constructor (size: nat)
      ensures Valid() && bitCount == size && forall i: nat :: i < size ==> !Bit(i)
    {
      bitCount := size;
      units := seq((size + BITS_PER_UNIT - 1) / BITS_PER_UNIT, _ => seq(BITS_PER_UNIT, _ => false));
    }

    method BitAt(i: nat) returns (b: bool)
      requires Valid() && i < bitCount
      ensures b == Bit(i)
    {
      b := units[i / BITS_PER_UNIT][i % BITS_PER_UNIT];
    }

    method SetBit(i: nat, to: bool)
      requires Valid() && i < bitCount
      modifies this
      ensures Valid() && bitCount == old(bitCount) && Bit(i) == to
      ensures forall j: nat :: j < bitCount && j != i ==> Bit(j) == old(Bit(j))
    {
      var u, k := i / BITS_PER_UNIT, i % BITS_PER_UNIT;
      units := units[u := units[u][k := to]];
    }

    ghost predicate NoBit(wanted: bool)
      requires Valid()
      reads this
    {
      forall i: nat :: i < bitCount ==> Bit(i) != wanted
    }

    ghost predicate NoneBetween(wanted: bool, from: nat, to: nat)
      requires Valid()
      reads this
    {
      forall i: nat :: from <= i < to && i < bitCount ==> Bit(i) != wanted
    }

    lemma NoneInEmpty(wanted: bool, from: nat)
      requires Valid()
      ensures NoneBetween(wanted, from, from)
    {
    }

    lemma NonePastEnd(wanted: bool, from: nat, to: nat, end: nat)
      requires Valid() && NoneBetween(wanted, from, to) && bitCount <= to
      ensures NoneBetween(wanted, from, end)
    {
    }

    /** The first `k` bits of a word are not the wanted ones, and none before the word is. */
    lemma NoneBefore(wanted: bool, from: nat, u: nat, k: nat)
      requires Valid() && u < |units| && k <= BITS_PER_UNIT && NoneBetween(wanted, from, u * BITS_PER_UNIT)
      requires forall j :: 0 <= j < k ==> units[u][j] != wanted
      ensures NoneBetween(wanted, from, k + u * BITS_PER_UNIT)
      ensures k < BITS_PER_UNIT && k + u * BITS_PER_UNIT < bitCount ==> Bit(k + u * BITS_PER_UNIT) == units[u][k]
    {
      forall i: nat | from <= i < k + u * BITS_PER_UNIT && i < bitCount ensures Bit(i) != wanted {
        if u * BITS_PER_UNIT <= i {
          assert i / BITS_PER_UNIT == u && i % BITS_PER_UNIT == i - u * BITS_PER_UNIT;
        }
      }
    }

    /** The first bit of the wanted value from `from` on, or from the beginning if there is none. */
    ghost predicate FirstFrom(wanted: bool, from: nat, i: nat)
      requires Valid() && i < bitCount
      reads this
    {
      Bit(i) == wanted && if from <= i then NoneBetween(wanted, from, i)
        else NoneBetween(wanted, from, bitCount) && NoneBetween(wanted, 0, i)
    }

    /** One pass over the words from `start` to `end`, stopping for good at a match past the last bit. */
    method Scan(wanted: bool, start: nat, end: nat) returns (r: Option<nat>)
      requires Valid() && start <= end <= |units|
      ensures r.Some? ==> r.value < bitCount && Bit(r.value) == wanted && start * BITS_PER_UNIT <= r.value
      ensures r.Some? ==> NoneBetween(wanted, start * BITS_PER_UNIT, r.value)
      ensures r.None? ==> NoneBetween(wanted, start * BITS_PER_UNIT, end * BITS_PER_UNIT)
    {
      hide NoneBetween;
      var u := start;
      NoneInEmpty(wanted, start * BITS_PER_UNIT);
      while u < end
        invariant start <= u <= end
        invariant NoneBetween(wanted, start * BITS_PER_UNIT, u * BITS_PER_UNIT)
      {
        if !IsBad(units[u], wanted) {
          var k := FindFirst(units[u], wanted);
          var target := k + u * BITS_PER_UNIT;
          NoneBefore(wanted, start * BITS_PER_UNIT, u, k);
          if target >= bitCount {
            NonePastEnd(wanted, start * BITS_PER_UNIT, target, end * BITS_PER_UNIT);
            return None;
          }
          return Some(target);
        }
        NoneBefore(wanted, start * BITS_PER_UNIT, u, BITS_PER_UNIT);
        u := u + 1;
      }
      return None;
    }

    /** Finds the first bit of the wanted value, starting with the word of the hint, exactly when there is one. */
    method FindBit(wanted: bool, hint: nat) returns (r: Option<nat>)
      requires Valid() && hint < bitCount
      ensures r.Some? ==> r.value < bitCount && Bit(r.value) == wanted
      ensures r.Some? ==> FirstFrom(wanted, hint / BITS_PER_UNIT * BITS_PER_UNIT, r.value)
      ensures r.None? <==> NoBit(wanted)
    {
      var start := hint / BITS_PER_UNIT;
      r := Scan(wanted, start, |units|);
      if r.None? {
        r := Scan(wanted, 0, start);
      }
    }
  }

  ghost function Below(n: nat): (s: set<nat>)
    ensures |s| == n && forall i: nat :: i in s <==> i < n
  {
    if n == 0 then {} else Below(n - 1) + {n - 1}
  }

  class PhysicalRegion {
    const base: nat
    const allocationMap: DynamicBitArray
    var freePages: nat
    var nextHint: nat

    ghost function PageCount(): nat
      reads allocationMap
    {
      allocationMap.bitCount
    }

    /** The numbers of the pages not handed out. */
    ghost function Free(): set<nat>
      requires allocationMap.Valid()
      reads allocationMap
    {
      set i | i in Below(PageCount()) && !allocationMap.Bit(i)
    }

    /** The numbers of the pages handed out and not yet given back. */
    ghost function Out(): set<nat>
      requires allocationMap.Valid()
      reads allocationMap
    {
      set i | i in Below(PageCount()) && allocationMap.Bit(i)
    }

    function BitAsAddress(i: nat): nat { base + i * PAGE_SIZE }

    function AddressAsBit(a: nat): nat
      requires base <= a
    {
      (a - base) / PAGE_SIZE
    }

    /** Page numbers and page addresses of the region are in one-to-one correspondence. */
    lemma NumbersAndAddresses(i: nat, a: nat)
      requires base % PAGE_SIZE == 0 && base <= a && a % PAGE_SIZE == 0
      ensures AddressAsBit(BitAsAddress(i)) == i && BitAsAddress(AddressAsBit(a)) == a
      ensures BitAsAddress(i) % PAGE_SIZE == 0
    {
    }

    /** The counter counts the free pages, and the hint is a page of the region. */
    ghost predicate Valid()
      reads this, allocationMap
    {
      && allocationMap.Valid() && base % PAGE_SIZE == 0
      && freePages == |Free()|
      && (PageCount() > 0 ==> nextHint < PageCount())
    }

    constructor (begin: nat, length: nat)
      requires begin % PAGE_SIZE == 0 && length % PAGE_SIZE == 0
      ensures Valid() && fresh(allocationMap) && base == begin && PageCount() == length / PAGE_SIZE && Out() == {}
    {
      base, nextHint := begin, 0;
      freePages := length / PAGE_SIZE;
      allocationMap := new DynamicBitArray(length / PAGE_SIZE);
      new;
      assert Free() == Below(PageCount());
    }

    /** Marks a page as out or not. */
    method Mark(i: nat, out: bool)
      requires allocationMap.Valid() && i < PageCount() && allocationMap.Bit(i) != out
      modifies allocationMap
      ensures allocationMap.Valid() && PageCount() == old(PageCount())
      ensures out ==> i in old(Free()) && i !in old(Out()) && Free() == old(Free()) - {i} && Out() == old(Out()) + {i}
      ensures !out ==> i in old(Out()) && i !in old(Free()) && Free() == old(Free()) + {i} && Out() == old(Out()) - {i}
    {
      hide DynamicBitArray.Bit, DynamicBitArray.Valid, Below;
      allocationMap.SetBit(i, out);
    }

    lemma SomePageFree()
      requires allocationMap.Valid() && |Free()| > 0
      ensures PageCount() > 0 && !allocationMap.NoBit(false)
    {
      var i :| i in Free();
      assert i < PageCount() && !allocationMap.Bit(i);
    }

    /** Hands out the first page that is not out, starting near the last one, and fails exactly when every page is. */
    method AllocatePage() returns (page: Option<nat>, ghost i: nat)
      requires Valid()
      modifies this, allocationMap
      ensures Valid() && PageCount() == old(PageCount())
      ensures page.None? <==> |old(Out())| == PageCount()
      ensures page.None? ==> Out() == old(Out()) && nextHint == old(nextHint)
      ensures page.Some? ==> page.value == base + i * PAGE_SIZE && i < PageCount() && AddressAsBit(page.value) == i
      ensures page.Some? ==> i !in old(Out()) && Out() == old(Out()) + {i}
      ensures page.Some? ==> old(FirstFree(i)) && nextHint == if i + 1 == PageCount() then 0 else i + 1
    {
      hide Free, Out, Below;
      hide DynamicBitArray.Valid, DynamicBitArray.Bit, DynamicBitArray.NoBit, DynamicBitArray.FirstFrom;
      Partition();
      i := 0;
      if freePages == 0 {
        return None, 0;
      }
      SomePageFree();
      var index := allocationMap.FindBit(false, nextHint);
      i := index.value;
      nextHint := index.value + 1;
      if nextHint == allocationMap.bitCount {
        nextHint := 0;
      }
      Mark(index.value, true);
      freePages := freePages - 1;
      NumbersAndAddresses(i, base);
      page := Some(BitAsAddress(index.value));
    }

    /** The first page that is not out from the beginning of the hint's word on, going round at the end. */
    ghost predicate FirstFree(i: nat)
      requires allocationMap.Valid()
      reads this, allocationMap
    {
      i < PageCount() && allocationMap.FirstFrom(false, nextHint / BITS_PER_UNIT * BITS_PER_UNIT, i)
    }

    /** Takes a page back; refuses an address outside the region and a page that is not out. */
    method FreePage(a: nat) returns (ok: bool)
      requires Valid() && a % PAGE_SIZE == 0
      modifies this, allocationMap
      ensures Valid() && PageCount() == old(PageCount())
      ensures ok <==> base <= a < base + PageCount() * PAGE_SIZE && AddressAsBit(a) in old(Out())
      ensures Out() == (if ok then old(Out()) - {AddressAsBit(a)} else old(Out())) && nextHint == old(nextHint)
    {
      if !(base <= a < base + allocationMap.bitCount * PAGE_SIZE) {
        return false;
      }
      var bit := AddressAsBit(a);
      assert bit in Below(PageCount());
      var out := allocationMap.BitAt(bit);
      if !out {
        return false;
      }
      hide Free, Out;
      Mark(bit, false);
      freePages := freePages + 1;
      return true;
    }

    lemma Partition()
      requires allocationMap.Valid()
      ensures |Free()| + |Out()| == PageCount()
    {
      assert Free() + Out() == Below(PageCount());
    }
  }
}
