/** The kernel heap: a list of blocks searched in order. */
module HeapAllocators {
  import opened Arithmetic
  import opened HeapRuns
  import opened HeapLayout
  import opened HeapBlocks

  const UPPER_ALLOCATION_THRESHOLD := 2 * 1024 * 1024
  const MAX_ALIGNMENT := 4096

  datatype AllocateOutcome = Allocated(address: nat) | BadSize | BadAlignment | OutOfMemory
  datatype FreeOutcome = Freed | NullIgnored | DoubleFree | UnknownPointer
  datatype Stats = Stats(heapBlocks: nat, freeBytes: nat, totalBytes: nat)

  class HeapAllocator {
    var blocks: seq<HeapBlock>
    var totalFreeBytes: nat

    static ghost function FreeSum(bs: seq<HeapBlock>): nat
      reads bs
    {
      if bs == [] then 0 else bs[0].FreeBytes() + FreeSum(bs[1..])
    }

    /** The bytes of all chunks. */
    static ghost function SizeSum(bs: seq<HeapBlock>): nat {
      if bs == [] then 0
      else SizeSum(bs[..|bs| - 1]) + bs[|bs| - 1].chunkCount * bs[|bs| - 1].chunkSize
    }

    static ghost function Bitmaps(bs: seq<HeapBlock>): set<object> {
      set i | 0 <= i < |bs| :: bs[i].bitmap
    }

    /** Two blocks occupy separate memory. */
    static ghost predicate Apart(a: HeapBlock, b: HeapBlock) {
      a != b && a.bitmap != b.bitmap && (a.End() <= b.base || b.End() <= a.base)
    }

    static ghost predicate AllApart(bs: seq<HeapBlock>) {
      forall i, j :: 0 <= i < j < |bs| ==> Apart(bs[i], bs[j])
    }

    ghost predicate Valid()
      reads this, blocks, Bitmaps(blocks)
    {
      && (forall i :: 0 <= i < |blocks| ==> blocks[i].Valid() && PowerOfTwo(blocks[i].chunkSize))
      && AllApart(blocks)
      && totalFreeBytes == FreeSum(blocks)
    }

    constructor ()
      ensures Valid() && blocks == []
    {
      blocks, totalFreeBytes := [], 0;
    }

    static lemma {:induction false} FreeSumConcat(a: seq<HeapBlock>, b: seq<HeapBlock>)
      ensures FreeSum(a + b) == FreeSum(a) + FreeSum(b)
    {
      if a == [] {
        assert a + b == b;
      } else {
        assert (a + b)[1..] == a[1..] + b;
        FreeSumConcat(a[1..], b);
      }
    }

    /** Replaces one block's contribution to the free bytes. */
    static lemma FreeSumSplit(bs: seq<HeapBlock>, i: nat)
      requires i < |bs|
      ensures FreeSum(bs) == FreeSum(bs[..i]) + bs[i].FreeBytes() + FreeSum(bs[i + 1..])
    {
      assert bs == bs[..i] + [bs[i]] + bs[i + 1..];
      FreeSumConcat(bs[..i] + [bs[i]], bs[i + 1..]);
      FreeSumConcat(bs[..i], [bs[i]]);
      assert FreeSum([bs[i]]) == bs[i].FreeBytes();
    }

    ghost predicate Elsewhere(i: nat)
      requires i < |blocks|
      reads this
    {
      forall j :: 0 <= j < |blocks| && j != i ==> blocks[j] != blocks[i] && blocks[j].bitmap != blocks[i].bitmap
    }

    lemma NoSharing(i: nat)
      requires i < |blocks| && AllApart(blocks)
      ensures Elsewhere(i)
    {
      forall j | 0 <= j < |blocks| && j != i ensures blocks[j] != blocks[i] && blocks[j].bitmap != blocks[i].bitmap {
        assert if j < i then Apart(blocks[j], blocks[i]) else Apart(blocks[i], blocks[j]);
      }
    }

    /** Tries one block. */
    method TryBlock(i: nat, bytes: nat, alignment: nat)
      returns (ok: bool, address: nat, ghost at: nat, ghost needed: nat)
      requires i < |blocks| && Valid() && bytes > 0 && PowerOfTwo(alignment)
      modifies this`totalFreeBytes, blocks[i], blocks[i].bitmap
      ensures Valid() && Elsewhere(i)
      ensures needed == 1 + (bytes - 1) / blocks[i].chunkSize
      ensures ok ==> address % alignment == 0 && address == blocks[i].data + at * blocks[i].chunkSize
      ensures ok ==> at !in old(blocks[i].live) && blocks[i].live == old(blocks[i].live)[at := needed]
      ensures ok ==> old(blocks[i].FirstFit(at, needed, alignment))
      ensures !ok ==> unchanged(blocks[i]) && unchanged(blocks[i].bitmap) && blocks[i].Full(bytes, alignment)
    {
      hide HeapBlock.Valid, HeapBlock.FirstFit, HeapBlock.Full, AllApart, FreeSum, PowerOfTwo;
      var heap := blocks[i];
      NoSharing(i);
      PowersCompatible(heap.chunkSize, alignment);
      FreeSumSplit(blocks, i);
      ghost var before, others := heap.FreeBytes(), FreeSum(blocks[..i]) + FreeSum(blocks[i + 1..]);
      ok, address, at, needed := heap.Allocate(bytes, alignment);
      FreeSumSplit(blocks, i);
      assert others == FreeSum(blocks[..i]) + FreeSum(blocks[i + 1..]);
      if ok {
        var chunksNeeded := 1 + (bytes - 1) / heap.chunkSize;
        MulDistributes(old(heap.freeChunks), needed, heap.chunkSize);
        totalFreeBytes := totalFreeBytes - chunksNeeded * heap.chunkSize;
      }
    }

    /** The list with a block put behind its first one. */
    static ghost function Inserted(bs: seq<HeapBlock>, fed: HeapBlock): seq<HeapBlock> {
      if bs == [] then [fed] else bs[..1] + [fed] + bs[1..]
    }

    static lemma InsertedApart(bs: seq<HeapBlock>, fed: HeapBlock)
      requires AllApart(bs) && forall i :: 0 <= i < |bs| ==> Apart(bs[i], fed)
      ensures AllApart(Inserted(bs, fed))
    {
      var w := Inserted(bs, fed);
      forall i, j | 0 <= i < j < |w| ensures Apart(w[i], w[j]) {
        assert i != 1 ==> w[i] == bs[if i < 1 then i else i - 1];
        assert j != 1 && bs != [] ==> w[j] == bs[if j < 1 then j else j - 1];
      }
    }

    static lemma InsertedFree(bs: seq<HeapBlock>, fed: HeapBlock)
      ensures FreeSum(Inserted(bs, fed)) == FreeSum(bs) + fed.FreeBytes()
    {
      var w := Inserted(bs, fed);
      if bs == [] {
        FreeSumSplit(w, 0);
      } else {
        FreeSumSplit(w, 1);
        FreeSumConcat(bs[..1], bs[1..]);
        assert bs == bs[..1] + bs[1..] && w[..1] == bs[..1] && w[2..] == bs[1..];
      }
    }

    /** Adds a block behind the first one: all its whole chunks are free, and their bytes join the total. */
    method FeedBlock(ptr: nat, size: nat, chunk: nat) returns (fed: HeapBlock)
      requires Valid() && PowerOfTwo(chunk) && Feedable(ptr, size, chunk) && HasSpareSlot(LayoutOf(ptr, size, chunk))
      requires forall i :: 0 <= i < |blocks| ==> blocks[i].End() <= ptr || ptr + size <= blocks[i].base
      modifies this
      ensures Valid()
      ensures fresh(fed) && fed.base == ptr && fed.live == map[] && blocks == Inserted(old(blocks), fed)
      ensures fed.chunkSize == chunk && fed.freeChunks == fed.chunkCount
      ensures fed.End() <= ptr + size < fed.End() + chunk
      ensures 0 <= fed.data - (ptr + HEADER + 1 + ((size - HEADER) / chunk - 1) / 4) < chunk
      ensures totalFreeBytes == old(totalFreeBytes) + fed.chunkCount * chunk
    {
      hide HeapBlock.Valid, HeapBlock.Shaped, AllApart, FreeSum, PowerOfTwo, Feedable, LayoutOf;
      fed := new HeapBlock(ptr, size, chunk);
      ghost var s := blocks;
      InsertedApart(s, fed);
      InsertedFree(s, fed);
      if blocks != [] {
        blocks := blocks[..1] + [fed] + blocks[1..];
      } else {
        blocks := [fed];
      }
      totalFreeBytes := totalFreeBytes + fed.chunkCount * chunk;
      assert forall i :: 0 <= i < |blocks| ==> blocks[i] == fed || blocks[i] in s;
    }

    /** Takes chunks from the first block that has a suitable run. */
    method Allocate(bytes: nat, alignment: nat)
      returns (r: AllocateOutcome, ghost which: nat, ghost at: nat, ghost needed: nat)
      requires Valid()
      modifies this`totalFreeBytes, blocks, Bitmaps(blocks)
      ensures Valid()
      ensures r.BadSize? <==> bytes == 0 || bytes > UPPER_ALLOCATION_THRESHOLD
      ensures r.BadAlignment? <==>
        !r.BadSize? && alignment !in {1, 2, 4, 8, 16, 32, 64, 128, 256, 512, 1024, 2048, 4096}
      ensures r.Allocated? ==>
        && which < |blocks| && r.address % alignment == 0
        && r.address == blocks[which].data + at * blocks[which].chunkSize
        && needed == 1 + (bytes - 1) / blocks[which].chunkSize
        && at !in old(blocks[which].live) && blocks[which].live == old(blocks[which].live)[at := needed]
        && (forall j :: 0 <= j < |blocks| && j != which ==> unchanged(blocks[j]) && unchanged(blocks[j].bitmap))
        && (forall j :: 0 <= j < which ==> blocks[j].Full(bytes, alignment))
        && old(blocks[which].FirstFit(at, needed, alignment))
      ensures r.OutOfMemory? ==> forall j :: 0 <= j < |blocks| ==> blocks[j].Full(bytes, alignment)
      ensures !r.Allocated? ==> forall j :: 0 <= j < |blocks| ==> unchanged(blocks[j]) && unchanged(blocks[j].bitmap)
    {
      hide HeapBlock.Valid, HeapBlock.Full, HeapBlock.Shaped, HeapBlock.FirstFit;
      which, at, needed := 0, 0, 0;
      if bytes == 0 || bytes > UPPER_ALLOCATION_THRESHOLD {
        return BadSize, 0, 0, 0;
      }
      if alignment <= MAX_ALIGNMENT { SmallPowers(alignment); }
      if !PowerOfTwo(alignment) || alignment > MAX_ALIGNMENT {
        return BadAlignment, 0, 0, 0;
      }
      var i := 0;
      while i < |blocks|
        invariant i <= |blocks| && Valid() && forall j :: 0 <= j < i ==> blocks[j].Full(bytes, alignment)
        invariant forall j :: 0 <= j < |blocks| ==> unchanged(blocks[j]) && unchanged(blocks[j].bitmap)
      {
        var ok, address;
        assert unchanged(blocks[i]);
        ok, address, at, needed := TryBlock(i, bytes, alignment);
        if ok {
          return Allocated(address), i, at, needed;
        }
        i := i + 1;
      }
      return OutOfMemory, which, at, needed;
    }

    /** Frees within one block, keeping the total. */
    method FreeIn(i: nat, ptr: nat) returns (ok: bool)
      requires i < |blocks| && Valid() && blocks[i].Contains(ptr) && blocks[i].chunkSize > 0
      modifies this`totalFreeBytes, blocks[i], blocks[i].bitmap
      ensures Valid() && Elsewhere(i)
      ensures var k := (ptr - blocks[i].data) / blocks[i].chunkSize;
        k in old(blocks[i].live) ==> ok && blocks[i].live == old(blocks[i].live) - {k}
      ensures ok == old(blocks[i].InUse(ptr))
      ensures !ok ==> unchanged(this) && unchanged(blocks[i]) && unchanged(blocks[i].bitmap)
    {
      hide HeapBlock.Valid, HeapBlock.Ids, AllApart, FreeSum, PowerOfTwo;
      var heap := blocks[i];
      NoSharing(i);
      FreeSumSplit(blocks, i);
      ghost var others := FreeSum(blocks[..i]) + FreeSum(blocks[i + 1..]);
      var freed;
      ok, freed := heap.Free(ptr);
      FreeSumSplit(blocks, i);
      assert others == FreeSum(blocks[..i]) + FreeSum(blocks[i + 1..]);
      if ok {
        MulDistributes(old(heap.freeChunks), freed, heap.chunkSize);
        totalFreeBytes := totalFreeBytes + freed * heap.chunkSize;
      }
    }

    /** `ptr` was handed out as the allocation at chunk `k` of block `i`. */
    ghost predicate Owns(i: nat, k: nat, ptr: nat)
      reads this, blocks
    {
      i < |blocks| && k in blocks[i].live && ptr == blocks[i].data + k * blocks[i].chunkSize
    }

    /** A handed-out address lies in its own block only, although block ends are inclusive. */
    lemma OwnBlock(i: nat, k: nat, ptr: nat)
      requires Valid() && Owns(i, k, ptr)
      ensures ptr > 0 && blocks[i].Contains(ptr) && (ptr - blocks[i].data) / blocks[i].chunkSize == k
      ensures forall j :: 0 <= j < |blocks| && blocks[j].Contains(ptr) ==> j == i
    {
      var b := blocks[i];
      assert k < b.chunkCount;
      MulDiv(k, b.chunkSize);
      MulDistributes(b.chunkCount, k, b.chunkSize);
      MulGap(b.chunkCount - k, b.chunkSize);
      MulNonNegative(k, b.chunkSize);
      forall j | 0 <= j < |blocks| && j != i ensures !blocks[j].Contains(ptr) {
        assert blocks[j].Valid();
        assert if j < i then Apart(blocks[j], blocks[i]) else Apart(blocks[i], blocks[j]);
      }
    }

    /** Gives an allocation back to the block it came from. */
    method Free(ptr: nat) returns (r: FreeOutcome, ghost which: nat)
      requires Valid()
      modifies this`totalFreeBytes, blocks, Bitmaps(blocks)
      ensures r.NullIgnored? <==> ptr == 0
      ensures Valid()
      ensures r.UnknownPointer? <==>
        ptr != 0 && forall j :: 0 <= j < |blocks| ==> !(blocks[j].data <= ptr <= blocks[j].End())
      ensures forall i, k :: old(Owns(i, k, ptr)) ==> r.Freed? && which == i
      ensures r.Freed? ==> which < |blocks| && blocks[which].chunkSize > 0 && blocks[which].Contains(ptr)
      ensures r.Freed? ==> var k := (ptr - blocks[which].data) / blocks[which].chunkSize;
        k in old(blocks[which].live) ==> blocks[which].live == old(blocks[which].live) - {k}
      ensures r.Freed? || r.DoubleFree? ==> which < |blocks| && r.Freed? == old(blocks[which].InUse(ptr))
      ensures r.Freed? || r.DoubleFree? ==> forall j :: 0 <= j < which ==> !blocks[j].Contains(ptr)
      ensures forall j :: 0 <= j < |blocks| && (!r.Freed? || j != which) ==>
        unchanged(blocks[j]) && unchanged(blocks[j].bitmap)
    {
      hide HeapBlock.Valid, AllApart, FreeSum;
      which := 0;
      if ptr == 0 {
        forall i, k ensures !Owns(i, k, ptr) { if Owns(i, k, ptr) { OwnBlock(i, k, ptr); } }
        return NullIgnored, 0;
      }
      var i := 0;
      while i < |blocks|
        invariant i <= |blocks| && forall j :: 0 <= j < i ==> !blocks[j].Contains(ptr)
      {
        var heap := blocks[i];
        if heap.Contains(ptr) {
          which := i;
          forall m, k | Owns(m, k, ptr) ensures m == i && (ptr - heap.data) / heap.chunkSize == k {
            OwnBlock(m, k, ptr);
          }
          var ok := FreeIn(i, ptr);
          return if ok then Freed else DoubleFree, i;
        }
        i := i + 1;
      }
      forall m, k ensures !Owns(m, k, ptr) { if Owns(m, k, ptr) { OwnBlock(m, k, ptr); } }
      return UnknownPointer, 0;
    }

    static lemma FreeAtMostAll(b: HeapBlock)
      requires b.Valid()
      ensures b.FreeBytes() <= b.chunkCount * b.chunkSize
    {
      ZerosBound(b.Ids());
      MulDistributes(b.chunkCount, b.freeChunks, b.chunkSize);
      MulNonNegative(b.chunkCount - b.freeChunks, b.chunkSize);
    }

    /** Counters over all blocks. */
    method GetStats() returns (stats: Stats)
      requires Valid()
      ensures stats.heapBlocks == |blocks| && stats.freeBytes == totalFreeBytes && stats.totalBytes == SizeSum(blocks)
      ensures stats.freeBytes <= stats.totalBytes
    {
      hide HeapBlock.Valid, AllApart, PowerOfTwo;
      var i := 0;
      stats := Stats(0, 0, 0);
      while i < |blocks|
        invariant i <= |blocks| && stats.heapBlocks == i && stats.freeBytes == FreeSum(blocks[..i])
        invariant stats.freeBytes <= stats.totalBytes == SizeSum(blocks[..i])
      {
        var heap := blocks[i];
        assert blocks[..i + 1] == blocks[..i] + [heap] && blocks[..i + 1][..i] == blocks[..i];
        FreeSumConcat(blocks[..i], [heap]);
        assert FreeSum([heap]) == heap.FreeBytes();
        FreeAtMostAll(heap);
        stats := Stats(stats.heapBlocks + 1, stats.freeBytes + heap.FreeBytes(),
          stats.totalBytes + heap.chunkCount * heap.chunkSize);
        i := i + 1;
      }
      assert blocks[..i] == blocks;
    }
  }
}
