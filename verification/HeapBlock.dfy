/** One block of the kernel heap: a bitmap of two-bit ids followed by the chunks it describes. */
module HeapBlocks {
  import opened Arithmetic
  import opened HeapRuns
  import opened HeapBitmap
  import opened HeapLayout

  /** `x & ~(m - 1)` for a power of two `m`. */
  function RoundDown(x: nat, m: nat): nat
    requires m > 0
  {
    x - x % m
  }

  ghost predicate IsLeastFresh(left: Id, right: Id, id: Id) {
    && id != 0 && id != left && id != right
    && (id > 1 ==> left == 1 || right == 1) && (id > 2 ==> left == 2 || right == 2)
  }

  /** The smallest non-zero id that neither neighbour has. */
  method FreshId(left: Id, right: Id) returns (id: Id)
    ensures IsLeastFresh(left, right, id)
  {
    var candidate := 0;
    while candidate == left || candidate == right || candidate == 0
      invariant 0 <= candidate <= 3
      invariant candidate >= 2 ==> left == candidate - 1 || right == candidate - 1
      invariant candidate == 3 ==> (left == 1 && right == 2) || (left == 2 && right == 1)
      decreases 3 - candidate
    {
      candidate := candidate + 1;
    }
    id := candidate;
  }

  /** Clears the slot at bit `i`, whose id is `id`. */
  method ClearSlot(memory: array<bv8>, i: nat, id: Id, ghost ids: seq<Id>)
    requires Decodes(memory[..], ids) && i % 2 == 0 && i / 2 < |ids| && ids[i / 2] == id
    modifies memory
    ensures Decodes(memory[..], ids[i / 2 := 0])
    ensures forall j :: 0 <= j < memory.Length && j != i / 8 ==> memory[j] == old(memory[j])
  {
    hide Decodes, Slot, Field, Shifted, IdBits;
    ghost var bytes := memory[..];
    XorAtBit(bytes, ids, i);
    var byteIndex := i / 8;
    var field := (i - 8 * byteIndex) / 2;
    memory[byteIndex] := memory[byteIndex] ^ Shifted(IdBits(id), field);
    assert memory[..] == bytes[byteIndex := bytes[byteIndex] ^ Shifted(IdBits(id), field)];
  }

  method SlotAt(memory: array<bv8>, i: nat, ghost ids: seq<Id>) returns (id: Id)
    requires Decodes(memory[..], ids) && i % 2 == 0 && i / 2 < |ids|
    ensures id == ids[i / 2]
  {
    BitLocation(i);
    assert ids[i / 2] == Slot(memory[..], i / 2);
    var byteIndex := i / 8;
    id := Field(memory[byteIndex], (i - 8 * byteIndex) / 2);
  }

  /**
   The loop of a free: clears ids chunk by chunk until a different one follows, in whatever memory starts with the
   bitmap. It knows nothing of where the bitmap ends.
   */
  method ClearFrom(memory: array<bv8>, atBit: nat, ghost ids: seq<Id>) returns (freed: nat, ghost after: seq<Id>)
    requires Decodes(memory[..], ids) && atBit % 2 == 0 && atBit / 2 < |ids| && ids[atBit / 2] != 0
    requires exists e :: atBit / 2 < e < |ids| && ids[e] != ids[atBit / 2]
    modifies memory
    ensures freed > 0 && IsRun(ids, atBit / 2, atBit / 2 + freed)
    ensures after == Marked(ids, atBit / 2, atBit / 2 + freed, 0) && Decodes(memory[..], after)
    ensures forall j :: 0 <= j < memory.Length && atBit / 2 + freed <= 4 * j ==> memory[j] == old(memory[j])
  {
    hide Decodes, Marked, IsRun;
    ghost var at := atBit / 2;
    ghost var stop :| at < stop < |ids| && ids[stop] != ids[at];
    var id: Id := 0;
    var i := atBit;
    freed, after := 0, ids;
    MarkedNothing(ids, at);
    while true
      invariant Decodes(memory[..], after) && |after| == |ids| && i == atBit + 2 * freed && at + freed <= stop
      invariant after == Marked(ids, at, at + freed, 0)
      invariant forall j :: at <= j < at + freed ==> ids[j] == ids[at]
      invariant id == if freed == 0 then 0 else ids[at]
      invariant forall j :: 0 <= j < memory.Length && at + freed <= 4 * j ==> memory[j] == old(memory[j])
      decreases stop - freed
    {
      MarkedNext(ids, at, at + freed);
      var here := SlotAt(memory, i, after);
      if id == 0 {
        id := here;
      } else if here != id {
        RunIs(ids, at, at + freed);
        break;
      }
      ClearSlot(memory, i, id, after);
      after := after[i / 2 := 0];
      freed := freed + 1;
      i := i + 2;
    }
  }

  class HeapBlock {
    const base: nat
    const data: nat
    const chunkCount: nat
    const chunkSize: nat
    const bitmap: array<bv8>
    var freeChunks: nat
    /** The allocations handed out and not yet freed: first chunk to number of chunks. */
    ghost var live: map<nat, nat>

    /** The ids in the bitmap, one per slot. */
    ghost var slots: seq<Id>

    /** The ids of the chunks. */
    ghost function Ids(): seq<Id>
      requires chunkCount <= |slots|
      reads `slots
    {
      slots[..chunkCount]
    }

    /** The header, bitmap and chunks have their places, and there is a slot after the last chunk. */
    ghost predicate Shaped() {
      && chunkSize > 0 && data % chunkSize == 0
      && data == base + HEADER + bitmap.Length
      && chunkCount < 4 * bitmap.Length
    }

    ghost predicate Decoded()
      reads `slots, bitmap
    {
      |slots| == 4 * bitmap.Length && Decodes(bitmap[..], slots)
    }

    /** The ids decode into exactly the live allocations; unused slots are zero; the count is right. */
    ghost predicate Valid()
      reads this, bitmap
    {
      && Shaped() && Decoded()
      && Uniform(slots, chunkCount, |slots|, 0)
      && freeChunks == Zeros(Ids())
      && live == Runs(Ids())
    }

    /** Every whole chunk behind the bitmap is there and free. */
    constructor (ptr: nat, size: nat, chunk: nat)
      requires Feedable(ptr, size, chunk) && HasSpareSlot(LayoutOf(ptr, size, chunk))
      ensures Valid() && live == map[] && freeChunks == chunkCount && fresh(bitmap)
      ensures base == ptr && chunkSize == chunk && End() <= ptr + size < End() + chunk
      ensures 0 <= data - (ptr + HEADER + 1 + ((size - HEADER) / chunk - 1) / 4) < chunk
    {
      var layout := LayoutOf(ptr, size, chunk);
      LayoutFits(ptr, size, chunk);
      base, data, chunkCount, chunkSize := ptr, layout.data, layout.chunkCount, chunk;
      freeChunks := layout.chunkCount;
      bitmap := new bv8[layout.bitmapBytes](_ => 0);
      live := map[];
      slots := seq(4 * layout.bitmapBytes, _ => 0);
      new;
      ZeroDecodes(bitmap[..], slots);
      ZerosUniform(Ids(), 0);
    }

    function End(): nat {
      data + chunkCount * chunkSize
    }

    function FreeBytes(): nat
      reads this
    {
      freeChunks * chunkSize
    }

    predicate Contains(ptr: nat) {
      data <= ptr <= End()
    }

    function WhichBit(ptr: nat): nat
      requires chunkSize > 0 && ptr >= data
    {
      (ptr - data) / chunkSize * 2
    }

    /** The id of the slot at bit `i`. */
    method IdAt(i: nat) returns (id: Id)
      requires Decoded() && i % 2 == 0 && i / 2 < |slots|
      ensures id == slots[i / 2]
    {
      id := SlotAt(bitmap, i, slots);
    }

    // ---------- looking for room ----------

    ghost predicate Vacant(a: nat, b: nat)
      requires chunkCount <= |slots|
      reads `slots
    {
      a <= b <= chunkCount && Uniform(Ids(), a, b, 0)
    }

    /** A run of `needed` free chunks could be handed out at chunk `k`. */
    ghost predicate Suitable(k: nat, needed: nat, alignment: nat)
      reads `slots
    {
      chunkCount <= |slots| && alignment > 0 && Vacant(k, k + needed) && AlignedChunk(data, chunkSize, alignment, k)
    }

    /** The lowest such chunk. */
    ghost predicate FirstFit(k: nat, needed: nat, alignment: nat)
      reads `slots
    {
      Suitable(k, needed, alignment) && forall j: nat :: j < k ==> !Suitable(j, needed, alignment)
    }

    lemma FitIs(k: nat, needed: nat, alignment: nat)
      requires FirstFit(k, needed, alignment)
      ensures chunkCount <= |slots| && alignment > 0
      ensures Vacant(k, k + needed) && (data + k * chunkSize) % alignment == 0
    {
    }

    /** The block has no suitable run for `bytes` bytes. */
    ghost predicate Full(bytes: nat, alignment: nat)
      reads `slots
    {
      && chunkCount <= |slots| && alignment > 0 && bytes > 0 && chunkSize > 0
      && var needed := 1 + (bytes - 1) / chunkSize;
         forall k: nat :: !Suitable(k, needed, alignment)
    }

    /** Bit offset of the first aligned chunk, and bits from one aligned chunk to the next. */
    method AlignmentInBits(alignment: nat) returns (offset: nat, bitsPerAligned: nat)
      requires Shaped() && Compatible(chunkSize, alignment)
      ensures offset == 2 * FirstAligned(data, chunkSize, alignment)
      ensures bitsPerAligned == 2 * Stride(chunkSize, alignment)
    {
      bitsPerAligned := if alignment / chunkSize * 2 > 2 then alignment / chunkSize * 2 else 2;
      offset := 0;
      if alignment > chunkSize {
        var rem := data % alignment;
        if rem != 0 {
          offset := (alignment - rem) / chunkSize * 2;
        }
      }
    }

    /** Whether chunk `p`, at bit `i`, is free. */
    method IsFree(i: nat, ghost p: nat) returns (free: bool)
      requires Valid() && i == 2 * p && p < chunkCount
      ensures free <==> Ids()[p] == 0
    {
      hide Decodes, Runs, Zeros;
      var id := IdAt(i);
      free := id == 0;
    }

    /** Past an occupied chunk `p`, at bit `i`: on to the first lane a run could still start at. */
    method PassOccupied(i: nat, ghost start: nat, ghost p: nat, needed: nat, offset: nat, bitsPerAligned: nat,
      ghost lane: iset<nat>)
        returns (next: nat)
      requires chunkCount <= |slots| && Lanes(lane, offset, bitsPerAligned) && NoneBelow(Ids(), start, needed, lane)
      requires start in lane
      requires i == 2 * p && start <= p < chunkCount && p - start < needed && Ids()[p] != 0
      ensures next % 2 == 0 && next > i && next / 2 in lane && NoneBelow(Ids(), next / 2, needed, lane)
    {
      LaneStart(lane, offset, bitsPerAligned, start);
      next := SkipOccupied(i, offset, bitsPerAligned);
      NextLane(Ids(), start, p, next, needed, offset, bitsPerAligned, lane);
    }

    lemma SlotsSuffice()
      requires Valid()
      ensures chunkCount < |slots|
    {
    }

    /** The scan for free chunks: the lowest run on a lane, if the block has any. */
    method Scan(needed: nat, offset: nat, bitsPerAligned: nat, ghost lane: iset<nat>) returns (found: bool, atBit: nat)
      requires Valid() && needed > 0 && Lanes(lane, offset, bitsPerAligned)
      ensures found ==>
        atBit % 2 == 0 && Fits(Ids(), atBit / 2, needed, lane) && NoneBelow(Ids(), atBit / 2, needed, lane)
      ensures !found ==> forall k: nat :: !Fits(Ids(), k, needed, lane)
    {
      hide Valid, Lanes, NoneBelow, Fits, FreeBetween;
      SlotsSuffice();
      LaneStart(lane, offset, bitsPerAligned, offset / 2);
      ghost var ids := Ids();
      var currentFree := 0;
      atBit := 0;
      found := false;
      var i := offset;
      ghost var start := offset / 2;
      FirstLane(ids, needed, offset, bitsPerAligned, lane);
      NothingBetweenYet(ids, start);
      while i < chunkCount * 2
        invariant i == 2 * (start + currentFree) && 0 <= currentFree < needed
        invariant currentFree > 0 ==> atBit == 2 * start && start + currentFree <= chunkCount
        invariant FreeBetween(ids, start, start + currentFree)
        invariant start in lane && NoneBelow(ids, start, needed, lane)
      {
        ghost var p := start + currentFree;
        var free := IsFree(i, p);
        if !free {
          currentFree, atBit := 0, 0;
          i := PassOccupied(i, start, p, needed, offset, bitsPerAligned, lane);
          start := i / 2;
          NothingBetweenYet(ids, start);
          continue;
        }
        OneMoreFree(ids, start, p);
        currentFree := currentFree + 1;
        if currentFree == 1 {
          atBit := i;
        }
        if currentFree == needed {
          FitsHere(ids, start, needed, lane);
          found := true;
          return;
        }
        i := i + 2;
      }
      NoneLeft(ids, start, needed, lane);
    }

    /** The lowest suitable run of free chunks, if the block has any. */
    method FindRun(needed: nat, alignment: nat) returns (found: bool, atBit: nat)
      requires Valid() && needed > 0 && Compatible(chunkSize, alignment)
      ensures found ==> atBit % 2 == 0 && Suitable(atBit / 2, needed, alignment)
      ensures found ==> forall k: nat :: k < atBit / 2 ==> !Suitable(k, needed, alignment)
      ensures !found ==> forall k: nat :: !Suitable(k, needed, alignment)
    {
      hide Decodes, Runs, Zeros, Lanes, Fits, NoneBelow, AlignedChunk;
      var offset, bitsPerAligned := AlignmentInBits(alignment);
      ghost var lane := AlignedLane(data, chunkSize, alignment, offset, bitsPerAligned);
      found, atBit := Scan(needed, offset, bitsPerAligned, lane);
      SuitableFits(needed, alignment, lane);
      if found { NoneBelowIs(Ids(), atBit / 2, needed, lane); }
    }

    lemma SuitableFits(needed: nat, alignment: nat, lane: iset<nat>)
      requires chunkCount <= |slots| && alignment > 0 &&
        forall k: nat :: k in lane <==> AlignedChunk(data, chunkSize, alignment, k)
      ensures forall k: nat :: Suitable(k, needed, alignment) <==> Fits(Ids(), k, needed, lane)
    {
    }

    // ---------- taking and giving back ----------

    /** Writes `id` into the empty slot at bit `i`. */
    method SetId(i: nat, id: Id)
      requires Decoded() && i % 2 == 0 && i / 2 < |slots| && slots[i / 2] == 0
      modifies bitmap, `slots
      ensures Decoded() && slots == old(slots)[i / 2 := id]
    {
      hide Decodes, Slot, Field, Shifted, IdBits;
      ghost var bytes := bitmap[..];
      OrAtBit(bytes, slots, i, id);
      var byteIndex := i / 8;
      var field := (i - 8 * byteIndex) / 2;
      bitmap[byteIndex] := bitmap[byteIndex] | Shifted(IdBits(id), field);
      slots := slots[i / 2 := id];
      assert bitmap[..] == bytes[byteIndex := bytes[byteIndex] | Shifted(IdBits(id), field)];
    }

    /** Marks free chunks as one allocation. */
    method Mark(atBit: nat, needed: nat, id: Id)
      requires Decoded() && atBit % 2 == 0 && atBit / 2 + needed <= |slots|
      requires Uniform(slots, atBit / 2, atBit / 2 + needed, 0)
      modifies bitmap, `slots
      ensures Decoded() && slots == Marked(old(slots), atBit / 2, atBit / 2 + needed, id)
    {
      ghost var at := atBit / 2;
      var i := 0;
      while i < needed * 2
        invariant i % 2 == 0 && i <= needed * 2 && Decoded()
        invariant slots == Marked(old(slots), at, at + i / 2, id)
      {
        SetId(atBit + i, id);
        i := i + 2;
      }
    }

    /** The id a new allocation at `atBit` gets. */
    method ChooseId(atBit: nat, chunksNeeded: nat) returns (id: Id)
      requires Valid() && atBit % 2 == 0 && chunksNeeded > 0 && atBit / 2 + chunksNeeded <= chunkCount
      ensures Distinct(Ids(), atBit / 2, atBit / 2 + chunksNeeded, id)
      ensures IsLeastFresh(if atBit > 0 then slots[atBit / 2 - 1] else 0, slots[atBit / 2 + chunksNeeded], id)
    {
      var left, right: Id := 0, 0;
      if atBit != 0 {
        left := IdAt(atBit - 2);
      }
      if atBit / 2 < chunkCount {
        right := IdAt(atBit + chunksNeeded * 2);
      }
      id := FreshId(left, right);
    }

    /** Turns a free run into a live allocation. */
    method Commit(atBit: nat, chunksNeeded: nat)
      requires Valid() && atBit % 2 == 0 && chunksNeeded > 0 && Vacant(atBit / 2, atBit / 2 + chunksNeeded)
      modifies this, bitmap
      ensures Valid() && atBit / 2 !in old(live)
      ensures live == old(live)[atBit / 2 := chunksNeeded] && freeChunks == old(freeChunks) - chunksNeeded
    {
      hide Decodes, Runs, Zeros, Distinct, Uniform, Marked;
      ghost var at := atBit / 2;
      var id := ChooseId(atBit, chunksNeeded);
      CommitIds(slots, chunkCount, at, at + chunksNeeded, id);
      Mark(atBit, chunksNeeded, id);
      freeChunks := freeChunks - chunksNeeded;
      live := live[at := chunksNeeded];
    }

    /** Skipping a block by its free bytes loses nothing. */
    lemma TooFew(bytes: nat, alignment: nat)
      requires Valid() && bytes > 0 && alignment > 0 && FreeBytes() < bytes
      ensures var needed := 1 + (bytes - 1) / chunkSize; forall k: nat :: !Suitable(k, needed, alignment)
    {
      var needed := 1 + (bytes - 1) / chunkSize;
      assert freeChunks < needed by {
        assert bytes - 1 == (bytes - 1) / chunkSize * chunkSize + (bytes - 1) % chunkSize;
        assert (freeChunks - needed) * chunkSize
            == freeChunks * chunkSize - ((bytes - 1) / chunkSize * chunkSize + chunkSize);
        MulGap(freeChunks - needed, chunkSize);
      }
      forall k: nat ensures !Suitable(k, needed, alignment) { ZerosAtLeast(Ids(), k, k + needed); }
    }

    /** The lowest suitable run of chunks for `bytes` bytes; a block is passed over only if it has none. */
    method FindRoom(bytes: nat, alignment: nat) returns (found: bool, atBit: nat, chunksNeeded: nat)
      requires Valid() && bytes > 0 && Compatible(chunkSize, alignment)
      ensures chunksNeeded == 1 + (bytes - 1) / chunkSize
      ensures found ==> atBit % 2 == 0 && FirstFit(atBit / 2, chunksNeeded, alignment)
      ensures !found ==> forall k: nat :: !Suitable(k, chunksNeeded, alignment)
    {
      chunksNeeded := 1 + (bytes - 1) / chunkSize;
      if FreeBytes() < bytes {
        TooFew(bytes, alignment);
        return false, 0, chunksNeeded;
      }
      found, atBit := FindRun(chunksNeeded, alignment);
    }

    /** Hands out the lowest suitable chunks for `bytes` bytes, or reports that there is no room for them. */
    method Allocate(bytes: nat, alignment: nat) returns (ok: bool, address: nat, ghost at: nat, ghost needed: nat)
      requires Valid() && bytes > 0 && Compatible(chunkSize, alignment)
      modifies this, bitmap
      ensures Valid() && needed == 1 + (bytes - 1) / chunkSize
      ensures ok ==>
        old(FirstFit(at, needed, alignment)) && address == data + at * chunkSize && address % alignment == 0
      ensures ok ==> at !in old(live) && live == old(live)[at := needed] && freeChunks == old(freeChunks) - needed
      ensures !ok ==> unchanged(this) && unchanged(bitmap) && Full(bytes, alignment)
    {
      hide Suitable, FirstFit, Decodes, Uniform, Zeros, Runs;
      var atBit, chunksNeeded;
      ok, atBit, chunksNeeded := FindRoom(bytes, alignment);
      if ok { FitIs(atBit / 2, chunksNeeded, alignment); }
      at, needed, address := atBit / 2, chunksNeeded, 0;
      if ok {
        address := data + atBit / 2 * chunkSize;
        Commit(atBit, chunksNeeded);
      }
    }

    /** The chunk at `ptr` is part of an allocation. */
    ghost predicate InUse(ptr: nat)
      reads `slots
    {
      chunkSize > 0 && data <= ptr && (ptr - data) / chunkSize < chunkCount <= |slots| &&
        slots[(ptr - data) / chunkSize] != 0
    }

    /** Clears the ids of one allocation and counts its chunks. */
    method ClearRun(atBit: nat) returns (freed: nat)
      requires Decoded() && atBit % 2 == 0 && atBit / 2 < chunkCount < |slots|
      requires slots[atBit / 2] != 0 && slots[chunkCount] == 0
      modifies bitmap, `slots, `freeChunks
      ensures Decoded() && freed > 0 && IsRun(old(slots), atBit / 2, atBit / 2 + freed)
      ensures slots == Marked(old(slots), atBit / 2, atBit / 2 + freed, 0) && freeChunks == old(freeChunks) + freed
    {
      ghost var after;
      freed, after := ClearFrom(bitmap, atBit, slots);
      slots := after;
      freeChunks := freeChunks + freed;
    }

    /** Gives the allocation at `ptr` back; an address whose chunk is free already is a double free. */
    method Free(ptr: nat) returns (ok: bool, freed: nat)
      requires Valid() && Contains(ptr)
      modifies this, bitmap
      ensures var k := (ptr - data) / chunkSize;
        && (ok <==> k < chunkCount && old(Ids())[k] != 0) && ok == old(InUse(ptr))
        && (ok ==>
          Valid() && freed == RunEnd(old(Ids()), k) - k && Ids() == Marked(old(Ids()), k, RunEnd(old(Ids()), k), 0))
        && (k in old(live) ==> ok && freed == old(live)[k] && live == old(live) - {k})
      ensures ok ==> freeChunks == old(freeChunks) + freed
      ensures !ok ==> freed == 0 && unchanged(this) && unchanged(bitmap)
    {
      var atBit := WhichBit(ptr);
      ghost var k := (ptr - data) / chunkSize;
      assert k <= chunkCount by { ChunkOf(ptr); }
      freed := 0;
      var id := IdAt(atBit);
      if id == 0 {
        return false, 0;
      }
      freed := ClearRun(atBit);
      ok := true;
      FreedRun(old(slots), chunkCount, k, k + freed);
      live := Runs(Ids());
    }

    lemma ChunkOf(ptr: nat)
      requires chunkSize > 0 && Contains(ptr)
      ensures (ptr - data) / chunkSize <= chunkCount
    {
      DivMonotone(ptr - data, chunkCount * chunkSize, chunkSize);
      MulDiv(chunkCount, chunkSize);
    }
  }

  /** What clearing a run does to the chunks' ids. */
  lemma FreedRun(s: seq<Id>, n: nat, k: nat, e: nat)
    requires k < n < |s| && s[k] != 0 && Uniform(s, n, |s|, 0) && IsRun(s, k, e)
    ensures e <= n && e == RunEnd(s[..n], k)
    ensures Marked(s, k, e, 0)[..n] == Marked(s[..n], k, e, 0) && Uniform(Marked(s, k, e, 0), n, |s|, 0)
    ensures Zeros(Marked(s[..n], k, e, 0)) == Zeros(s[..n]) + (e - k)
    ensures k in Runs(s[..n]) ==> Runs(Marked(s[..n], k, e, 0)) == Runs(s[..n]) - {k} && Runs(s[..n])[k] == e - k
  {
    assert s[n] == 0;
    assert e <= n;
    assert IsRun(s[..n], k, e);
    RunUnique(s[..n], k, e, RunEnd(s[..n], k));
    MarkedPrefix(s, n, k, e, 0);
    ZerosMarked(s[..n], k, e, s[k], 0);
    if k in Runs(s[..n]) { ClearRemovesRun(s[..n], k); }
  }

  // ---------- lanes ----------

  /** The chunks an aligned run may start at. */
  ghost predicate Lanes(lane: iset<nat>, offset: nat, bitsPerAligned: nat) {
    && offset % 2 == 0 && bitsPerAligned % 2 == 0 && bitsPerAligned > 0
    && forall k: nat :: k in lane <==> k >= offset / 2 && (k - offset / 2) % (bitsPerAligned / 2) == 0
  }

  lemma LaneStart(lane: iset<nat>, offset: nat, bitsPerAligned: nat, start: nat)
    requires Lanes(lane, offset, bitsPerAligned)
    ensures offset % 2 == 0 && bitsPerAligned % 2 == 0 && bitsPerAligned > 0
    ensures start in lane ==> offset / 2 <= start
  {
  }

  ghost predicate Fits(s: seq<Id>, k: nat, needed: nat, lane: iset<nat>) {
    k in lane && k + needed <= |s| && Uniform(s, k, k + needed, 0)
  }

  ghost predicate NoneBelow(s: seq<Id>, start: nat, needed: nat, lane: iset<nat>) {
    forall k: nat :: k < start ==> !Fits(s, k, needed, lane)
  }

  lemma NoneBelowIs(s: seq<Id>, start: nat, needed: nat, lane: iset<nat>)
    requires NoneBelow(s, start, needed, lane)
    ensures forall k: nat :: k < start ==> !Fits(s, k, needed, lane)
  {
  }

  /** The aligned chunks are the ones the scan visits. */
  lemma AlignedLane(data: nat, chunkSize: nat, alignment: nat, offset: nat, bitsPerAligned: nat)
    returns (lane: iset<nat>)
    requires chunkSize > 0 && data % chunkSize == 0 && Compatible(chunkSize, alignment)
    requires offset == 2 * FirstAligned(data, chunkSize, alignment)
    requires bitsPerAligned == 2 * Stride(chunkSize, alignment)
    ensures Lanes(lane, offset, bitsPerAligned) &&
      forall k: nat :: k in lane <==> AlignedChunk(data, chunkSize, alignment, k)
  {
    lane := iset k: nat | AlignedChunk(data, chunkSize, alignment, k);
    forall k: nat ensures k in lane <==> k >= offset / 2 && (k - offset / 2) % (bitsPerAligned / 2) == 0 {
      AlignedIff(data, chunkSize, alignment, k);
    }
  }

  /** Chunks from `a` up to `b` that exist are free. */
  ghost predicate FreeBetween(s: seq<Id>, a: nat, b: nat) {
    forall j :: a <= j < b && j < |s| ==> s[j] == 0
  }

  lemma NothingBetweenYet(s: seq<Id>, a: nat)
    ensures FreeBetween(s, a, a)
  {
  }

  lemma OneMoreFree(s: seq<Id>, a: nat, b: nat)
    requires FreeBetween(s, a, b) && b < |s| && s[b] == 0
    ensures FreeBetween(s, a, b + 1)
  {
  }

  lemma FitsHere(s: seq<Id>, k: nat, needed: nat, lane: iset<nat>)
    requires k in lane && k + needed <= |s| && FreeBetween(s, k, k + needed)
    ensures Fits(s, k, needed, lane)
  {
  }

  lemma NoneLeft(s: seq<Id>, start: nat, needed: nat, lane: iset<nat>)
    requires NoneBelow(s, start, needed, lane) && |s| < start + needed
    ensures forall k: nat :: !Fits(s, k, needed, lane)
  {
  }

  lemma FirstLane(s: seq<Id>, needed: nat, offset: nat, bitsPerAligned: nat, lane: iset<nat>)
    requires Lanes(lane, offset, bitsPerAligned)
    ensures offset / 2 in lane && NoneBelow(s, offset / 2, needed, lane)
  {
  }

  /** Where the scan goes on after an occupied chunk at bit `i`. */
  method SkipOccupied(i: nat, offset: nat, bitsPerAligned: nat) returns (next: nat)
    requires offset % 2 == 0 && bitsPerAligned % 2 == 0 && bitsPerAligned > 0 && i % 2 == 0 && i >= offset
    ensures next == JumpTo(i, offset, bitsPerAligned)
  {
    next := i;
    // skip alignment bits ahead
    if bitsPerAligned > 2 {
      next := next - offset;
      next := RoundDown(next + bitsPerAligned, bitsPerAligned);
      next := next + offset;
      next := next - 2;
    }
    next := next + 2;
  }

  ghost function JumpTo(i: nat, offset: nat, bitsPerAligned: nat): nat
    requires i >= offset && bitsPerAligned > 0
  {
    if bitsPerAligned > 2 then RoundDown(i - offset + bitsPerAligned, bitsPerAligned) + offset else i + 2
  }

  /** The jump lands on the first lane after the occupied chunk. */
  lemma Jump(p: nat, first: nat, stride: nat)
    requires stride > 0 && first <= p
    ensures var i := JumpTo(2 * p, 2 * first, 2 * stride);
      && i % 2 == 0 && i / 2 == first + ((p - first) / stride + 1) * stride && p < i / 2
      && (i / 2 - first) % stride == 0
  {
    var i := JumpTo(2 * p, 2 * first, 2 * stride);
    var q, r := (p - first) / stride, (p - first) % stride;
    assert p - first == q * stride + r;
    if stride > 1 {
      assert 2 * (p - first) + 2 * stride == (q + 1) * (2 * stride) + 2 * r;
      DivUnique(2 * (p - first) + 2 * stride, 2 * stride, q + 1, 2 * r);
      assert i == 2 * ((q + 1) * stride) + 2 * first;
    }
    assert (q + 1) * stride == q * stride + stride;
    MulDiv(q + 1, stride);
  }

  /** An occupied chunk `p` rules out every lane from `start` up to the one the scan jumps to. */
  lemma NextLane(s: seq<Id>, start: nat, p: nat, i: nat, needed: nat, offset: nat, bitsPerAligned: nat, lane: iset<nat>)
    requires Lanes(lane, offset, bitsPerAligned) && NoneBelow(s, start, needed, lane) && start in lane
    requires start <= p < |s| && p - start < needed && s[p] != 0 && i == JumpTo(2 * p, offset, bitsPerAligned)
    ensures i % 2 == 0 && p < i / 2 && i / 2 in lane && NoneBelow(s, i / 2, needed, lane)
  {
    var first, stride := offset / 2, bitsPerAligned / 2;
    Jump(p, first, stride);
    forall k: nat | k < i / 2 ensures !Fits(s, k, needed, lane) {
      if start <= k && k in lane {
        LastMultiple(k - first, p - first, stride);
        assert k <= p < k + needed;
      }
    }
  }

  /** Between a number and the next multiple above it there is no multiple. */
  lemma LastMultiple(k: nat, p: nat, m: nat)
    requires m > 0 && k % m == 0 && k < (p / m + 1) * m
    ensures k <= p
  {
    assert k == k / m * m && p == p / m * m + p % m;
    assert (p / m - k / m) * m == p / m * m - k / m * m;
    assert (p / m + 1 - k / m) * m == (p / m + 1) * m - k / m * m;
    MulGap(p / m - k / m, m);
    MulGap(p / m + 1 - k / m, m);
  }

  /** Marking free chunks with an id of their own adds one allocation. */
  lemma CommitIds(slots: seq<Id>, n: nat, a: nat, b: nat, id: Id)
    requires a < b <= n <= |slots| && Uniform(slots[..n], a, b, 0) && Distinct(slots[..n], a, b, id)
    requires Uniform(slots, n, |slots|, 0)
    ensures Uniform(slots, a, b, 0)
    ensures var t := Marked(slots, a, b, id);
      && Uniform(t, n, |t|, 0) && a !in Runs(slots[..n]) && Runs(t[..n]) == Runs(slots[..n])[a := b - a]
      && Zeros(t[..n]) == Zeros(slots[..n]) - (b - a)
  {
    hide Runs, Zeros;
    var s := slots[..n];
    assert forall j :: 0 <= j < n ==> s[j] == slots[j];
    assert id != 0;
    MarkAddsRun(s, a, b, id);
    ZerosMarked(s, a, b, 0, id);
    MarkedPrefix(slots, n, a, b, id);
  }

  // ---------- blocks without a spare slot ----------

  /**
   The same loop in a block whose chunks fill the bitmap, for an allocation that reaches the last chunk; `memory` is
   the bitmap and the chunks behind it. It frees that allocation and nothing else, and leaves the chunks alone,
   exactly when the first byte of the chunks does not look like the allocation's id.
   */
  method FreeWithoutSpareSlot(memory: array<bv8>, bitmapBytes: nat, k: nat, ghost ids: seq<Id>) returns (freed: nat)
    requires Decodes(memory[..], ids) && k < 4 * bitmapBytes && bitmapBytes < memory.Length
    requires ids[k] != 0 && forall j :: k <= j < 4 * bitmapBytes ==> ids[j] == ids[k]
    requires exists e :: k < e < |ids| && ids[e] != ids[k]
    modifies memory
    ensures freed == 4 * bitmapBytes - k <==> Field(old(memory[bitmapBytes]), 0) != ids[k]
    ensures memory[bitmapBytes..] == old(memory[bitmapBytes..]) <==> Field(old(memory[bitmapBytes]), 0) != ids[k]
  {
    ghost var n, bytes := 4 * bitmapBytes, memory[..];
    assert ids[n] == Slot(bytes, n) == Field(bytes[bitmapBytes], 0);
    ghost var after;
    freed, after := ClearFrom(memory, 2 * k, ids);
    hide Field;
    assert after[n] == Slot(memory[..], n) == Field(memory[bitmapBytes], 0);
    if k + freed == n {
      assert memory[bitmapBytes..] == bytes[bitmapBytes..];
    } else {
      assert after[n] == 0;
      assert memory[bitmapBytes..][0] != bytes[bitmapBytes..][0];
    }
  }

  /**
   An aligned block of 32 chunks without a spare slot, all of it one allocation whose first byte repeats the bitmap:
   freeing it counts 36 chunks and clears that byte.
   */
  method WrongFreeExample() returns (memory: array<bv8>, freed: nat)
    ensures var l := LayoutOf(16, 1072, DEFAULT_CHUNK);
      !HasSpareSlot(l) && l.chunkCount == 32 && l.bitmapBytes == 8 && l.data % DEFAULT_CHUNK == 0
    ensures freed == 36 && memory.Length == 10 && memory[8] == 0
  {
    hide Decodes, LayoutOf, IsRun, Marked;
    NoSpareSlotExample();
    memory := new bv8[10](i => if i < 9 then 0x55 else 0);
    PatternDecodes(memory[..]);
    PatternRun();
    ghost var after;
    freed, after := ClearFrom(memory, 0, Pattern());
    RunUnique(Pattern(), 0, 36, freed);
    PatternCleared(memory[..], after);
  }

  /** The ids of nine bytes that read 1 in every field, and of an empty one. */
  ghost function Pattern(): seq<Id> {
    seq(40, i => if 0 <= i < 36 then 1 else 0)
  }

  lemma PatternDecodes(bytes: seq<bv8>)
    requires |bytes| == 10 && (forall j :: 0 <= j < 9 ==> bytes[j] == 0x55) && bytes[9] == 0
    ensures Decodes(bytes, Pattern())
  {
    forall k | 0 <= k < 40 ensures Pattern()[k] == Slot(bytes, k) { PatternField(bytes[k / 4], k % 4); }
  }

  lemma PatternField(b: bv8, field: nat)
    requires field < 4
    ensures (b == 0x55 ==> Field(b, field) == 1) && (b == 0 ==> Field(b, field) == 0)
  {
  }

  lemma PatternRun()
    ensures IsRun(Pattern(), 0, 36) && Pattern()[36] != Pattern()[0] && Pattern()[0] != 0
  {
  }

  lemma PatternCleared(bytes: seq<bv8>, ids: seq<Id>)
    requires |bytes| == 10 && Decodes(bytes, ids) && ids == Marked(Pattern(), 0, 36, 0)
    ensures bytes[8] == 0
  {
    assert Slot(bytes, 32) == 0 && Slot(bytes, 33) == 0 && Slot(bytes, 34) == 0 && Slot(bytes, 35) == 0;
    EmptyByte(bytes[8]);
  }

  lemma EmptyByte(b: bv8)
    requires Field(b, 0) == 0 && Field(b, 1) == 0 && Field(b, 2) == 0 && Field(b, 3) == 0
    ensures b == 0
  {
  }
}
