/** The arithmetic of heap blocks: where the bitmap and the chunks of a fed block go, and alignment. */
module HeapLayout {
  import opened Arithmetic

  /** Bytes of a block header on a 64-bit build: five machine words. */
  const HEADER := 40
  const DEFAULT_CHUNK := 32

  datatype Layout = Layout(bitmapBytes: nat, data: nat, chunkCount: nat)

  /** Bytes needed for two bits per chunk. */
  function BitmapBytes(size: nat, chunk: nat): nat
    requires chunk > 0 && size >= HEADER + chunk
  {
    1 + ((size - HEADER) / chunk - 1) / 4
  }

  /** Bytes skipped so that the first chunk starts at a multiple of the chunk size. */
  function Overhead(ptr: nat, size: nat, chunk: nat): nat
    requires chunk > 0 && size >= HEADER + chunk
  {
    var rem := (ptr + HEADER + BitmapBytes(size, chunk)) % chunk;
    if rem != 0 then chunk - rem else 0
  }

  /** The block is large enough for its bitmap; below this the kernel's unsigned sizes wrap. */
  predicate Feedable(ptr: nat, size: nat, chunk: nat) {
    && chunk > 0 && size >= HEADER + chunk
    && BitmapBytes(size, chunk) + Overhead(ptr, size, chunk) <= size - HEADER
  }

  function LayoutOf(ptr: nat, size: nat, chunk: nat): Layout
    requires Feedable(ptr, size, chunk)
  {
    var bitmap := BitmapBytes(size, chunk) + Overhead(ptr, size, chunk);
    var rest := size - HEADER - bitmap;
    DivMul(rest, chunk);
    var pure := if rest % chunk != 0 then rest - rest % chunk else rest;
    Layout(bitmap, ptr + HEADER + bitmap, pure / chunk)
  }

  /**
   Bitmap and chunks lie inside the block, the chunks start aligned, and the bitmap covers them. Less than a chunk is
   lost between the bits the bitmap needs and the chunks, and less than a chunk behind them.
   */
  lemma LayoutFits(ptr: nat, size: nat, chunk: nat)
    requires Feedable(ptr, size, chunk)
    ensures var l := LayoutOf(ptr, size, chunk);
      && l.data == ptr + HEADER + l.bitmapBytes && l.data % chunk == 0
      && l.data + l.chunkCount * chunk <= ptr + size < l.data + l.chunkCount * chunk + chunk
      && 0 <= l.data - (ptr + HEADER + 1 + ((size - HEADER) / chunk - 1) / 4) < chunk
      && l.chunkCount <= 4 * l.bitmapBytes
  {
    var l := LayoutOf(ptr, size, chunk);
    RoundUpMultiple(ptr + HEADER + BitmapBytes(size, chunk), chunk);
    DivMul(size - HEADER - l.bitmapBytes, chunk);
    EnoughIds(size - HEADER, chunk, l.bitmapBytes - BitmapBytes(size, chunk));
  }

  /** A bitmap for the chunks there would be without it suffices for those there are with it. */
  lemma EnoughIds(pure: nat, chunk: nat, over: nat)
    requires chunk > 0 && pure >= chunk
    ensures pure / chunk >= 1
    ensures var bitmap := 1 + (pure / chunk - 1) / 4 + over; bitmap <= pure ==> (pure - bitmap) / chunk <= 4 * bitmap
  {
    DivMonotone(chunk, pure, chunk);
    DivUnique(chunk, chunk, 1, 0);
    var bitmap := 1 + (pure / chunk - 1) / 4 + over;
    if bitmap <= pure { DivMonotone(pure - bitmap, pure, chunk); }
  }

  /** There is an id slot after the last chunk, which no allocation ever uses. */
  predicate HasSpareSlot(l: Layout) {
    l.chunkCount < 4 * l.bitmapBytes
  }

  lemma SpareSlotCount(count: nat, cc: nat, bitmap: nat, over: nat, leftover: nat)
    requires cc > 0 && bitmap == 1 + (cc - 1) / 4 && count <= cc
    requires over == 0 ==> (count < cc <==> bitmap > leftover)
    ensures count < 4 * (bitmap + over) <==> !(over == 0 && cc % 4 == 0 && bitmap <= leftover)
  {
  }

  /** Exactly when the spare slot is missing: nothing was lost to alignment, the bitmap is filled to the
      last bit, and it fits into the bytes that were left over anyway. */
  lemma SpareSlotIff(ptr: nat, size: nat, chunk: nat)
    requires Feedable(ptr, size, chunk)
    ensures HasSpareSlot(LayoutOf(ptr, size, chunk)) <==>
      !(&& Overhead(ptr, size, chunk) == 0
        && (size - HEADER) / chunk % 4 == 0
        && BitmapBytes(size, chunk) <= (size - HEADER) % chunk)
  {
    var pure := size - HEADER;
    var bitmap, over := BitmapBytes(size, chunk), Overhead(ptr, size, chunk);
    DivMul(pure - bitmap - over, chunk);
    DivMonotone(pure - bitmap - over, pure, chunk);
    DivMonotone(chunk, pure, chunk);
    DivUnique(chunk, chunk, 1, 0);
    DivShort(pure, bitmap, chunk);
    SpareSlotCount((pure - bitmap - over) / chunk, pure / chunk, bitmap, over, pure % chunk);
  }

  /** Blocks of at least 125 default-size chunks always have the spare slot. */
  lemma LargeBlocksHaveSpareSlot(ptr: nat, size: nat)
    requires Feedable(ptr, size, DEFAULT_CHUNK) && (size - HEADER) / DEFAULT_CHUNK >= 125
    ensures HasSpareSlot(LayoutOf(ptr, size, DEFAULT_CHUNK))
  {
    SpareSlotIff(ptr, size, DEFAULT_CHUNK);
  }

  /** A small block without one: 32 chunks whose bitmap ends right where the chunks begin. */
  lemma NoSpareSlotExample()
    ensures Feedable(16, 1072, DEFAULT_CHUNK) && !HasSpareSlot(LayoutOf(16, 1072, DEFAULT_CHUNK))
    ensures LayoutOf(16, 1072, DEFAULT_CHUNK) == Layout(8, 64, 32)
  {
  }

  // ---------- alignment ----------

  predicate PowerOfTwo(n: nat)
    decreases n
  {
    n == 1 || (n > 1 && n % 2 == 0 && PowerOfTwo(n / 2))
  }

  ghost function Power(k: nat): nat {
    if k == 0 then 1 else 2 * Power(k - 1)
  }

  lemma {:induction false} PowerPositive(k: nat)
    ensures Power(k) >= 1
  {
    if k > 0 { PowerPositive(k - 1); }
  }

  /** Exactly the products of twos: the numbers with one bit set. */
  lemma {:induction false} PowerOfTwoIff(n: nat)
    ensures PowerOfTwo(n) <==> exists k: nat :: n == Power(k)
    decreases n
  {
    if n > 1 && n % 2 == 0 {
      PowerOfTwoIff(n / 2);
      if PowerOfTwo(n) {
        var k: nat :| n / 2 == Power(k);
        assert n == Power(k + 1);
      }
    }
    if n == 1 { assert n == Power(0); }
    if k: nat :| n == Power(k) {
      PowerPositive(k);
      if k > 0 {
        PowerPositive(k - 1);
        assert n / 2 == Power(k - 1);
      }
    }
  }

  /** The powers of two up to a page. */
  lemma {:induction false} SmallPowers(n: nat)
    requires n <= 4096
    ensures PowerOfTwo(n) <==> n in {1, 2, 4, 8, 16, 32, 64, 128, 256, 512, 1024, 2048, 4096}
    decreases n
  {
    if n > 1 && n % 2 == 0 {
      SmallPowers(n / 2);
    }
  }

  /** The smaller of two powers of two divides the larger. */
  lemma {:induction false} PowersDivide(a: nat, b: nat)
    requires PowerOfTwo(a) && PowerOfTwo(b) && a <= b
    ensures b % a == 0
  {
    if a > 1 {
      PowersDivide(a / 2, b / 2);
      var q := (b / 2) / (a / 2);
      assert b / 2 == q * (a / 2);
      assert b == q * a;
      MulDiv(q, a);
    } else {
      assert b % 1 == 0;
    }
  }

  lemma PowersCompatible(chunk: nat, alignment: nat)
    requires PowerOfTwo(chunk) && PowerOfTwo(alignment)
    ensures Compatible(chunk, alignment)
  {
    if alignment <= chunk { PowersDivide(alignment, chunk); } else { PowersDivide(chunk, alignment); }
  }

  /** The first aligned chunk of a block, in chunks from its start. */
  function FirstAligned(data: nat, chunk: nat, alignment: nat): nat
    requires chunk > 0 && alignment > 0
  {
    if alignment > chunk && data % alignment != 0 then (alignment - data % alignment) / chunk else 0
  }

  /** How many chunks apart aligned chunks are. */
  function Stride(chunk: nat, alignment: nat): nat
    requires chunk > 0
  {
    if alignment / chunk > 1 then alignment / chunk else 1
  }

  ghost predicate AlignedChunk(data: nat, chunk: nat, alignment: nat, k: nat)
    requires alignment > 0
  {
    (data + k * chunk) % alignment == 0
  }

  ghost predicate Compatible(chunk: nat, alignment: nat) {
    chunk > 0 && alignment > 0 && if alignment <= chunk then chunk % alignment == 0 else alignment % chunk == 0
  }

  /** Aligned chunks are those a multiple of the stride after the first aligned one. */
  lemma AlignedIff(data: nat, chunk: nat, alignment: nat, k: nat)
    requires Compatible(chunk, alignment) && data % chunk == 0
    ensures var first, stride := FirstAligned(data, chunk, alignment), Stride(chunk, alignment);
      AlignedChunk(data, chunk, alignment, k) <==> k >= first && (k - first) % stride == 0
  {
    var d := data / chunk;
    assert data == d * chunk;
    assert data + k * chunk == (d + k) * chunk;
    if alignment <= chunk {
      SmallAlignment(d + k, chunk, alignment);
      StrideOne(chunk, alignment);
    } else {
      var a := alignment / chunk;
      assert alignment == a * chunk;
      LargeAlignment(data, d, k, chunk, a, alignment);
    }
  }

  lemma SmallAlignment(x: nat, chunk: nat, alignment: nat)
    requires 0 < alignment <= chunk && chunk % alignment == 0
    ensures (x * chunk) % alignment == 0
  {
    var m := chunk / alignment;
    assert chunk == m * alignment;
    assert x * chunk == (x * m) * alignment;
    MulDiv(x * m, alignment);
  }

  lemma ScaledZero(x: nat, a: nat, c: nat, ac: nat)
    requires a > 0 && c > 0 && ac == a * c
    ensures ac > 0 && ((x * c) % ac == 0 <==> x % a == 0)
  {
    MulGap(a, c);
    ScaledMod(x, a, c);
    MulGap(x % a, c);
  }

  lemma LargeStride(chunk: nat, a: nat, alignment: nat)
    requires chunk > 0 && alignment == a * chunk && alignment > chunk
    ensures a > 1 && Stride(chunk, alignment) == a
  {
    MulGap(1 - a, chunk);
    assert (1 - a) * chunk == chunk - alignment;
    MulDiv(a, chunk);
  }

  lemma LargeAlignment(data: nat, d: nat, k: nat, chunk: nat, a: nat, alignment: nat)
    requires chunk > 0 && alignment == a * chunk && alignment > chunk && data == d * chunk
    ensures var first, stride := FirstAligned(data, chunk, alignment), Stride(chunk, alignment);
      ((d + k) * chunk) % alignment == 0 <==> k >= first && (k - first) % stride == 0
  {
    LargeStride(chunk, a, alignment);
    ScaledZero(d + k, a, chunk, alignment);
    FirstIs(data, chunk, alignment, d, a);
    Residues(d, k, a);
  }

  lemma StrideOne(chunk: nat, alignment: nat)
    requires chunk > 0 && 0 < alignment <= chunk
    ensures Stride(chunk, alignment) == 1
  {
    if alignment < chunk {
      DivUnique(alignment, chunk, 0, alignment);
    } else {
      DivUnique(alignment, chunk, 1, 0);
    }
  }

  lemma FirstIs(data: nat, chunk: nat, alignment: nat, d: nat, a: nat)
    requires chunk > 0 && alignment == a * chunk && a > 1 && data == d * chunk && alignment > chunk
    ensures FirstAligned(data, chunk, alignment) == if d % a != 0 then a - d % a else 0
  {
    ScaledMod(d, a, chunk);
    var r := d % a;
    assert data % alignment == r * chunk;
    if r != 0 {
      MulGap(r, chunk);
      assert alignment - data % alignment == (a - r) * chunk;
      MulDiv(a - r, chunk);
    }
  }

  lemma Residues(d: nat, k: nat, a: nat)
    requires a > 1
    ensures var first := if d % a != 0 then a - d % a else 0;
      (d + k) % a == 0 <==> k >= first && (k - first) % a == 0
  {
    var r := d % a;
    var first := if r != 0 then a - r else 0;
    var q := d / a;
    assert d == q * a + r;
    if k >= first {
      var m, s := (k - first) / a, (k - first) % a;
      assert k - first == m * a + s;
      var w := q + m + (if r != 0 then 1 else 0);
      assert d + k == w * a + s;
      DivUnique(d + k, a, w, s);
    } else {
      assert r + k < a;
      DivUnique(d + k, a, q, r + k);
    }
  }
}
