/** How filesystem blocks, device sectors and cache units of at least 4K map onto each other. */
module DiskGeometry {
  import opened Arithmetic
  import opened Common

  /** Sizes in bytes: a filesystem block, a device sector, a cache unit; and blocks per cache unit. */
  datatype Geometry = Geometry(fsBlock: nat, sector: nat, io: nat, perIo: nat)

  /** Block sizes the cache works for: a multiple of a page, or a divisor of it. */
  predicate Supported(fsBlock: nat, sector: nat) {
    && (sector == 512 || sector == 4096)
    && fsBlock > 0 && (if fsBlock >= PAGE_SIZE then fsBlock % PAGE_SIZE == 0 else PAGE_SIZE % fsBlock == 0)
  }

  function GeometryOf(fsBlock: nat, sector: nat): Geometry
    requires Supported(fsBlock, sector)
  {
    var io := if fsBlock >= PAGE_SIZE then fsBlock else PAGE_SIZE;
    Geometry(fsBlock, sector, io, io / fsBlock)
  }

  ghost predicate Sound(g: Geometry) {
    Supported(g.fsBlock, g.sector) && g == GeometryOf(g.fsBlock, g.sector)
  }

  /** A cache unit is a whole number of blocks. */
  ghost predicate Tiles(g: Geometry) {
    g.perIo > 0 && g.io > 0 && Times(g.perIo, g.fsBlock) == g.io
  }

  /** A cache unit is a whole number of blocks and of sectors. */
  lemma UnitSizes(g: Geometry)
    requires Sound(g)
    ensures Tiles(g) && g.io % g.sector == 0 && g.io % 2 == 0
    ensures g.io == if g.fsBlock >= 4096 then g.fsBlock else 4096
  {
    if g.fsBlock >= PAGE_SIZE {
      DivUnique(g.io, g.fsBlock, 1, 0);
      PageMultiple(g.io);
    } else {
      DivMul(PAGE_SIZE, g.fsBlock);
      DivMonotone(g.fsBlock, PAGE_SIZE, g.fsBlock);
      DivUnique(g.fsBlock, g.fsBlock, 1, 0);
    }
    TimesIsProduct(g.perIo, g.fsBlock);
  }

  lemma PageMultiple(n: nat)
    requires n % PAGE_SIZE == 0
    ensures n % 4096 == 0 && n % 512 == 0 && n % 2 == 0
  {
    var q := n / PAGE_SIZE;
    DivUnique(n, 512, 8 * q, 0);
    DivUnique(n, 2, 2048 * q, 0);
  }

  function BlockToFirstSector(g: Geometry, block: nat): nat
    requires g.sector > 0
  {
    block * g.fsBlock / g.sector
  }

  /** First sector and number of sectors of the cache unit that starts at `block`. */
  function BlockToSectors(g: Geometry, block: nat): (nat, nat)
    requires g.sector > 0
  {
    var first := BlockToFirstSector(g, block);
    var aligned := if g.fsBlock < g.io && g.sector == 512 then first / 8 * 8 else first;
    DivMul(g.io, g.sector);
    (aligned, g.io / g.sector)
  }

  /** `block & ~(perIo - 1)`: the first block of the unit that holds `block`. */
  function CachedIndex(g: Geometry, block: nat): nat
    requires g.perIo > 0
  {
    block - block % g.perIo
  }

  ghost predicate IsUnit(g: Geometry, k: nat)
    requires g.perIo > 0
  {
    k % g.perIo == 0
  }

  lemma UnitPlace(g: Geometry, q: nat)
    requires Tiles(g)
    ensures q * g.perIo >= 0 && IsUnit(g, q * g.perIo) && Times(q * g.perIo, g.fsBlock) == q * g.io
  {
    MulNonNegative(q, g.perIo);
    MulDiv(q, g.perIo);
    TimesIsProduct(q * g.perIo, g.fsBlock);
    TimesIsProduct(g.perIo, g.fsBlock);
    MulAssociates(q, g.perIo, g.fsBlock);
  }

  /** A unit starts at a whole number of units. */
  lemma UnitNumber(g: Geometry, k: nat) returns (q: nat)
    requires Tiles(g) && IsUnit(g, k)
    ensures k == q * g.perIo && Times(k, g.fsBlock) == q * g.io
  {
    q := k / g.perIo;
    DivMul(k, g.perIo);
    UnitPlace(g, q);
  }

  lemma MultiplesApart(p: nat, q: nat, m: nat)
    requires p != q
    ensures p * m + m <= q * m || q * m + m <= p * m
  {
    MulDistributes(p, q, m);
    MulGap(p - q, m);
  }

  /** Two different units share no byte. */
  lemma UnitsApart(g: Geometry, k: nat, l: nat)
    requires Tiles(g) && IsUnit(g, k) && IsUnit(g, l) && k != l
    ensures Times(k, g.fsBlock) + g.io <= Times(l, g.fsBlock) || Times(l, g.fsBlock) + g.io <= Times(k, g.fsBlock)
  {
    var p := UnitNumber(g, k);
    var q := UnitNumber(g, l);
    MultiplesApart(p, q, g.io);
  }

  /** With 512-byte sectors and small blocks a unit is eight sectors, so aligning to eight changes nothing. */
  lemma UnitSectorCount(g: Geometry)
    requires Sound(g)
    ensures g.io == g.io / g.sector * g.sector
    ensures g.fsBlock < g.io && g.sector == 512 ==> g.io / g.sector == 8
  {
    UnitSizes(g);
    DivMul(g.io, g.sector);
  }

  lemma WholeSectors(q: nat, n: nat, sector: nat)
    requires sector > 0
    ensures q * (n * sector) / sector == q * n && q * n * sector == q * (n * sector)
    ensures n == 8 ==> q * n / 8 * 8 == q * n
  {
    MulAssociates(q, n, sector);
    MulDiv(q * n, sector);
  }

  /** The sectors of a unit are exactly the bytes of its blocks. */
  lemma UnitSectors(g: Geometry, k: nat)
    requires Sound(g) && g.perIo > 0 && IsUnit(g, k)
    ensures var (first, count) := BlockToSectors(g, k);
      first * g.sector == Times(k, g.fsBlock) && count * g.sector == g.io
  {
    UnitSizes(g);
    UnitSectorCount(g);
    hide Sound;
    hide Times;
    var q := UnitNumber(g, k);
    TimesIsProduct(k, g.fsBlock);
    WholeSectors(q, g.io / g.sector, g.sector);
  }

  lemma RemainderFits(r: nat, n: nat, m: nat)
    requires r < n
    ensures r * m + m <= n * m
  {
    MulDistributes(n, r + 1, m);
    MulDistributes(r, 1, m);
    MulNonNegative(n - (r + 1), m);
  }

  /** Where the bytes of a block lie: in the unit at `CachedIndex`, at a block-size multiple. */
  lemma BlockInUnit(g: Geometry, block: nat)
    requires Tiles(g)
    ensures var k := CachedIndex(g, block);
      && 0 <= k <= block < k + g.perIo && IsUnit(g, k)
      && Times(block, g.fsBlock) == Times(k, g.fsBlock) + Times(block - k, g.fsBlock)
      && Times(block - k, g.fsBlock) + g.fsBlock <= g.io
  {
    var k, r := CachedIndex(g, block), block % g.perIo;
    DivMul(block, g.perIo);
    MulDistributes(block, k, g.fsBlock);
    TimesIsProduct(block, g.fsBlock);
    TimesIsProduct(k, g.fsBlock);
    TimesIsProduct(block - k, g.fsBlock);
    TimesIsProduct(g.perIo, g.fsBlock);
    RemainderFits(r, g.perIo, g.fsBlock);
  }

  /** The unit that holds byte `i` of the volume. */
  function UnitOf(g: Geometry, i: nat): nat
    requires g.io > 0
  {
    i / g.io * g.perIo
  }

  /** Byte `o` of unit `k` is byte `k * fsBlock + o` of the volume, and every byte is one of those. */
  lemma UnitCoordinates(g: Geometry, k: nat, o: nat)
    requires Tiles(g) && IsUnit(g, k) && o < g.io
    ensures UnitOf(g, Times(k, g.fsBlock) + o) == k && (Times(k, g.fsBlock) + o) % g.io == o
  {
    var q := UnitNumber(g, k);
    DivUnique(Times(k, g.fsBlock) + o, g.io, q, o);
  }

  lemma ByteCoordinates(g: Geometry, i: nat)
    requires Tiles(g)
    ensures IsUnit(g, UnitOf(g, i)) && i == Times(UnitOf(g, i), g.fsBlock) + i % g.io
  {
    DivMul(i, g.io);
    UnitPlace(g, i / g.io);
  }
}
