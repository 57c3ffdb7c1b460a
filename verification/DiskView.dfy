/**
 The cache as a value: the cached units in order of use, their buffers, and the device.
 The lemmas say what each step of the cache does to the flat volume this stands for.
 */
module DiskViews {
  import opened Arithmetic
  import opened DiskGeometry

  type Byte = bv8

  datatype Entry = Entry(address: nat, dirty: bool, block: nat)

  /** What does not change: sizes, the buffer region, and the filesystem's bytes on the device. */
  datatype Setup = Setup(g: Geometry, capacity: nat, regionBase: nat, regionSize: nat, volumeBase: nat, volumeSize: nat)

  datatype View = View(entries: seq<Entry>, used: nat, memory: seq<Byte>, device: seq<Byte>)

  ghost predicate Configured(c: Setup) {
    && Tiles(c.g) && c.g.io % 2 == 0
    && c.capacity > 0 && Times(c.capacity, c.g.io) <= c.regionSize && c.regionBase % 2 == 0
  }

  ghost predicate InVolume(c: Setup, k: nat) {
    c.g.perIo > 0 && IsUnit(c.g, k) && Times(k, c.g.fsBlock) + c.g.io <= c.volumeSize
  }

  /** `s` with the bytes from `at` on replaced by `data`. */
  ghost function Patched(s: seq<Byte>, at: nat, data: seq<Byte>): (r: seq<Byte>)
    requires at + |data| <= |s|
    ensures |r| == |s|
    ensures forall i :: 0 <= i < |s| ==> r[i] == if at <= i < at + |data| then data[i - at] else s[i]
  {
    s[..at] + data + s[at + |data|..]
  }

  lemma PatchInside(s: seq<Byte>, at: nat, data: seq<Byte>, a: nat, b: nat)
    requires at + |data| <= |s| && a <= at && at + |data| <= b <= |s|
    ensures Patched(s, at, data)[a..b] == Patched(s[a..b], at - a, data)
  {
  }

  lemma PatchOutside(s: seq<Byte>, at: nat, data: seq<Byte>, a: nat, b: nat)
    requires at + |data| <= |s| && a <= b <= |s| && (b <= at || at + |data| <= a)
    ensures Patched(s, at, data)[a..b] == s[a..b]
  {
  }

  // ---------- well-formed views ----------

  ghost predicate Sized(c: Setup, v: View) {
    |v.memory| == c.regionSize && c.volumeBase + c.volumeSize <= |v.device| && v.used <= c.regionSize
  }

  ghost predicate Placed(c: Setup, used: nat, e: Entry) {
    c.regionBase <= e.address && e.address + c.g.io <= c.regionBase + used && e.address % 2 == 0
  }

  ghost predicate Disjoint(c: Setup, e: Entry, f: Entry) {
    e.block != f.block && (e.address + c.g.io <= f.address || f.address + c.g.io <= e.address)
  }

  ghost function Buffer(c: Setup, v: View, e: Entry): seq<Byte>
    requires Sized(c, v) && Placed(c, v.used, e)
  {
    v.memory[e.address - c.regionBase..e.address - c.regionBase + c.g.io]
  }

  ghost function OnDevice(c: Setup, v: View, k: nat): seq<Byte>
    requires Sized(c, v) && InVolume(c, k)
  {
    v.device[c.volumeBase + Times(k, c.g.fsBlock)..c.volumeBase + Times(k, c.g.fsBlock) + c.g.io]
  }

  ghost predicate EntryOk(c: Setup, v: View, e: Entry)
    requires Sized(c, v)
  {
    && Placed(c, v.used, e) && InVolume(c, e.block)
    && (!e.dirty ==> Buffer(c, v, e) == OnDevice(c, v, e.block))
  }

  ghost predicate AllDisjoint(c: Setup, s: seq<Entry>) {
    forall i, j :: 0 <= i < j < |s| ==> Disjoint(c, s[i], s[j])
  }

  /** Every entry is sound, buffers and units are apart, and the used part of the region is exactly the buffers. */
  ghost predicate Good(c: Setup, v: View) {
    && Configured(c) && Sized(c, v)
    && (forall e :: e in v.entries ==> EntryOk(c, v, e))
    && AllDisjoint(c, v.entries)
    && v.used == Times(|v.entries|, c.g.io) && |v.entries| <= c.capacity
  }

  lemma EntryAt(c: Setup, v: View, i: nat)
    requires Good(c, v) && i < |v.entries|
    ensures Configured(c) && Sized(c, v) && EntryOk(c, v, v.entries[i])
  {
  }

  lemma DistinctBlocks(c: Setup, s: seq<Entry>, e: Entry, f: Entry)
    requires AllDisjoint(c, s) && e in s && f in s
    ensures e == f || (Disjoint(c, e, f) && Disjoint(c, f, e))
  {
    var i :| 0 <= i < |s| && s[i] == e;
    var j :| 0 <= j < |s| && s[j] == f;
    assert i < j ==> Disjoint(c, s[i], s[j]);
    assert j < i ==> Disjoint(c, s[j], s[i]);
  }

  /** The whole unit of `block` lies inside the filesystem. */
  ghost predicate UnitFits(g: Geometry, size: nat, block: nat)
    requires g.perIo > 0
  {
    Times(CachedIndex(g, block), g.fsBlock) + g.io <= size
  }

  ghost predicate InFilesystem(g: Geometry, size: nat, block: nat) {
    Times(block, g.fsBlock) + g.fsBlock <= size
  }

  lemma FitsWhenShortTail(g: Geometry, size: nat, block: nat)
    requires Tiles(g) && size % g.io < g.fsBlock && InFilesystem(g, size, block)
    ensures UnitFits(g, size, block)
  {
    var k, n := CachedIndex(g, block), size / g.io;
    BlockInUnit(g, block);
    var q := UnitNumber(g, k);
    hide Times;
    DivMul(size, g.io);
    WholeBefore(q, n, g.io, size % g.io - g.fsBlock);
  }

  lemma WholeBefore(q: nat, n: nat, m: nat, r: int)
    requires q * m <= n * m + r && r < 0
    ensures q * m + m <= n * m
  {
    if q >= n { MulNonNegative(q - n, m); }
    MulDistributes(q, n, m);
    MulGap(q - n, m);
  }

  lemma LongTailBlock(g: Geometry, size: nat) returns (block: nat)
    requires Tiles(g) && size % g.io >= g.fsBlock
    ensures InFilesystem(g, size, block) && !UnitFits(g, size, block)
  {
    var n := size / g.io;
    DivMul(size, g.io);
    block := n * g.perIo;
    UnitPlace(g, n);
  }

  /**
   The cache accepts every block of a filesystem exactly when the filesystem ends
   less than one block past a whole number of units.
   */
  lemma EveryBlockAcceptedIff(g: Geometry, size: nat)
    requires Tiles(g)
    ensures (forall b :: InFilesystem(g, size, b) ==> UnitFits(g, size, b)) <==> size % g.io < g.fsBlock
  {
    if size % g.io < g.fsBlock {
      forall b | InFilesystem(g, size, b) ensures UnitFits(g, size, b) { FitsWhenShortTail(g, size, b); }
    } else {
      var b := LongTailBlock(g, size);
    }
  }

  // ---------- the volume ----------

  ghost predicate Cached(v: View, k: nat) {
    exists e :: e in v.entries && e.block == k
  }

  ghost function EntryOf(v: View, k: nat): (e: Entry)
    requires Cached(v, k)
    ensures e in v.entries && e.block == k
  {
    var e :| e in v.entries && e.block == k;
    e
  }

  /** The bytes of unit `k` as the filesystem sees them. */
  ghost function Unit(c: Setup, v: View, k: nat): (u: seq<Byte>)
    requires Good(c, v) && InVolume(c, k)
    ensures |u| == c.g.io
  {
    if Cached(v, k) then Buffer(c, v, EntryOf(v, k)) else OnDevice(c, v, k)
  }

  lemma UnitCached(c: Setup, v: View, e: Entry)
    requires Good(c, v) && e in v.entries
    ensures InVolume(c, e.block) && Unit(c, v, e.block) == Buffer(c, v, e)
  {
    assert EntryOk(c, v, e) && Cached(v, e.block);
    DistinctBlocks(c, v.entries, e, EntryOf(v, e.block));
  }

  ghost predicate SameUnits(c: Setup, v: View, w: View)
    requires Good(c, v) && Good(c, w)
  {
    forall k :: InVolume(c, k) ==> Unit(c, v, k) == Unit(c, w, k)
  }

  /** The bytes past the last whole unit are the same on both devices. */
  ghost predicate SameTail(c: Setup, v: View, w: View)
    requires Good(c, v) && Good(c, w)
  {
    forall i: nat :: i < c.volumeSize && !InVolume(c, UnitOf(c.g, i)) ==>
      v.device[c.volumeBase + i] == w.device[c.volumeBase + i]
  }

  /** Byte `i` of the filesystem. */
  ghost function ByteAt(c: Setup, v: View, i: nat): Byte
    requires Good(c, v) && i < c.volumeSize
  {
    if InVolume(c, UnitOf(c.g, i)) then Unit(c, v, UnitOf(c.g, i))[i % c.g.io] else v.device[c.volumeBase + i]
  }

  /** The filesystem as one flat array of bytes, cached changes included. */
  ghost function Volume(c: Setup, v: View): (s: seq<Byte>)
    requires Good(c, v)
    ensures |s| == c.volumeSize
  {
    seq(c.volumeSize, i requires 0 <= i < c.volumeSize => ByteAt(c, v, i))
  }

  /** What the device itself holds where the filesystem lies. */
  ghost function OnDisk(c: Setup, v: View): (s: seq<Byte>)
    requires Sized(c, v)
    ensures |s| == c.volumeSize
  {
    v.device[c.volumeBase..c.volumeBase + c.volumeSize]
  }

  lemma VolumeSame(c: Setup, v: View, w: View)
    requires Good(c, v) && Good(c, w) && SameUnits(c, v, w) && SameTail(c, v, w)
    ensures Volume(c, v) == Volume(c, w)
  {
    forall i: nat | i < c.volumeSize ensures ByteAt(c, v, i) == ByteAt(c, w, i) { }
  }

  /** A piece of one unit is the same piece of the volume. */
  lemma VolumePiece(c: Setup, v: View, k: nat, o: nat, n: nat)
    requires Good(c, v) && InVolume(c, k) && o + n <= c.g.io
    ensures Unit(c, v, k)[o..o + n] == Volume(c, v)[Times(k, c.g.fsBlock) + o..Times(k, c.g.fsBlock) + o + n]
  {
    hide UnitOf;
    hide IsUnit;
    hide Times;
    forall j | o <= j < o + n ensures Unit(c, v, k)[j] == Volume(c, v)[Times(k, c.g.fsBlock) + j] {
      UnitCoordinates(c.g, k, j);
      assert Volume(c, v)[Times(k, c.g.fsBlock) + j] == ByteAt(c, v, Times(k, c.g.fsBlock) + j);
    }
  }

  ghost predicate UnitPatched(c: Setup, v: View, w: View, k: nat, o: nat, data: seq<Byte>)
    requires Good(c, v) && Good(c, w) && InVolume(c, k) && o + |data| <= c.g.io
  {
    && Unit(c, w, k) == Patched(Unit(c, v, k), o, data)
    && forall l :: InVolume(c, l) && l != k ==> Unit(c, w, l) == Unit(c, v, l)
  }

  lemma BytePatched(c: Setup, v: View, w: View, k: nat, o: nat, at: nat, data: seq<Byte>, i: nat)
    requires Good(c, v) && Good(c, w) && SameTail(c, v, w) && InVolume(c, k) && o + |data| <= c.g.io
    requires UnitPatched(c, v, w, k, o, data) && at == Times(k, c.g.fsBlock) + o && i < c.volumeSize
    ensures ByteAt(c, w, i) == if at <= i < at + |data| then data[i - at] else ByteAt(c, v, i)
  {
    hide UnitOf;
    hide IsUnit;
    hide Times;
    var l, j := UnitOf(c.g, i), i % c.g.io;
    ByteCoordinates(c.g, i);
    if l == k {
      assert ByteAt(c, w, i) == Patched(Unit(c, v, k), o, data)[j];
    } else {
      UnitsApart(c.g, l, k);
    }
  }

  /** Changing a piece of one unit is changing that piece of the volume. */
  lemma VolumePatched(c: Setup, v: View, w: View, k: nat, o: nat, at: nat, data: seq<Byte>)
    requires Good(c, v) && Good(c, w) && SameTail(c, v, w) && InVolume(c, k) && o + |data| <= c.g.io
    requires UnitPatched(c, v, w, k, o, data) && at == Times(k, c.g.fsBlock) + o && at + |data| <= c.volumeSize
    ensures Volume(c, w) == Patched(Volume(c, v), at, data)
  {
    forall i: nat | i < c.volumeSize ensures Volume(c, w)[i] == Patched(Volume(c, v), at, data)[i] {
      BytePatched(c, v, w, k, o, at, data, i);
      assert Volume(c, w)[i] == ByteAt(c, w, i) && Volume(c, v)[i] == ByteAt(c, v, i);
    }
  }

  // ---------- steps ----------

  function MovedToFront<T>(s: seq<T>, i: nat): (t: seq<T>)
    requires i < |s|
    ensures |t| == |s| && t[0] == s[i]
  {
    [s[i]] + s[..i] + s[i + 1..]
  }

  lemma MovedApart(c: Setup, s: seq<Entry>, i: nat)
    requires AllDisjoint(c, s) && i < |s|
    ensures AllDisjoint(c, MovedToFront(s, i))
    ensures forall e :: e in MovedToFront(s, i) <==> e in s
  {
    var t := MovedToFront(s, i);
    assert s == s[..i] + [s[i]] + s[i + 1..];
    forall j, k | 0 <= j < k < |t| ensures Disjoint(c, t[j], t[k]) {
      var p, q := if j == 0 then i else if j <= i then j - 1 else j, if k <= i then k - 1 else k;
      assert t[j] == s[p] && t[k] == s[q];
      assert p < q ==> Disjoint(c, s[p], s[q]);
      assert q < p ==> Disjoint(c, s[q], s[p]);
    }
  }

  /** Using a cached unit again changes the order only. */
  lemma TouchKeeps(c: Setup, v: View, i: nat)
    requires Good(c, v) && i < |v.entries|
    ensures var w := v.(entries := MovedToFront(v.entries, i)); Good(c, w) && Volume(c, w) == Volume(c, v)
  {
    var w := v.(entries := MovedToFront(v.entries, i));
    MovedApart(c, v.entries, i);
    forall e | e in w.entries ensures EntryOk(c, w, e) { assert EntryOk(c, v, e); }
    forall k | InVolume(c, k) ensures Unit(c, w, k) == Unit(c, v, k) {
      if Cached(w, k) {
        UnitCached(c, w, EntryOf(w, k));
        UnitCached(c, v, EntryOf(w, k));
      }
    }
    VolumeSame(c, w, v);
  }

  ghost function Cleaned(s: seq<Entry>, i: nat): seq<Entry>
    requires i < |s|
  {
    s[i := s[i].(dirty := false)]
  }

  /** The view after writing unit `i` of the list back to the device. */
  ghost function Flushed(c: Setup, v: View, i: nat): View
    requires Good(c, v) && i < |v.entries|
  {
    var e := v.entries[i];
    assert EntryOk(c, v, e);
    v.(entries := Cleaned(v.entries, i),
      device := Patched(v.device, c.volumeBase + Times(e.block, c.g.fsBlock), Buffer(c, v, e)))
  }

  lemma FlushedUnits(c: Setup, v: View, i: nat, k: nat)
    requires Good(c, v) && i < |v.entries| && InVolume(c, k)
    ensures var w := Flushed(c, v, i); var e := v.entries[i];
      && EntryOk(c, v, e) && Sized(c, w)
      && OnDevice(c, w, k) == if k == e.block then Buffer(c, v, e) else OnDevice(c, v, k)
  {
    hide Times;
    hide IsUnit;
    var e := v.entries[i];
    assert EntryOk(c, v, e);
    if k != e.block {
      UnitsApart(c.g, k, e.block);
      PatchOutside(v.device, c.volumeBase + Times(e.block, c.g.fsBlock), Buffer(c, v, e),
        c.volumeBase + Times(k, c.g.fsBlock), c.volumeBase + Times(k, c.g.fsBlock) + c.g.io);
    }
  }

  lemma FlushedGood(c: Setup, v: View, i: nat)
    requires Good(c, v) && i < |v.entries|
    ensures Good(c, Flushed(c, v, i))
  {
    var w, e := Flushed(c, v, i), v.entries[i];
    forall j | 0 <= j < |w.entries| ensures EntryOk(c, w, w.entries[j]) {
      assert EntryOk(c, v, v.entries[j]);
      FlushedUnits(c, v, i, v.entries[j].block);
      assert j < i ==> Disjoint(c, v.entries[j], e);
      assert i < j ==> Disjoint(c, e, v.entries[j]);
    }
    forall j, k | 0 <= j < k < |w.entries| ensures Disjoint(c, w.entries[j], w.entries[k]) {
      assert Disjoint(c, v.entries[j], v.entries[k]);
    }
  }

  /** Writing a unit back changes the device and the dirty mark, never the volume. */
  lemma FlushKeeps(c: Setup, v: View, i: nat)
    requires Good(c, v) && i < |v.entries|
    ensures var w := Flushed(c, v, i); Good(c, w) && Volume(c, w) == Volume(c, v)
  {
    var w := Flushed(c, v, i);
    FlushedGood(c, v, i);
    forall k | InVolume(c, k) ensures Unit(c, w, k) == Unit(c, v, k) { FlushedUnit(c, v, i, k); }
    FlushedTail(c, v, i);
    VolumeSame(c, w, v);
  }

  lemma CachedSame(v: View, w: View, k: nat)
    requires |v.entries| == |w.entries| && forall j :: 0 <= j < |v.entries| ==> w.entries[j].block == v.entries[j].block
    ensures Cached(v, k) <==> Cached(w, k)
  {
    if Cached(v, k) {
      var j :| 0 <= j < |v.entries| && v.entries[j].block == k;
      assert w.entries[j].block == k;
    }
    if Cached(w, k) {
      var j :| 0 <= j < |w.entries| && w.entries[j].block == k;
      assert v.entries[j].block == k;
    }
  }

  lemma FlushedCached(c: Setup, v: View, i: nat, j: nat)
    requires Good(c, v) && i < |v.entries| && j < |v.entries| && Good(c, Flushed(c, v, i))
    ensures var k := v.entries[j].block; InVolume(c, k) && Unit(c, Flushed(c, v, i), k) == Unit(c, v, k)
  {
    hide Unit, Good;
    EntryAt(c, v, i);
    EntryAt(c, v, j);
    var w := Flushed(c, v, i);
    EntryAt(c, w, j);
    UnitCached(c, v, v.entries[j]);
    UnitCached(c, w, w.entries[j]);
  }

  lemma FlushedUnit(c: Setup, v: View, i: nat, k: nat)
    requires Good(c, v) && i < |v.entries| && InVolume(c, k) && Good(c, Flushed(c, v, i))
    ensures Unit(c, Flushed(c, v, i), k) == Unit(c, v, k)
  {
    hide Good;
    var w := Flushed(c, v, i);
    CachedSame(v, w, k);
    if Cached(v, k) {
      hide Unit;
      var j :| 0 <= j < |v.entries| && v.entries[j] == EntryOf(v, k);
      FlushedCached(c, v, i, j);
    } else {
      FlushedUnits(c, v, i, k);
    }
  }

  lemma FlushedTail(c: Setup, v: View, i: nat)
    requires Good(c, v) && i < |v.entries| && Good(c, Flushed(c, v, i))
    ensures SameTail(c, Flushed(c, v, i), v)
  {
    hide UnitOf;
    hide IsUnit;
    hide Times;
    var k := v.entries[i].block;
    assert EntryOk(c, v, v.entries[i]);
    forall j: nat | j < c.volumeSize && !InVolume(c, UnitOf(c.g, j))
      ensures !(Times(k, c.g.fsBlock) <= j < Times(k, c.g.fsBlock) + c.g.io)
    {
      ByteCoordinates(c.g, j);
      UnitsApart(c.g, UnitOf(c.g, j), k);
    }
  }

  // ---------- loading a unit into a buffer ----------

  /** A buffer at `address` that no entry of `rest` uses. */
  ghost predicate FreeBuffer(c: Setup, used: nat, rest: seq<Entry>, address: nat) {
    && Placed(c, used, Entry(address, false, 0))
    && forall e :: e in rest ==> e.address + c.g.io <= address || address + c.g.io <= e.address
  }

  /** `rest` is what stays cached of `v` when unit `k` comes in: nothing with unsaved changes goes. */
  ghost predicate MakesRoom(c: Setup, v: View, rest: seq<Entry>, k: nat) {
    && InVolume(c, k) && !Cached(v, k)
    && AllDisjoint(c, rest) && |rest| < c.capacity
    && (forall e :: e in rest ==> e in v.entries)
    && (forall e :: e in v.entries && e !in rest ==> !e.dirty)
  }

  ghost function Loaded(c: Setup, v: View, rest: seq<Entry>, used: nat, address: nat, k: nat): View
    requires Good(c, v) && MakesRoom(c, v, rest, k) && used <= c.regionSize && FreeBuffer(c, used, rest, address)
  {
    View([Entry(address, false, k)] + rest, used, Patched(v.memory, address - c.regionBase, OnDevice(c, v, k)),
      v.device)
  }

  ghost predicate Loading(c: Setup, v: View, rest: seq<Entry>, used: nat, address: nat, k: nat) {
    && Good(c, v) && MakesRoom(c, v, rest, k)
    && v.used <= used <= c.regionSize && used == Times(|rest| + 1, c.g.io)
    && FreeBuffer(c, used, rest, address)
  }

  lemma LoadingFacts(c: Setup, v: View, rest: seq<Entry>, used: nat, address: nat, k: nat)
    requires Loading(c, v, rest, used, address, k)
    ensures Configured(c) && Sized(c, v) && InVolume(c, k)
    ensures forall i :: 0 <= i < |rest| ==> rest[i].block != k
  {
    forall i | 0 <= i < |rest| ensures rest[i].block != k { assert rest[i] in rest; }
  }

  /** Below capacity there is room for one more buffer right after the used ones. */
  lemma GrowLoading(c: Setup, v: View, k: nat)
    requires Good(c, v) && InVolume(c, k) && !Cached(v, k) && |v.entries| < c.capacity
    ensures Loading(c, v, v.entries, v.used + c.g.io, c.regionBase + v.used, k)
  {
    TimesMonotone(|v.entries| + 1, c.capacity, c.g.io);
    TimesEven(|v.entries|, c.g.io);
    forall e | e in v.entries ensures e.address + c.g.io <= c.regionBase + v.used { assert EntryOk(c, v, e); }
  }

  /** The buffer of a clean last entry can be taken over once the entry is gone. */
  lemma ReuseLoading(c: Setup, v: View, k: nat)
    requires Good(c, v) && InVolume(c, k) && !Cached(v, k) && |v.entries| > 0 && !v.entries[|v.entries| - 1].dirty
    ensures Loading(c, v, v.entries[..|v.entries| - 1], v.used, v.entries[|v.entries| - 1].address, k)
  {
    var n := |v.entries| - 1;
    var rest := v.entries[..n];
    EntryAt(c, v, n);
    forall i | 0 <= i < n ensures Disjoint(c, rest[i], v.entries[n]) { assert Disjoint(c, v.entries[i], v.entries[n]); }
    forall i, j | 0 <= i < j < n ensures Disjoint(c, rest[i], rest[j]) {
      assert Disjoint(c, v.entries[i], v.entries[j]);
    }
    forall e | e in v.entries && e !in rest ensures !e.dirty { assert v.entries == rest + [v.entries[n]]; }
  }

  lemma LoadedBuffers(c: Setup, v: View, rest: seq<Entry>, used: nat, address: nat, k: nat, e: Entry)
    requires Loading(c, v, rest, used, address, k) && e in rest
    ensures var w := Loaded(c, v, rest, used, address, k);
      Sized(c, w) && EntryOk(c, w, e) && Placed(c, v.used, e) && Buffer(c, w, e) == Buffer(c, v, e)
  {
    assert EntryOk(c, v, e);
    PatchOutside(v.memory, address - c.regionBase, OnDevice(c, v, k), e.address - c.regionBase,
      e.address - c.regionBase + c.g.io);
  }

  lemma FrontApart(c: Setup, rest: seq<Entry>, e: Entry)
    requires AllDisjoint(c, rest) && forall i :: 0 <= i < |rest| ==> Disjoint(c, e, rest[i])
    ensures AllDisjoint(c, [e] + rest)
  {
    var t := [e] + rest;
    forall i, j | 0 <= i < j < |t| ensures Disjoint(c, t[i], t[j]) {
      assert t[j] == rest[j - 1];
      if i > 0 { assert t[i] == rest[i - 1]; }
    }
  }

  lemma LoadedGood(c: Setup, v: View, rest: seq<Entry>, used: nat, address: nat, k: nat)
    requires Loading(c, v, rest, used, address, k)
    ensures var w := Loaded(c, v, rest, used, address, k);
      Good(c, w) && Buffer(c, w, w.entries[0]) == OnDevice(c, v, k)
  {
    hide AllDisjoint;
    hide Times;
    hide IsUnit;
    var w := Loaded(c, v, rest, used, address, k);
    PatchInside(v.memory, address - c.regionBase, OnDevice(c, v, k),
      address - c.regionBase, address - c.regionBase + c.g.io);
    assert Buffer(c, w, w.entries[0]) == OnDevice(c, v, k);
    forall e | e in w.entries ensures EntryOk(c, w, e) {
      if e in rest { LoadedBuffers(c, v, rest, used, address, k, e); }
    }
    forall i | 0 <= i < |rest| ensures Disjoint(c, w.entries[0], rest[i]) { assert rest[i] in rest; }
    FrontApart(c, rest, w.entries[0]);
  }

  /** Bringing a unit in, with or without giving another one up, changes no byte of the volume. */
  lemma LoadKeeps(c: Setup, v: View, rest: seq<Entry>, used: nat, address: nat, k: nat)
    requires Loading(c, v, rest, used, address, k)
    ensures var w := Loaded(c, v, rest, used, address, k); Good(c, w) && Volume(c, w) == Volume(c, v)
  {
    var w := Loaded(c, v, rest, used, address, k);
    LoadedGood(c, v, rest, used, address, k);
    forall l | InVolume(c, l) ensures Unit(c, w, l) == Unit(c, v, l) {
      if Cached(w, l) {
        var e := EntryOf(w, l);
        UnitCached(c, w, e);
        if l != k {
          LoadedBuffers(c, v, rest, used, address, k, e);
          UnitCached(c, v, e);
        }
      } else if Cached(v, l) {
        var e := EntryOf(v, l);
        assert e in rest ==> e in w.entries;
        assert EntryOk(c, v, e);
      }
    }
    VolumeSame(c, w, v);
  }

  // ---------- writing into a cached unit ----------

  /** The view after `data` is stored at `o` in the buffer of entry `i` and the entry marked dirty. */
  ghost function Written(c: Setup, v: View, i: nat, o: nat, data: seq<Byte>): View
    requires Good(c, v) && i < |v.entries| && o + |data| <= c.g.io
  {
    var e := v.entries[i];
    assert EntryOk(c, v, e);
    v.(entries := v.entries[i := e.(dirty := true)], memory := Patched(v.memory, e.address - c.regionBase + o, data))
  }

  lemma WrittenHere(c: Setup, v: View, i: nat, o: nat, data: seq<Byte>)
    requires Good(c, v) && i < |v.entries| && o + |data| <= c.g.io
    ensures var w := Written(c, v, i, o, data); var e := v.entries[i];
      && Sized(c, w) && EntryOk(c, w, w.entries[i]) && EntryOk(c, v, e)
      && Buffer(c, w, w.entries[i]) == Patched(Buffer(c, v, e), o, data)
  {
    var e := v.entries[i];
    assert EntryOk(c, v, e);
    var a := e.address - c.regionBase;
    PatchInside(v.memory, a + o, data, a, a + c.g.io);
  }

  lemma WrittenElsewhere(c: Setup, v: View, i: nat, o: nat, data: seq<Byte>, j: nat)
    requires Good(c, v) && i < |v.entries| && o + |data| <= c.g.io && j < |v.entries| && i != j
    ensures var w := Written(c, v, i, o, data); var f := v.entries[j];
      && Sized(c, w) && w.entries[j] == f && EntryOk(c, v, f) && EntryOk(c, w, f)
      && Buffer(c, w, f) == Buffer(c, v, f)
  {
    var e, f := v.entries[i], v.entries[j];
    assert EntryOk(c, v, e) && EntryOk(c, v, f);
    var a, b := e.address - c.regionBase, f.address - c.regionBase;
    assert i < j ==> Disjoint(c, e, f);
    assert j < i ==> Disjoint(c, f, e);
    PatchOutside(v.memory, a + o, data, b, b + c.g.io);
  }

  lemma WrittenGood(c: Setup, v: View, i: nat, o: nat, data: seq<Byte>)
    requires Good(c, v) && i < |v.entries| && o + |data| <= c.g.io
    ensures Good(c, Written(c, v, i, o, data))
  {
    var w := Written(c, v, i, o, data);
    forall j | 0 <= j < |w.entries| ensures EntryOk(c, w, w.entries[j]) {
      if i == j { WrittenHere(c, v, i, o, data); } else { WrittenElsewhere(c, v, i, o, data, j); }
    }
    forall j, k | 0 <= j < k < |w.entries| ensures Disjoint(c, w.entries[j], w.entries[k]) {
      assert Disjoint(c, v.entries[j], v.entries[k]);
    }
  }

  lemma WrittenUnit(c: Setup, v: View, i: nat, o: nat, data: seq<Byte>, k: nat)
    requires Good(c, v) && i < |v.entries| && o + |data| <= c.g.io && InVolume(c, k)
    requires Good(c, Written(c, v, i, o, data))
    ensures Unit(c, Written(c, v, i, o, data), k)
         == if k == v.entries[i].block then Patched(Unit(c, v, k), o, data) else Unit(c, v, k)
  {
    var w := Written(c, v, i, o, data);
    if Cached(v, k) {
      var e := EntryOf(v, k);
      var j :| 0 <= j < |v.entries| && v.entries[j] == e;
      UnitCached(c, v, e);
      UnitCached(c, w, w.entries[j]);
      if i == j { WrittenHere(c, v, i, o, data); } else { WrittenElsewhere(c, v, i, o, data, j); }
      assert j < i ==> Disjoint(c, v.entries[j], v.entries[i]);
      assert i < j ==> Disjoint(c, v.entries[i], v.entries[j]);
    }
  }

  /** Storing into a cached unit is storing at the matching place of the volume. */
  lemma WriteChanges(c: Setup, v: View, i: nat, o: nat, at: nat, data: seq<Byte>)
    requires Good(c, v) && i < |v.entries| && o + |data| <= c.g.io
    requires at == Times(v.entries[i].block, c.g.fsBlock) + o && at + |data| <= c.volumeSize
    ensures var w := Written(c, v, i, o, data); Good(c, w) && Volume(c, w) == Patched(Volume(c, v), at, data)
  {
    var w, k := Written(c, v, i, o, data), v.entries[i].block;
    WrittenGood(c, v, i, o, data);
    assert EntryOk(c, v, v.entries[i]);
    forall l | InVolume(c, l)
      ensures Unit(c, w, l) == if l == k then Patched(Unit(c, v, l), o, data) else Unit(c, v, l)
    {
      WrittenUnit(c, v, i, o, data, l);
    }
    VolumePatched(c, v, w, k, o, at, data);
  }

  /** An empty cache with a region of `blocks` blocks is well formed: whole units fit in it. */
  lemma EmptyGood(c: Setup, blocks: nat, memory: seq<Byte>, device: seq<Byte>)
    requires Tiles(c.g) && c.g.io % 2 == 0 && c.capacity == blocks / c.g.perIo > 0 && c.regionBase % 2 == 0
    requires c.regionSize == blocks * c.g.fsBlock == |memory| && c.volumeBase + c.volumeSize <= |device|
    ensures Good(c, View([], 0, memory, device))
  {
    TimesIsProduct(c.g.perIo, c.g.fsBlock);
    DivMul(blocks, c.g.perIo);
    MulAssociates(c.capacity, c.g.perIo, c.g.fsBlock);
    MulDistributes(blocks, c.capacity * c.g.perIo, c.g.fsBlock);
    MulNonNegative(blocks - c.capacity * c.g.perIo, c.g.fsBlock);
    TimesIsProduct(c.capacity, c.g.io);
  }

  // ---------- after a full flush ----------

  lemma SavedUnit(c: Setup, v: View, k: nat)
    requires Good(c, v) && InVolume(c, k) && forall e :: e in v.entries ==> !e.dirty
    ensures Unit(c, v, k) == OnDevice(c, v, k)
  {
    if Cached(v, k) { assert EntryOk(c, v, EntryOf(v, k)); }
  }

  lemma SavedByte(c: Setup, v: View, i: nat)
    requires Good(c, v) && (forall e :: e in v.entries ==> !e.dirty) && i < c.volumeSize
    ensures Sized(c, v) && v.device[c.volumeBase + i] == ByteAt(c, v, i)
  {
    hide UnitOf, IsUnit, Times, Unit;
    ByteCoordinates(c.g, i);
    var k := UnitOf(c.g, i);
    if InVolume(c, k) { SavedUnit(c, v, k); }
  }

  /** With nothing dirty the device holds the volume. */
  lemma CleanMeansSaved(c: Setup, v: View)
    requires Good(c, v) && forall e :: e in v.entries ==> !e.dirty
    ensures OnDisk(c, v) == Volume(c, v)
  {
    hide ByteAt, UnitOf, IsUnit, Times;
    forall i: nat | i < c.volumeSize ensures v.device[c.volumeBase + i] == ByteAt(c, v, i) { SavedByte(c, v, i); }
  }
}
