/** The write-back block cache in front of a storage device. */
module DiskCaches {
  import opened Arithmetic
  import opened DiskGeometry
  import opened DiskViews

  /** A cached unit: its buffer address with the dirty bit packed into bit 0, and its first block. */
  class CachedBlock {
    var addressAndDirty: nat
    var firstBlock: nat

    constructor (address: nat)
      ensures addressAndDirty == address && firstBlock == 0
    {
      addressAndDirty, firstBlock := address, 0;
    }

    predicate IsDirty()
      reads this
    {
      addressAndDirty % 2 == 1
    }

    function Address(): nat
      reads this
    {
      addressAndDirty - addressAndDirty % 2
    }

    /** The entry this block stands for. */
    ghost function AsEntry(): Entry
      reads this
    {
      Entry(Address(), IsDirty(), firstBlock)
    }

    method MarkDirty()
      modifies this`addressAndDirty
      ensures AsEntry() == old(AsEntry()).(dirty := true)
    {
      addressAndDirty := addressAndDirty - addressAndDirty % 2 + 1;
    }

    method MarkClean()
      modifies this`addressAndDirty
      ensures AsEntry() == old(AsEntry()).(dirty := false)
    {
      addressAndDirty := addressAndDirty - addressAndDirty % 2;
    }
  }

  /** The list is in order of last use, latest first. */
  ghost predicate Recency(s: seq<Entry>, lastUse: map<nat, nat>, clock: nat) {
    && (forall i :: 0 <= i < |s| ==> s[i].block in lastUse && lastUse[s[i].block] < clock)
    && (forall i, j :: 0 <= i < j < |s| ==> lastUse[s[i].block] > lastUse[s[j].block])
  }

  /** Asking for unit `k` now and putting it in front of the others keeps the order. */
  lemma RecencyFront(s: seq<Entry>, rest: seq<Entry>, e: Entry, lastUse: map<nat, nat>, clock: nat)
    requires Recency(rest, lastUse, clock) && s == [e] + rest
    requires forall i :: 0 <= i < |rest| ==> rest[i].block != e.block
    ensures Recency(s, lastUse[e.block := clock], clock + 1)
  {
    var t := lastUse[e.block := clock];
    forall i | 0 <= i < |s| ensures s[i].block in t && t[s[i].block] < clock + 1 {
      if i > 0 { assert s[i] == rest[i - 1]; }
    }
    forall i, j | 0 <= i < j < |s| ensures t[s[i].block] > t[s[j].block] {
      assert s[j] == rest[j - 1];
      if i > 0 { assert s[i] == rest[i - 1]; }
    }
  }

  lemma RecencySame(s: seq<Entry>, t: seq<Entry>, lastUse: map<nat, nat>, clock: nat)
    requires Recency(s, lastUse, clock) && |t| <= |s| && forall i :: 0 <= i < |t| ==> t[i].block == s[i].block
    ensures Recency(t, lastUse, clock)
  {
  }

  /** Leaving one unit out keeps the order of the others. */
  lemma RecencyWithout(s: seq<Entry>, i: nat, lastUse: map<nat, nat>, clock: nat)
    requires Recency(s, lastUse, clock) && i < |s|
    ensures Recency(s[..i] + s[i + 1..], lastUse, clock)
  {
    var t := s[..i] + s[i + 1..];
    forall j | 0 <= j < |t| ensures t[j] == s[if j < i then j else j + 1] { }
  }

  /** Of the units in `keys`, `u` is the one whose last use is furthest back. */
  ghost predicate LeastRecent(keys: set<nat>, lastUse: map<nat, nat>, u: nat) {
    u in keys && keys <= lastUse.Keys && forall w :: w in keys && w != u ==> lastUse[w] > lastUse[u]
  }

  /** The map finds exactly the blocks of the list, under their own unit. */
  ghost predicate Indexed(s: seq<Entry>, list: seq<CachedBlock>, index: map<nat, CachedBlock>) {
    && |s| == |list|
    && (forall i :: 0 <= i < |s| ==> s[i].block in index && index[s[i].block] == list[i])
    && (forall k :: k in index ==> exists i :: 0 <= i < |s| && s[i].block == k)
  }

  lemma IndexedSame(s: seq<Entry>, t: seq<Entry>, list: seq<CachedBlock>, index: map<nat, CachedBlock>)
    requires Indexed(s, list, index) && |t| == |s| && forall i :: 0 <= i < |s| ==> t[i].block == s[i].block
    ensures Indexed(t, list, index)
  {
  }

  lemma IndexedMoved(s: seq<Entry>, list: seq<CachedBlock>, index: map<nat, CachedBlock>, i: nat)
    requires Indexed(s, list, index) && i < |s|
    ensures Indexed(MovedToFront(s, i), MovedToFront(list, i), index)
  {
    var t, l := MovedToFront(s, i), MovedToFront(list, i);
    forall j | 0 <= j < |t| ensures t[j].block in index && index[t[j].block] == l[j] {
      var p := if j == 0 then i else if j <= i then j - 1 else j;
      assert t[j] == s[p] && l[j] == list[p];
    }
    forall k | k in index ensures exists j :: 0 <= j < |t| && t[j].block == k {
      var p :| 0 <= p < |s| && s[p].block == k;
      var j := if p == i then 0 else if p < i then p + 1 else p;
      assert t[j] == s[p];
    }
  }

  lemma IndexedFront(s: seq<Entry>, list: seq<CachedBlock>, index: map<nat, CachedBlock>, f: Entry, e: CachedBlock)
    requires Indexed(s, list, index) && forall i :: 0 <= i < |s| ==> s[i].block != f.block
    ensures Indexed([f] + s, [e] + list, index[f.block := e])
  {
    var t, l, x := [f] + s, [e] + list, index[f.block := e];
    forall j | 0 <= j < |t| ensures t[j].block in x && x[t[j].block] == l[j] {
      if j > 0 { assert t[j] == s[j - 1] && l[j] == list[j - 1]; }
    }
    forall k | k in x ensures exists j :: 0 <= j < |t| && t[j].block == k {
      if k == f.block {
        assert t[0].block == k;
      } else {
        var p :| 0 <= p < |s| && s[p].block == k;
        assert t[p + 1] == s[p];
      }
    }
  }

  datatype Outcome = Done | AccessViolation

  class DiskCache {
    const g: Geometry
    const capacity: nat
    const firstSector: nat
    const sectorCount: nat
    const regionBase: nat
    const regionSize: nat
    var device: seq<Byte>
    var memory: seq<Byte>
    var offsetWithinRegion: nat
    /** Most recently used first. */
    var cachedBlocks: seq<CachedBlock>
    var blockToCache: map<nat, CachedBlock>
    /** What `cachedBlocks` holds, and when each unit was last asked for. */
    ghost var entries: seq<Entry>
    ghost var clock: nat
    ghost var lastUse: map<nat, nat>

    /**
     A cache for the sectors from `first` on, with room for `blocks` filesystem blocks in whole units.
     It starts empty, so the filesystem is what the device holds.
     */
    constructor (fsBlock: nat, sector: nat, blocks: nat, first: nat, count: nat, base: nat, disk: seq<Byte>)
      requires Supported(fsBlock, sector) && base % 2 == 0 && Times(first, sector) + Times(count, sector) <= |disk|
      requires var n := GeometryOf(fsBlock, sector).perIo; n > 0 ==> blocks / n != 0
      ensures Valid() && g == GeometryOf(fsBlock, sector) && device == disk && firstSector == first
      ensures sectorCount == count && g.fsBlock == fsBlock && g.sector == sector
      ensures g.io == (if fsBlock >= 4096 then fsBlock else 4096) && Times(g.perIo, fsBlock) == g.io
      ensures cachedBlocks == [] && g.perIo > 0 && capacity == blocks / g.perIo
      ensures Contents() == OnDisk(Config(), Now())
    {
      var geometry := GeometryOf(fsBlock, sector);
      UnitSizes(geometry);
      MulNonNegative(blocks, fsBlock);
      DivMul(blocks, geometry.perIo);
      g, capacity, firstSector, sectorCount := geometry, blocks / geometry.perIo, first, count;
      regionBase, regionSize := base, blocks * fsBlock;
      device, memory := disk, seq(blocks * fsBlock, _ => 0);
      offsetWithinRegion, cachedBlocks, blockToCache := 0, [], map[];
      entries, clock, lastUse := [], 0, map[];
      new;
      hide Good;
      hide Sound;
      hide Times;
      hide IsUnit;
      hide Volume;
      EmptyGood(Config(), blocks, memory, disk);
      CleanMeansSaved(Config(), Now());
    }

    ghost function Config(): Setup {
      Setup(g, capacity, regionBase, regionSize, Times(firstSector, g.sector), Times(sectorCount, g.sector))
    }

    ghost function Now(): View
      reads this
    {
      View(entries, offsetWithinRegion, memory, device)
    }

    ghost predicate Mirrored()
      reads this, cachedBlocks
    {
      |entries| == |cachedBlocks| && forall i :: 0 <= i < |entries| ==> cachedBlocks[i].AsEntry() == entries[i]
    }

    ghost predicate Valid()
      reads this, cachedBlocks
    {
      Sound(g) && Good(Config(), Now()) && Mirrored() && Indexed(entries, cachedBlocks, blockToCache) &&
        Recency(entries, lastUse, clock)
    }

    /** The filesystem's bytes as its users see them. */
    ghost function Contents(): seq<Byte>
      requires Valid()
      reads this, cachedBlocks
    {
      Volume(Config(), Now())
    }

    /** A block the cache accepts: its whole unit lies inside the filesystem. */
    ghost predicate Accepts(block: nat) {
      g.perIo > 0 && InVolume(Config(), CachedIndex(g, block))
    }

    lemma Distinct(i: nat, j: nat)
      requires Valid() && i < |cachedBlocks| && j < |cachedBlocks| && i != j
      ensures cachedBlocks[i] != cachedBlocks[j] && entries[i].block != entries[j].block
    {
      assert i < j ==> Disjoint(Config(), entries[i], entries[j]);
      assert j < i ==> Disjoint(Config(), entries[j], entries[i]);
    }

    lemma Bounds()
      requires Valid()
      ensures Tiles(g) && |cachedBlocks| <= capacity && capacity > 0
    {
    }

    // ---------- device requests ----------

    /** The write request for unit `k`, in sectors: the buffer goes to the unit's own bytes on the device. */
    method WriteUnit(k: nat, address: nat)
      requires Sound(g) && Configured(Config()) && Sized(Config(), Now()) && InVolume(Config(), k)
      requires regionBase <= address && address - regionBase + g.io <= regionSize
      modifies `device
      ensures device == Patched(old(device), Config().volumeBase + Times(k, g.fsBlock),
        memory[address - regionBase..address - regionBase + g.io])
    {
      var (first, count) := BlockToSectors(g, k);
      UnitSectors(g, k);
      MulDistributes(firstSector, first, g.sector);
      TimesIsProduct(firstSector, g.sector);
      var at, n, from := (firstSector + first) * g.sector, count * g.sector, address - regionBase;
      device := device[..at] + memory[from..from + n] + device[at + n..];
    }

    /** The read request for unit `k`. */
    method ReadUnit(k: nat, address: nat)
      requires Sound(g) && Configured(Config()) && Sized(Config(), Now()) && InVolume(Config(), k)
      requires regionBase <= address && address - regionBase + g.io <= regionSize
      modifies `memory
      ensures memory == Patched(old(memory), address - regionBase, OnDevice(Config(), old(Now()), k))
    {
      var (first, count) := BlockToSectors(g, k);
      UnitSectors(g, k);
      MulDistributes(firstSector, first, g.sector);
      TimesIsProduct(firstSector, g.sector);
      var at, n, to := (firstSector + first) * g.sector, count * g.sector, address - regionBase;
      memory := memory[..to] + device[at..at + n] + memory[to + n..];
    }

    // ---------- writing back ----------

    /** Writing a unit back changes no byte of the filesystem. */
    method FlushBlock(e: CachedBlock, ghost i: nat)
      requires Valid() && i < |cachedBlocks| && cachedBlocks[i] == e
      modifies `device, `entries, e`addressAndDirty
      ensures Valid() && Contents() == old(Contents())
      ensures Now() == if old(e.IsDirty()) then Flushed(Config(), old(Now()), i) else old(Now())
      ensures entries == Cleaned(old(entries), i)
    {
      hide Good;
      hide Sound;
      hide Times;
      hide IsUnit;
      hide Volume;
      hide Recency;
      hide Indexed;
      assert e.AsEntry() == entries[i];
      if e.IsDirty() {
        ghost var c, v := Config(), Now();
        EntryAt(c, v, i);
        RecencySame(entries, Cleaned(entries, i), lastUse, clock);
        IndexedSame(entries, Cleaned(entries, i), cachedBlocks, blockToCache);
        FlushKeeps(c, v, i);
        forall j | 0 <= j < |cachedBlocks| && j != i ensures cachedBlocks[j] != e { Distinct(i, j); }
        WriteUnit(e.firstBlock, e.Address());
        e.MarkClean();
        entries := Cleaned(entries, i);
        assert Now() == Flushed(c, v, i);
      } else {
        assert entries == Cleaned(entries, i);
      }
    }

    /** Afterwards the device holds the filesystem, which has not changed. */
    method FlushAll()
      requires Valid()
      modifies `device, `entries, cachedBlocks
      ensures Valid() && Contents() == old(Contents())
      ensures OnDisk(Config(), Now()) == Contents()
      ensures forall e :: e in cachedBlocks ==> !e.IsDirty()
    {
      hide Good;
      hide Sound;
      hide Times;
      hide IsUnit;
      hide Volume;
      hide Recency;
      hide Indexed;
      var i := 0;
      while i < |cachedBlocks|
        invariant i <= |cachedBlocks| && Valid() && Contents() == old(Contents())
        invariant forall j :: 0 <= j < i ==> !entries[j].dirty
      {
        if cachedBlocks[i].IsDirty() {
          FlushBlock(cachedBlocks[i], i);
        }
        i := i + 1;
      }
      CleanMeansSaved(Config(), Now());
    }

    /** If the block's unit is cached, its bytes on the device are now the filesystem's. */
    method FlushSpecific(block: nat)
      requires Valid()
      modifies `device, `entries, cachedBlocks
      ensures Valid() && Contents() == old(Contents())
      ensures Accepts(block) ==>
        var k := CachedIndex(g, block); OnDevice(Config(), Now(), k) == Unit(Config(), Now(), k)
    {
      var k := CachedIndex(g, block);
      if k !in blockToCache {
        assert !Cached(Now(), k);
        return;
      }
      ghost var i :| 0 <= i < |entries| && entries[i].block == k;
      FlushBlock(blockToCache[k], i);
      UnitCached(Config(), Now(), entries[i]);
      assert EntryOk(Config(), Now(), entries[i]);
    }

    // ---------- finding room ----------

    /** Takes the last unit, already saved, out of the list and the map. */
    method DropLast() returns (e: CachedBlock)
      requires Valid() && |cachedBlocks| > 0 && !entries[|entries| - 1].dirty
      modifies `cachedBlocks, `blockToCache, `entries, cachedBlocks
      ensures cachedBlocks == old(cachedBlocks)[..|old(cachedBlocks)| - 1] && e == old(cachedBlocks)[|cachedBlocks|]
      ensures e !in cachedBlocks && e.AsEntry() == Entry(old(entries)[|cachedBlocks|].address, false, 0)
      ensures entries == old(entries)[..|cachedBlocks|]
      ensures blockToCache == old(blockToCache) - {old(entries)[|cachedBlocks|].block}
      ensures Mirrored() && Indexed(entries, cachedBlocks, blockToCache)
    {
      hide Good;
      hide Sound;
      hide Times;
      hide IsUnit;
      hide Recency;
      ghost var last := |cachedBlocks| - 1;
      e := cachedBlocks[|cachedBlocks| - 1];
      assert e.AsEntry() == entries[last];
      forall j | 0 <= j < last ensures cachedBlocks[j] != e && entries[j].block != e.firstBlock { Distinct(last, j); }
      blockToCache := blockToCache - {e.firstBlock};
      cachedBlocks := cachedBlocks[..|cachedBlocks| - 1];
      entries := entries[..last];
      e.firstBlock := 0;
    }

    /**
     Gives up the least recently used unit, its changes saved on the device first.
     Its buffer stays with the returned block, and `v` is the cache just before the unit left.
     */
    method EvictOne() returns (e: CachedBlock, ghost v: View)
      requires Valid() && |cachedBlocks| > 0
      modifies `device, `cachedBlocks, `blockToCache, `entries, cachedBlocks
      ensures cachedBlocks == old(cachedBlocks)[..|old(cachedBlocks)| - 1] && e == old(cachedBlocks)[|cachedBlocks|]
      ensures Good(Config(), v) && Volume(Config(), v) == old(Contents()) && |v.entries| == |cachedBlocks| + 1
      ensures Now() == v.(entries := v.entries[..|cachedBlocks|]) && !v.entries[|cachedBlocks|].dirty
      ensures e !in cachedBlocks && e.AsEntry() == Entry(v.entries[|cachedBlocks|].address, false, 0)
      ensures forall k :: Cached(v, k) <==> Cached(old(Now()), k)
      ensures blockToCache == old(blockToCache) - {old(entries)[|cachedBlocks|].block}
      ensures Mirrored() && Indexed(entries, cachedBlocks, blockToCache) && Recency(entries, lastUse, clock)
    {
      hide Good;
      hide Sound;
      hide Times;
      hide IsUnit;
      hide Volume;
      hide Recency;
      hide Indexed;
      hide Cached;
      ghost var last := |cachedBlocks| - 1;
      e := cachedBlocks[|cachedBlocks| - 1];
      assert e.AsEntry() == entries[last];
      if e.IsDirty() {
        FlushBlock(e, last);
      }
      v := Now();
      forall k ensures Cached(v, k) <==> Cached(old(Now()), k) { CachedSame(old(Now()), v, k); }
      RecencySame(v.entries, v.entries[..last], lastUse, clock);
      e := DropLast();
    }

    // ---------- finding a unit ----------

    lemma Found(k: nat) returns (i: nat)
      requires Valid() && k in blockToCache
      ensures i < |cachedBlocks| && cachedBlocks[i] == blockToCache[k] && entries[i].block == k
    {
      i :| 0 <= i < |entries| && entries[i].block == k;
    }

    lemma TouchOrder(i: nat)
      requires Valid() && i < |cachedBlocks|
      ensures Recency(MovedToFront(entries, i), lastUse[entries[i].block := clock], clock + 1)
      ensures Indexed(MovedToFront(entries, i), MovedToFront(cachedBlocks, i), blockToCache)
    {
      hide Good;
      hide Sound;
      forall l | 0 <= l < |cachedBlocks| && l != i ensures entries[l].block != entries[i].block { Distinct(i, l); }
      RecencyWithout(entries, i, lastUse, clock);
      var rest := entries[..i] + entries[i + 1..];
      assert MovedToFront(entries, i) == [entries[i]] + rest;
      RecencyFront(MovedToFront(entries, i), rest, entries[i], lastUse, clock);
      IndexedMoved(entries, cachedBlocks, blockToCache, i);
    }

    lemma TouchMirror(i: nat)
      requires Mirrored() && i < |cachedBlocks|
      ensures forall j :: 0 <= j < |entries| ==>
        MovedToFront(cachedBlocks, i)[j].AsEntry() == MovedToFront(entries, i)[j]
      ensures forall b :: b in MovedToFront(cachedBlocks, i) <==> b in cachedBlocks
    {
      hide CachedBlock.AsEntry;
      forall j | 0 <= j < |entries| ensures MovedToFront(cachedBlocks, i)[j].AsEntry() == MovedToFront(entries, i)[j] {
        var p := if j == 0 then i else if j <= i then j - 1 else j;
        assert MovedToFront(cachedBlocks, i)[j] == cachedBlocks[p] && MovedToFront(entries, i)[j] == entries[p];
      }
      assert cachedBlocks == cachedBlocks[..i] + [cachedBlocks[i]] + cachedBlocks[i + 1..];
    }

    /** The unit was asked for: it moves to the front of the list. */
    method Touch(e: CachedBlock, ghost k: nat)
      requires Valid() && k in blockToCache && blockToCache[k] == e
      modifies `cachedBlocks, `entries, `lastUse, `clock
      ensures Valid() && Contents() == old(Contents())
      ensures |cachedBlocks| > 0 && cachedBlocks[0] == e && e.firstBlock == k
      ensures forall b :: b in cachedBlocks <==> b in old(cachedBlocks)
      ensures lastUse == old(lastUse)[k := old(clock)]
    {
      hide Good;
      hide Sound;
      hide Times;
      hide IsUnit;
      hide Volume;
      hide Recency;
      hide Indexed;
      hide MovedToFront;
      ghost var j := Found(k);
      var i :| 0 <= i < |cachedBlocks| && cachedBlocks[i] == e;
      assert e.AsEntry() == entries[i] && e.AsEntry() == entries[j];
      TouchKeeps(Config(), Now(), i);
      TouchOrder(i);
      TouchMirror(i);
      cachedBlocks := MovedToFront(cachedBlocks, i);
      entries := MovedToFront(entries, i);
      lastUse, clock := lastUse[k := clock], clock + 1;
    }

    /** Reads unit `k` into the buffer of `e`, which is in no list, and puts `e` in front. */
    method InsertLoaded(e: CachedBlock, k: nat, ghost v: View)
      requires Sound(g) && Loading(Config(), v, entries, offsetWithinRegion, e.Address(), k)
      requires Now() == v.(entries := entries, used := offsetWithinRegion)
      requires Mirrored() && Indexed(entries, cachedBlocks, blockToCache) && Recency(entries, lastUse, clock)
      requires e !in cachedBlocks && !e.IsDirty()
      modifies `memory, `cachedBlocks, `entries, `blockToCache, `lastUse, `clock, e`firstBlock
      ensures Valid() && Contents() == Volume(Config(), v)
      ensures cachedBlocks == [e] + old(cachedBlocks) && e.firstBlock == k && blockToCache == old(blockToCache)[k := e]
      ensures lastUse == old(lastUse)[k := old(clock)]
    {
      hide Good, Sound, Times, IsUnit, Volume, Recency, Indexed, InVolume;
      ghost var c := Config();
      ghost var f := Entry(e.Address(), false, k);
      LoadKeeps(c, v, entries, offsetWithinRegion, e.Address(), k);
      LoadingFacts(c, v, entries, offsetWithinRegion, e.Address(), k);
      RecencyFront([f] + entries, entries, f, lastUse, clock);
      IndexedFront(entries, cachedBlocks, blockToCache, f, e);
      ReadUnit(k, e.Address());
      e.firstBlock := k;
      cachedBlocks := [e] + cachedBlocks;
      blockToCache := blockToCache[k := e];
      entries := [f] + entries;
      lastUse, clock := lastUse[k := clock], clock + 1;
      assert Now() == Loaded(c, v, old(entries), offsetWithinRegion, f.address, k);
    }

    method AllocateNextBlockBuffer() returns (address: nat)
      modifies `offsetWithinRegion
      ensures address == regionBase + old(offsetWithinRegion) && offsetWithinRegion == old(offsetWithinRegion) + g.io
    {
      address := regionBase + offsetWithinRegion;
      offsetWithinRegion := offsetWithinRegion + g.io;
    }

    /** Below capacity: unit `k` gets a buffer of its own. */
    method LoadGrowing(k: nat) returns (e: CachedBlock)
      requires Valid() && InVolume(Config(), k) && k !in blockToCache && |cachedBlocks| < capacity
      modifies this
      ensures Valid() && Contents() == old(Contents())
      ensures cachedBlocks == [e] + old(cachedBlocks) && e.firstBlock == k && fresh(e)
      ensures blockToCache == old(blockToCache)[k := e] && lastUse == old(lastUse)[k := old(clock)]
    {
      ghost var v := Now();
      assert !Cached(v, k);
      GrowLoading(Config(), v, k);
      hide Good;
      hide Sound;
      hide Times;
      hide IsUnit;
      hide Volume;
      hide Recency;
      hide Indexed;
      assert (regionBase + offsetWithinRegion) % 2 == 0;
      var address := AllocateNextBlockBuffer();
      e := new CachedBlock(address);
      InsertLoaded(e, k, v);
    }

    lemma NotCached(k: nat)
      requires Valid() && k !in blockToCache
      ensures !Cached(Now(), k) && capacity > 0
    {
    }

    /** At capacity: unit `k` takes the place of the least recently used unit. */
    method LoadReplacing(k: nat) returns (e: CachedBlock)
      requires Valid() && InVolume(Config(), k) && k !in blockToCache && |cachedBlocks| == capacity
      modifies this, cachedBlocks
      ensures Valid() && Contents() == old(Contents())
      ensures |cachedBlocks| == capacity && cachedBlocks[0] == e && e.firstBlock == k
      ensures forall b :: b in cachedBlocks ==> b in old(cachedBlocks)
      ensures blockToCache.Keys == old(blockToCache.Keys) - {old(entries)[capacity - 1].block} + {k}
      ensures lastUse == old(lastUse)[k := old(clock)]
    {
      hide Good, Sound, Times, IsUnit, Volume, Indexed, Recency, Cached, Loading, InVolume;
      NotCached(k);
      ghost var v;
      e, v := EvictOne();
      ReuseLoading(Config(), v, k);
      InsertLoaded(e, k, v);
    }

    lemma LastIsLeastRecent()
      requires Valid() && |entries| > 0
      ensures LeastRecent(blockToCache.Keys, lastUse, entries[|entries| - 1].block)
    {
      hide Good;
      hide Sound;
      hide Times;
      hide IsUnit;
      var u := entries[|entries| - 1].block;
      forall w | w in blockToCache ensures w in lastUse && (w != u ==> lastUse[w] > lastUse[u]) {
        var i := Found(w);
      }
    }

    /**
     The cached unit that holds `block`, now in front, and where the block starts in it.
     No byte of the filesystem changes. Only a miss on a full cache drops a unit: the least recently used one.
     */
    method Lookup(block: nat) returns (e: CachedBlock, offset: nat)
      requires Valid() && Accepts(block)
      modifies this, cachedBlocks
      ensures Valid() && Contents() == old(Contents())
      ensures forall b :: b in cachedBlocks ==> b in old(cachedBlocks) || fresh(b)
      ensures |cachedBlocks| > 0 && cachedBlocks[0] == e && e.firstBlock == CachedIndex(g, block)
      ensures lastUse == old(lastUse)[CachedIndex(g, block) := old(clock)]
      ensures offset == Times(block - CachedIndex(g, block), g.fsBlock)
      ensures var keys, k := old(blockToCache.Keys), CachedIndex(g, block);
        && (k in keys ==> blockToCache.Keys == keys)
        && (k !in keys && |old(cachedBlocks)| < capacity ==> blockToCache.Keys == keys + {k})
        && (k !in keys && |old(cachedBlocks)| == capacity ==>
              exists u :: LeastRecent(keys, old(lastUse), u) && blockToCache.Keys == keys - {u} + {k})
    {
      hide Good;
      hide Sound;
      hide Times;
      hide IsUnit;
      hide Volume;
      hide Recency;
      hide Indexed;
      hide LeastRecent;
      Bounds();
      var k := CachedIndex(g, block);
      BlockInUnit(g, block);
      offset := (block - k) * g.fsBlock;
      TimesIsProduct(block - k, g.fsBlock);
      if k in blockToCache {
        e := blockToCache[k];
        Touch(e, k);
      } else if |cachedBlocks| == capacity {
        LastIsLeastRecent();
        e := LoadReplacing(k);
      } else {
        e := LoadGrowing(k);
      }
    }

    // ---------- reading and writing blocks ----------

    /** The place of a block in the volume and in its cached unit. */
    lemma Coordinates(block: nat, offset: nat, bytes: nat)
      requires Configured(Config()) && Accepts(block) && offset + bytes <= g.fsBlock
      ensures var k := CachedIndex(g, block); var o := Times(block - k, g.fsBlock) + offset;
        && k <= block && o + bytes <= g.io
        && Times(block, g.fsBlock) + offset == Times(k, g.fsBlock) + o
        && Times(block, g.fsBlock) + offset + bytes <= Config().volumeSize
    {
      BlockInUnit(g, block);
    }

    /** Bytes of the front unit's buffer are bytes of the volume. */
    method FetchFromFront(e: CachedBlock, o: nat, n: nat) returns (data: seq<Byte>)
      requires Valid() && |cachedBlocks| > 0 && cachedBlocks[0] == e && o + n <= g.io
      ensures Times(e.firstBlock, g.fsBlock) + o + n <= |Contents()|
      ensures data == Contents()[Times(e.firstBlock, g.fsBlock) + o..Times(e.firstBlock, g.fsBlock) + o + n]
    {
      hide Good;
      hide Sound;
      hide Times;
      hide IsUnit;
      hide Volume;
      hide Recency;
      hide Indexed;
      assert e.AsEntry() == entries[0];
      EntryAt(Config(), Now(), 0);
      UnitCached(Config(), Now(), entries[0]);
      VolumePiece(Config(), Now(), e.firstBlock, o, n);
      var from := e.Address() - regionBase + o;
      data := memory[from..from + n];
      assert data == Buffer(Config(), Now(), entries[0])[o..o + n];
    }

    /**
     Returns the block's bytes as last written.
     `copied` is how many bytes reach the caller's buffer before it faults.
     */
    method ReadOne(block: nat, offset: nat, bytes: nat, copied: nat) returns (outcome: Outcome, data: seq<Byte>)
      requires Valid() && Accepts(block) && offset + bytes <= g.fsBlock && copied <= bytes
      modifies this, cachedBlocks
      ensures Valid() && Contents() == old(Contents())
      ensures outcome == if copied == bytes then Done else AccessViolation
      ensures Times(block, g.fsBlock) + offset + copied <= |old(Contents())|
      ensures data == old(Contents())[Times(block, g.fsBlock) + offset..Times(block, g.fsBlock) + offset + copied]
    {
      hide Good;
      hide Sound;
      hide Times;
      hide IsUnit;
      hide Volume;
      hide Recency;
      hide Indexed;
      var e, inUnit := Lookup(block);
      EntryAt(Config(), Now(), 0);
      Coordinates(block, offset, copied);
      data := FetchFromFront(e, inUnit + offset, copied);
      outcome := if copied == bytes then Done else AccessViolation;
    }

    /** Stores bytes in the buffer of the front unit and marks it dirty. */
    method StoreInFront(e: CachedBlock, o: nat, data: seq<Byte>)
      requires Valid() && |cachedBlocks| > 0 && cachedBlocks[0] == e && o + |data| <= g.io
      requires Times(e.firstBlock, g.fsBlock) + o + |data| <= Config().volumeSize
      modifies `memory, `entries, e`addressAndDirty
      ensures Valid() && Contents() == Patched(old(Contents()), Times(e.firstBlock, g.fsBlock) + o, data)
    {
      hide Good;
      hide Sound;
      hide Times;
      hide IsUnit;
      hide Volume;
      hide Recency;
      hide Indexed;
      ghost var c, v := Config(), Now();
      assert e.AsEntry() == entries[0];
      EntryAt(c, v, 0);
      forall j | 0 < j < |cachedBlocks| ensures cachedBlocks[j] != e { Distinct(0, j); }
      WriteChanges(c, v, 0, o, Times(e.firstBlock, g.fsBlock) + o, data);
      ghost var t := entries[0 := entries[0].(dirty := true)];
      RecencySame(entries, t, lastUse, clock);
      IndexedSame(entries, t, cachedBlocks, blockToCache);
      var to := e.Address() - regionBase + o;
      memory := memory[..to] + data + memory[to + |data|..];
      e.MarkDirty();
      entries := t;
      assert Now() == Written(c, v, 0, o, data);
    }

    /**
     Replaces exactly the bytes written.
     A fault in the caller's buffer after `copied` bytes leaves those bytes written and is reported.
     */
    method WriteOne(block: nat, offset: nat, data: seq<Byte>, copied: nat) returns (outcome: Outcome)
      requires Valid() && Accepts(block) && offset + |data| <= g.fsBlock && copied <= |data|
      modifies this, cachedBlocks
      ensures Valid() && outcome == if copied == |data| then Done else AccessViolation
      ensures Times(block, g.fsBlock) + offset + copied <= |old(Contents())|
      ensures Contents() == Patched(old(Contents()), Times(block, g.fsBlock) + offset, data[..copied])
    {
      hide Good;
      hide Sound;
      hide Times;
      hide IsUnit;
      hide Volume;
      hide Recency;
      hide Indexed;
      var e, inUnit := Lookup(block);
      EntryAt(Config(), Now(), 0);
      Coordinates(block, offset, copied);
      assert e in cachedBlocks;
      StoreInFront(e, inUnit + offset, data[..copied]);
      outcome := if copied == |data| then Done else AccessViolation;
    }

    /** Replaces exactly one block by zeros. */
    method ZeroFillOne(block: nat)
      requires Valid() && Accepts(block)
      modifies this, cachedBlocks
      ensures Valid() && Times(block, g.fsBlock) + g.fsBlock <= |old(Contents())|
      ensures Contents() == Patched(old(Contents()), Times(block, g.fsBlock), seq(g.fsBlock, _ => 0))
    {
      hide Good;
      hide Sound;
      hide Times;
      hide IsUnit;
      hide Volume;
      hide Recency;
      hide Indexed;
      var e, inUnit := Lookup(block);
      EntryAt(Config(), Now(), 0);
      Coordinates(block, 0, g.fsBlock);
      assert e in cachedBlocks;
      StoreInFront(e, inUnit, seq(g.fsBlock, _ => 0));
    }
  }
}
