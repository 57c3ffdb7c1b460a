/** Four-level page tables in physical memory, and the flat map from pages to frames they stand for. */
module PageTables {
  import opened Arithmetic
  import opened Common

  const ENTRY_COUNT := 512
  const VIRTUAL_LIMIT := 0x1_0000_0000_0000
  /** An entry has forty bits for the frame number. */
  const FRAME_LIMIT := 0x100_0000_0000

  // ---------- entries ----------

  const PRESENT: bv12 := 1
  const READ_WRITE: bv12 := 2
  const USER: bv12 := 4

  /** Attribute bits and the physical address without its low twelve bits. */
  datatype Entry = Entry(attributes: bv12, frame: nat) {
    predicate IsPresent() { attributes & PRESENT != 0 }
    predicate IsUser() { attributes & USER != 0 }
    function PhysicalAddress(): nat { frame * PAGE_SIZE }
  }

  /** The frame number an entry keeps of a physical address. */
  function FrameFor(address: nat): nat { address / PAGE_SIZE % FRAME_LIMIT }

  function MakePresent(address: nat, supervisor: bool): Entry {
    Entry(if supervisor then PRESENT | READ_WRITE else PRESENT | READ_WRITE | USER, FrameFor(address))
  }

  function MakeAbsent(e: Entry): Entry {
    Entry(e.attributes & !PRESENT, e.frame)
  }

  /** Storing a page address and reading it back is exact for addresses of 52 bits, and only for those. */
  lemma EntryRoundTrip(address: nat, supervisor: bool)
    requires address % PAGE_SIZE == 0
    ensures var e := MakePresent(address, supervisor);
      && e.IsPresent() && e.IsUser() == !supervisor && e.frame == FrameFor(address)
      && e.attributes == (if supervisor then 3 else 7)
      && (e.PhysicalAddress() == address <==> address < 0x10_0000_0000_0000)
  {
  }

  lemma FrameKept(frame: nat)
    requires frame < FRAME_LIMIT
    ensures FrameFor(frame * PAGE_SIZE) == frame
  {
  }

  lemma AbsentEntry(e: Entry)
    ensures !MakeAbsent(e).IsPresent() && MakeAbsent(e).frame == e.frame && MakeAbsent(e).IsUser() == e.IsUser()
    ensures MakeAbsent(e).attributes == e.attributes & 0xFFE
  {
  }

  // ---------- indices ----------

  /** The table indices of a virtual address, top level first. */
  function Indices(v: nat): (q: seq<nat>)
    ensures |q| == 4 && forall i :: 0 <= i < 4 ==> q[i] < ENTRY_COUNT
  {
    [v / 0x80_0000_0000 % 512, v / 0x4000_0000 % 512, v / 0x20_0000 % 512, v / 0x1000 % 512]
  }

  /** The indices of a page address determine its low 48 bits and nothing else matters. */
  lemma IndicesCompose(v: nat)
    requires v % PAGE_SIZE == 0
    ensures var q := Indices(v);
      q[0] * 0x80_0000_0000 + q[1] * 0x4000_0000 + q[2] * 0x20_0000 + q[3] * 0x1000 == v % VIRTUAL_LIMIT
  {
    var a, b, c, d := v / 0x1000, v / 0x20_0000, v / 0x4000_0000, v / 0x80_0000_0000;
    assert b == a / 512 && c == b / 512 && d == c / 512;
    var top := d / 512;
    assert v == top * VIRTUAL_LIMIT
      + (d % 512 * 0x80_0000_0000 + c % 512 * 0x4000_0000 + b % 512 * 0x20_0000 + a % 512 * 0x1000);
    DivUnique(v, VIRTUAL_LIMIT, top,
      d % 512 * 0x80_0000_0000 + c % 512 * 0x4000_0000 + b % 512 * 0x20_0000 + a % 512 * 0x1000);
  }

  lemma SameLowBits(v: nat)
    ensures Indices(v) == Indices(v % VIRTUAL_LIMIT)
  {
    LowIndex(v, 0x80_0000_0000, 1);
    LowIndex(v, 0x4000_0000, 512);
    LowIndex(v, 0x20_0000, 0x4_0000);
    LowIndex(v, 0x1000, 0x800_0000);
  }

  lemma LowIndex(v: nat, unit: nat, m: nat)
    requires unit > 0 && unit * m * 512 == VIRTUAL_LIMIT
    ensures v / unit % 512 == v % VIRTUAL_LIMIT / unit % 512
  {
    var top, low := v / VIRTUAL_LIMIT, v % VIRTUAL_LIMIT;
    var q, r := low / unit, low % unit;
    assert low == q * unit + r;
    var n := top * m;
    assert top * VIRTUAL_LIMIT == n * 512 * unit by {
      assert top * (unit * m * 512) == top * m * 512 * unit;
    }
    MulDistributes(n * 512, q, unit);
    DivUnique(v, unit, n * 512 + q, r);
    assert (n * 512 + q) % 512 == q % 512;
  }

  /** Two pages have the same indices exactly when they agree in their low 48 bits. */
  lemma IndicesInjective(v: nat, w: nat)
    requires v % PAGE_SIZE == 0 && w % PAGE_SIZE == 0
    ensures Indices(v) == Indices(w) <==> v % VIRTUAL_LIMIT == w % VIRTUAL_LIMIT
  {
    IndicesCompose(v);
    IndicesCompose(w);
    if v % VIRTUAL_LIMIT == w % VIRTUAL_LIMIT {
      SameLowBits(v);
      SameLowBits(w);
    }
  }

  // ---------- tables in memory ----------

  /** Entry `index` of the table in the given frame. */
  datatype Slot = Slot(frame: nat, index: nat)

  type Memory = map<Slot, Entry>

  /** The index path from the top table down to each table; the top table's is empty. */
  type Paths = map<nat, seq<nat>>

  ghost predicate IsTable(m: Memory, f: nat) {
    forall i: nat :: i < ENTRY_COUNT ==> Slot(f, i) in m
  }

  /** A present entry above the last level leads to the table with the path extended by its index. */
  ghost predicate LeadsDown(m: Memory, paths: Paths, f: nat, i: nat)
    requires f in paths && Slot(f, i) in m
  {
    var e := m[Slot(f, i)];
    |paths[f]| < 3 && e.IsPresent() ==> e.frame in paths && paths[e.frame] == paths[f] + [i]
  }

  ghost predicate TableOk(m: Memory, paths: Paths, f: nat)
    requires f in paths
  {
    && |paths[f]| <= 3 && ValidIndices(paths[f]) && IsTable(m, f)
    && forall i: nat :: i < ENTRY_COUNT ==> LeadsDown(m, paths, f, i)
  }

  /** Every table has its own path: no table is reached in two ways. */
  ghost predicate OwnPaths(paths: Paths) {
    forall f, g :: f in paths && g in paths && paths[f] == paths[g] ==> f == g
  }

  /** Every table but the top one hangs off the entry its path names. */
  ghost predicate Linked(m: Memory, paths: Paths, g: nat)
    requires g in paths && paths[g] != []
  {
    var p := paths[g];
    exists f :: f in paths && paths[f] == p[..|p| - 1] && HangsOff(m, f, p[|p| - 1], g)
  }

  ghost predicate HangsOff(m: Memory, f: nat, i: nat, g: nat) {
    Slot(f, i) in m && m[Slot(f, i)].IsPresent() && m[Slot(f, i)].frame == g
  }

  ghost predicate WellFormed(m: Memory, root: nat, paths: Paths) {
    && root in paths && paths[root] == [] && OwnPaths(paths)
    && (forall f :: f in paths ==> TableOk(m, paths, f))
    && (forall g :: g in paths && paths[g] != [] ==> Linked(m, paths, g))
  }

  ghost predicate ValidIndices(q: seq<nat>) {
    forall i :: 0 <= i < |q| ==> q[i] < ENTRY_COUNT
  }

  /** The table reached from `f` along the indices `q`. */
  ghost function Walk(m: Memory, f: nat, q: seq<nat>): Option<nat>
    decreases |q|
  {
    if q == [] then Some(f)
    else if Slot(f, q[0]) in m && m[Slot(f, q[0])].IsPresent() then Walk(m, m[Slot(f, q[0])].frame, q[1..])
    else None
  }

  /** What the processor finds for the page with indices `q`: a frame, if all four entries are present. */
  ghost function Translate(m: Memory, root: nat, q: seq<nat>): Option<nat>
    requires |q| == 4
  {
    match Walk(m, root, q[..3])
    case None => None
    case Some(f) => if Slot(f, q[3]) in m && m[Slot(f, q[3])].IsPresent() then Some(m[Slot(f, q[3])].frame) else None
  }

  /** A walk from table `f` ends at the table whose path is that of `f` extended by the indices walked. */
  lemma {:induction false} WalkEnds(m: Memory, root: nat, paths: Paths, f: nat, q: seq<nat>)
    requires WellFormed(m, root, paths) && f in paths && ValidIndices(q) && |paths[f]| + |q| <= 3
    ensures Walk(m, f, q).Some? ==> Walk(m, f, q).value in paths && paths[Walk(m, f, q).value] == paths[f] + q
    decreases |q|
  {
    hide WellFormed;
    if q == [] {
      assert paths[f] + q == paths[f];
      return;
    }
    EntryFacts(m, root, paths, f, q[0]);
    if m[Slot(f, q[0])].IsPresent() {
      var g := m[Slot(f, q[0])].frame;
      WalkEnds(m, root, paths, g, q[1..]);
      assert paths[f] + [q[0]] + q[1..] == paths[f] + q;
    }
  }

  /** Changing an entry off the way leaves a walk alone. */
  lemma {:induction false} WalkSame(m: Memory, root: nat, paths: Paths, f: nat, q: seq<nat>, slot: Slot, e: Entry)
    requires WellFormed(m, root, paths) && f in paths && ValidIndices(q) && |paths[f]| + |q| <= 3
    requires slot.frame in paths && !(paths[slot.frame] + [slot.index] <= paths[f] + q)
    ensures Walk(m[slot := e], f, q) == Walk(m, f, q)
    decreases |q|
  {
    hide WellFormed;
    if q != [] {
      EntryFacts(m, root, paths, f, q[0]);
      assert paths[f] + [q[0]] + q[1..] == paths[f] + q;
      if m[Slot(f, q[0])].IsPresent() {
        WalkSame(m, root, paths, m[Slot(f, q[0])].frame, q[1..], slot, e);
      }
    }
  }

  lemma {:induction false} WalkConcat(m: Memory, f: nat, a: seq<nat>, b: seq<nat>)
    ensures Walk(m, f, a + b) == match Walk(m, f, a) case None => None case Some(g) => Walk(m, g, b)
    decreases |a|
  {
    if a == [] {
      assert a + b == b;
    } else {
      assert (a + b)[1..] == a[1..] + b;
      if Slot(f, a[0]) in m { WalkConcat(m, m[Slot(f, a[0])].frame, a[1..], b); }
    }
  }

  /** Every table is reached along its path. */
  lemma {:induction false} Reach(m: Memory, root: nat, paths: Paths, f: nat)
    requires WellFormed(m, root, paths) && f in paths
    ensures Walk(m, root, paths[f]) == Some(f)
    decreases |paths[f]|
  {
    if paths[f] == [] {
      OnlyRoot(m, root, paths, f);
    } else {
      var h := Parent(m, root, paths, f);
      Reach(m, root, paths, h);
      hide WellFormed;
      ReachStep(m, root, paths, h, f);
    }
  }

  lemma OnlyRoot(m: Memory, root: nat, paths: Paths, f: nat)
    requires WellFormed(m, root, paths) && f in paths && paths[f] == []
    ensures f == root
  {
    hide TableOk, Linked;
  }

  lemma Parent(m: Memory, root: nat, paths: Paths, f: nat) returns (h: nat)
    requires WellFormed(m, root, paths) && f in paths && paths[f] != []
    ensures h in paths && paths[h] == paths[f][..|paths[f]| - 1] && HangsOff(m, h, paths[f][|paths[f]| - 1], f)
  {
    hide TableOk;
    assert Linked(m, paths, f);
    h :| h in paths && paths[h] == paths[f][..|paths[f]| - 1] && HangsOff(m, h, paths[f][|paths[f]| - 1], f);
  }

  lemma ReachStep(m: Memory, root: nat, paths: Paths, h: nat, f: nat)
    requires h in paths && f in paths && paths[f] != [] && paths[h] == paths[f][..|paths[f]| - 1]
    requires Walk(m, root, paths[h]) == Some(h) && HangsOff(m, h, paths[f][|paths[f]| - 1], f)
    ensures Walk(m, root, paths[f]) == Some(f)
  {
    var last := paths[f][|paths[f]| - 1];
    WalkConcat(m, root, paths[h], [last]);
    assert paths[f] == paths[h] + [last];
    assert Walk(m, h, [last]) == Walk(m, f, []);
  }

  // ---------- writing a last-level entry ----------

  ghost predicate IsPage(q: seq<nat>) {
    |q| == 4 && ValidIndices(q)
  }

  lemma LeafKeeps(m: Memory, root: nat, paths: Paths, f: nat, i: nat, e: Entry)
    requires WellFormed(m, root, paths) && f in paths && |paths[f]| == 3 && i < ENTRY_COUNT
    ensures WellFormed(m[Slot(f, i) := e], root, paths)
  {
    var n := m[Slot(f, i) := e];
    forall g | g in paths ensures TableOk(n, paths, g) {
      assert TableOk(m, paths, g);
      forall j: nat | j < ENTRY_COUNT ensures LeadsDown(n, paths, g, j) { assert LeadsDown(m, paths, g, j); }
    }
    forall g | g in paths && paths[g] != [] ensures Linked(n, paths, g) {
      assert Linked(m, paths, g) && TableOk(m, paths, g);
      var p := paths[g];
      var h :| h in paths && paths[h] == p[..|p| - 1] && HangsOff(m, h, p[|p| - 1], g);
      assert HangsOff(n, h, p[|p| - 1], g);
    }
  }

  /** It changes the translation of its own page and of no other. */
  lemma LeafWrite(m: Memory, root: nat, paths: Paths, f: nat, i: nat, e: Entry, q: seq<nat>)
    requires WellFormed(m, root, paths) && f in paths && |paths[f]| == 3 && i < ENTRY_COUNT && IsPage(q)
    ensures Translate(m[Slot(f, i) := e], root, q)
         == if q == paths[f] + [i] then (if e.IsPresent() then Some(e.frame) else None) else Translate(m, root, q)
  {
    WalkSame(m, root, paths, root, q[..3], Slot(f, i), e);
    WalkEnds(m, root, paths, root, q[..3]);
    Reach(m, root, paths, f);
    assert q == q[..3] + [q[3]];
    if q == paths[f] + [i] { assert q[..3] == paths[f] && q[3] == i; }
  }

  // ---------- hanging in a new table ----------

  ghost predicate Blank(m: Memory, g: nat) {
    g < FRAME_LIMIT && IsTable(m, g) && forall i: nat :: i < ENTRY_COUNT ==> !m[Slot(g, i)].IsPresent()
  }

  lemma BlankStays(m: Memory, n: Memory, g: nat)
    requires Blank(m, g) && forall s :: s in m && s.frame == g ==> s in n && n[s] == m[s]
    ensures Blank(n, g)
  {
  }

  ghost predicate CanHang(m: Memory, root: nat, paths: Paths, f: nat, i: nat, g: nat) {
    && WellFormed(m, root, paths) && f in paths && |paths[f]| < 3 && i < ENTRY_COUNT
    && Slot(f, i) in m && !m[Slot(f, i)].IsPresent() && g !in paths && Blank(m, g)
  }

  /** Nobody has the new path yet. */
  lemma PathUnused(m: Memory, root: nat, paths: Paths, f: nat, i: nat, g: nat, h: nat)
    requires CanHang(m, root, paths, f, i, g) && h in paths
    ensures paths[h] != paths[f] + [i]
  {
    var p := paths[f] + [i];
    assert p[..|p| - 1] == paths[f] && p[|p| - 1] == i;
    if paths[h] != [] { assert Linked(m, paths, h); }
  }

  lemma HangKeeps(m: Memory, root: nat, paths: Paths, f: nat, i: nat, g: nat, e: Entry)
    requires CanHang(m, root, paths, f, i, g) && e.IsPresent() && e.frame == g
    ensures WellFormed(m[Slot(f, i) := e], root, paths[g := paths[f] + [i]])
  {
    hide TableOk, Linked, IsTable;
    var n, after := m[Slot(f, i) := e], paths[g := paths[f] + [i]];
    HungPaths(m, root, paths, f, i, g);
    forall h | h in after ensures TableOk(n, after, h) { HungTable(m, root, paths, f, i, g, e, h); }
    forall h | h in after && after[h] != [] ensures Linked(n, after, h) { HungLink(m, root, paths, f, i, g, e, h); }
  }

  lemma HungPaths(m: Memory, root: nat, paths: Paths, f: nat, i: nat, g: nat)
    requires CanHang(m, root, paths, f, i, g)
    ensures OwnPaths(paths[g := paths[f] + [i]])
  {
    hide TableOk, Linked, Blank;
    forall h | h in paths ensures paths[h] != paths[f] + [i] { PathUnused(m, root, paths, f, i, g, h); }
  }

  lemma HungTable(m: Memory, root: nat, paths: Paths, f: nat, i: nat, g: nat, e: Entry, h: nat)
    requires CanHang(m, root, paths, f, i, g) && e.IsPresent() && e.frame == g && (h in paths || h == g)
    ensures TableOk(m[Slot(f, i) := e], paths[g := paths[f] + [i]], h)
  {
    var n, after := m[Slot(f, i) := e], paths[g := paths[f] + [i]];
    if h in paths { assert TableOk(m, paths, h); }
    forall j: nat | j < ENTRY_COUNT ensures LeadsDown(n, after, h, j) {
      if h in paths { assert LeadsDown(m, paths, h, j); }
    }
  }

  lemma HungLink(m: Memory, root: nat, paths: Paths, f: nat, i: nat, g: nat, e: Entry, h: nat)
    requires CanHang(m, root, paths, f, i, g) && e.IsPresent() && e.frame == g
    requires (h in paths && paths[h] != []) || h == g
    ensures Linked(m[Slot(f, i) := e], paths[g := paths[f] + [i]], h)
  {
    var n, after := m[Slot(f, i) := e], paths[g := paths[f] + [i]];
    var p := after[h];
    if h == g {
      assert f in after && after[f] == p[..|p| - 1] && p[|p| - 1] == i && HangsOff(n, f, i, g);
    } else {
      assert Linked(m, paths, h);
      assert p == paths[h];
      var k :| k in paths && paths[k] == p[..|p| - 1] && HangsOff(m, k, p[|p| - 1], h);
      assert k in after && after[k] == p[..|p| - 1] && HangsOff(n, k, p[|p| - 1], h);
    }
  }

  /** A blank table translates nothing, so hanging it in changes no translation. */
  lemma HangTranslates(m: Memory, root: nat, paths: Paths, f: nat, i: nat, g: nat, e: Entry, q: seq<nat>)
    requires CanHang(m, root, paths, f, i, g) && e.IsPresent() && e.frame == g && IsPage(q)
    ensures Translate(m[Slot(f, i) := e], root, q) == Translate(m, root, q)
  {
    var p := paths[f];
    if p + [i] <= q[..3] {
      HangBelow(m, root, paths, f, i, g, e, q);
    } else {
      WalkSame(m, root, paths, root, q[..3], Slot(f, i), e);
      WalkEnds(m, root, paths, root, q[..3]);
    }
  }

  lemma HangBelow(m: Memory, root: nat, paths: Paths, f: nat, i: nat, g: nat, e: Entry, q: seq<nat>)
    requires CanHang(m, root, paths, f, i, g) && e.IsPresent() && e.frame == g && IsPage(q) && paths[f] + [i] <= q[..3]
    ensures Translate(m[Slot(f, i) := e], root, q) == None && Translate(m, root, q) == None
  {
    hide WellFormed;
    RootFacts(m, root, paths);
    var n, p, rest := m[Slot(f, i) := e], paths[f], q[|paths[f]| + 1..3];
    assert p == q[..|p|] && q[..3] == p + ([i] + rest) && ([i] + rest)[1..] == rest;
    Reach(m, root, paths, f);
    WalkSame(m, root, paths, root, p, Slot(f, i), e);
    WalkConcat(m, root, p, [i] + rest);
    WalkConcat(n, root, p, [i] + rest);
    assert Walk(n, f, [i] + rest) == Walk(n, g, rest);
    BlankWalk(n, g, rest, q[3]);
  }

  lemma BlankWalk(m: Memory, g: nat, rest: seq<nat>, i: nat)
    requires Blank(m, g) && ValidIndices(rest) && i < ENTRY_COUNT
    ensures Walk(m, g, rest) == if rest == [] then Some(g) else None
    ensures Slot(g, i) in m && !m[Slot(g, i)].IsPresent()
  {
  }

  lemma EntryFacts(m: Memory, root: nat, paths: Paths, f: nat, i: nat)
    requires WellFormed(m, root, paths) && f in paths && i < ENTRY_COUNT
    ensures Slot(f, i) in m && LeadsDown(m, paths, f, i) && |paths[f]| <= 3
  {
    assert TableOk(m, paths, f);
  }

  lemma RootFacts(m: Memory, root: nat, paths: Paths)
    requires WellFormed(m, root, paths)
    ensures root in paths && paths[root] == []
  {
  }

  lemma WalkOne(m: Memory, f: nat, q: seq<nat>)
    ensures q == [] ==> Walk(m, f, q) == Some(f)
    ensures q != [] && Slot(f, q[0]) in m ==>
      Walk(m, f, q) == if m[Slot(f, q[0])].IsPresent() then Walk(m, m[Slot(f, q[0])].frame, q[1..]) else None
  {
  }

  /** The walk of a page, entry by entry. */
  lemma PathFacts(m: Memory, root: nat, paths: Paths, q: seq<nat>)
    requires WellFormed(m, root, paths) && IsPage(q)
    ensures Slot(root, q[0]) in m
    ensures !m[Slot(root, q[0])].IsPresent() ==> Walk(m, root, q[..3]) == None
    ensures m[Slot(root, q[0])].IsPresent() ==> var f := m[Slot(root, q[0])].frame;
      && Slot(f, q[1]) in m
      && (!m[Slot(f, q[1])].IsPresent() ==> Walk(m, root, q[..3]) == None)
      && (m[Slot(f, q[1])].IsPresent() ==> var g := m[Slot(f, q[1])].frame;
            && Slot(g, q[2]) in m
            && (!m[Slot(g, q[2])].IsPresent() ==> Walk(m, root, q[..3]) == None)
            && (m[Slot(g, q[2])].IsPresent() ==> var h := m[Slot(g, q[2])].frame;
                  Slot(h, q[3]) in m && Walk(m, root, q[..3]) == Some(h) && h in paths && paths[h] == q[..3]))
  {
    hide WellFormed, Walk;
    RootFacts(m, root, paths);
    EntryFacts(m, root, paths, root, q[0]);
    assert q[..3][1..] == q[1..3] && q[1..3][1..] == q[2..3] && q[2..3][1..] == [];
    WalkOne(m, root, q[..3]);
    if m[Slot(root, q[0])].IsPresent() {
      var f := m[Slot(root, q[0])].frame;
      assert paths[f] == q[..1];
      EntryFacts(m, root, paths, f, q[1]);
      WalkOne(m, f, q[1..3]);
      if m[Slot(f, q[1])].IsPresent() {
        var g := m[Slot(f, q[1])].frame;
        assert paths[g] == q[..2];
        EntryFacts(m, root, paths, g, q[2]);
        WalkOne(m, g, q[2..3]);
        if m[Slot(g, q[2])].IsPresent() {
          var h := m[Slot(g, q[2])].frame;
          assert paths[h] == q[..3];
          WalkOne(m, h, []);
          EntryFacts(m, root, paths, h, q[3]);
        }
      }
    }
  }

  lemma LeafWalks(m: Memory, root: nat, paths: Paths, f: nat, i: nat, e: Entry, q: seq<nat>)
    requires WellFormed(m, root, paths) && f in paths && |paths[f]| == 3 && i < ENTRY_COUNT && IsPage(q)
    ensures Walk(m[Slot(f, i) := e], root, q[..3]) == Walk(m, root, q[..3])
  {
    WalkSame(m, root, paths, root, q[..3], Slot(f, i), e);
  }

  // ---------- user access ----------

  /** Every entry along the way is there and open to user mode, which is what the processor asks for. */
  ghost predicate UserPath(m: Memory, f: nat, q: seq<nat>)
    decreases |q|
  {
    q == [] || (
      && Slot(f, q[0]) in m && m[Slot(f, q[0])].IsPresent() && m[Slot(f, q[0])].IsUser()
      && UserPath(m, m[Slot(f, q[0])].frame, q[1..]))
  }

  /** No entry that is there along the way is for the supervisor only. */
  ghost predicate OpenPath(m: Memory, f: nat, q: seq<nat>)
    decreases |q|
  {
    q == [] || (Slot(f, q[0]) in m && m[Slot(f, q[0])].IsPresent() ==>
      m[Slot(f, q[0])].IsUser() && OpenPath(m, m[Slot(f, q[0])].frame, q[1..]))
  }

  lemma {:induction false} OpenMeansUser(m: Memory, f: nat, q: seq<nat>)
    requires Walk(m, f, q).Some?
    ensures UserPath(m, f, q) <==> OpenPath(m, f, q)
    decreases |q|
  {
    if q != [] { OpenMeansUser(m, m[Slot(f, q[0])].frame, q[1..]); }
  }

  lemma {:induction false} OpenConcat(m: Memory, f: nat, a: seq<nat>, b: seq<nat>)
    requires Walk(m, f, a).Some?
    ensures OpenPath(m, f, a + b) <==> OpenPath(m, f, a) && OpenPath(m, Walk(m, f, a).value, b)
    decreases |a|
  {
    if a == [] {
      assert a + b == b;
    } else {
      assert (a + b)[1..] == a[1..] + b;
      OpenConcat(m, m[Slot(f, a[0])].frame, a[1..], b);
    }
  }

  lemma {:induction false} OpenSame(m: Memory, root: nat, paths: Paths, f: nat, q: seq<nat>, slot: Slot, e: Entry)
    requires WellFormed(m, root, paths) && f in paths && ValidIndices(q) && |paths[f]| + |q| <= 3
    requires slot.frame in paths && !(paths[slot.frame] + [slot.index] <= paths[f] + q)
    ensures OpenPath(m[slot := e], f, q) <==> OpenPath(m, f, q)
    decreases |q|
  {
    hide WellFormed;
    if q != [] {
      EntryFacts(m, root, paths, f, q[0]);
      assert paths[f] + [q[0]] + q[1..] == paths[f] + q;
      if m[Slot(f, q[0])].IsPresent() {
        OpenSame(m, root, paths, m[Slot(f, q[0])].frame, q[1..], slot, e);
      }
    }
  }

  /** A path below the new table is closed if the table is the supervisor's; any other path stays as open as it was. */
  lemma HangOpens(m: Memory, root: nat, paths: Paths, f: nat, i: nat, g: nat, e: Entry, q: seq<nat>)
    requires CanHang(m, root, paths, f, i, g) && e.IsPresent() && e.frame == g && IsPage(q)
    ensures OpenPath(m[Slot(f, i) := e], root, q[..3]) <==>
      OpenPath(m, root, q[..3]) && !(!e.IsUser() && paths[f] + [i] <= q[..3])
  {
    if paths[f] + [i] <= q[..3] {
      HangOpensBelow(m, root, paths, f, i, g, e, q);
    } else {
      OpenSame(m, root, paths, root, q[..3], Slot(f, i), e);
    }
  }

  lemma HangOpensBelow(m: Memory, root: nat, paths: Paths, f: nat, i: nat, g: nat, e: Entry, q: seq<nat>)
    requires CanHang(m, root, paths, f, i, g) && e.IsPresent() && e.frame == g && IsPage(q)
    requires paths[f] + [i] <= q[..3]
    ensures OpenPath(m[Slot(f, i) := e], root, q[..3]) <==> OpenPath(m, root, q[..3]) && e.IsUser()
  {
    hide WellFormed;
    RootFacts(m, root, paths);
    var n, p, rest := m[Slot(f, i) := e], paths[f], q[|paths[f]| + 1..3];
    assert p == q[..|p|] && q[..3] == p + ([i] + rest) && ([i] + rest)[1..] == rest;
    Reach(m, root, paths, f);
    WalkSame(m, root, paths, root, p, Slot(f, i), e);
    OpenSame(m, root, paths, root, p, Slot(f, i), e);
    OpenConcat(m, root, p, [i] + rest);
    OpenConcat(n, root, p, [i] + rest);
    assert OpenPath(m, f, [i] + rest);
    assert OpenPath(n, g, rest);
    assert OpenPath(n, f, [i] + rest) <==> e.IsUser();
  }

  /** The walk one level further down. */
  lemma WalkNext(m: Memory, root: nat, paths: Paths, f: nat, i: nat)
    requires WellFormed(m, root, paths) && f in paths && Slot(f, i) in m
    ensures Walk(m, root, paths[f] + [i]) == if m[Slot(f, i)].IsPresent() then Some(m[Slot(f, i)].frame) else None
  {
    Reach(m, root, paths, f);
    WalkConcat(m, root, paths[f], [i]);
    assert [i][1..] == [];
  }

  /** From `m` to `n` the paths through `p` are closed, if at all, and no other path changes. */
  ghost predicate ClosedBelow(m: Memory, n: Memory, root: nat, p: seq<nat>, closes: bool) {
    forall q :: IsPage(q) ==> (OpenPath(n, root, q[..3]) <==> OpenPath(m, root, q[..3]) && !(closes && p <= q[..3]))
  }

  /** `q` shares with `p` a stretch from the root for which there is no table. */
  ghost predicate SharesMissing(m: Memory, root: nat, p: seq<nat>, q: seq<nat>)
    requires IsPage(p) && IsPage(q)
  {
    exists k :: 1 <= k <= 3 && q[..k] == p[..k] && Walk(m, root, q[..k]) == None
  }

  /** There is no table at the end of a path exactly if no table has that path. */
  lemma MissingIff(m: Memory, root: nat, paths: Paths, p: seq<nat>)
    requires WellFormed(m, root, paths) && ValidIndices(p) && |p| <= 3
    ensures Walk(m, root, p) == None <==> p !in paths.Values
  {
    hide WellFormed, Walk;
    RootFacts(m, root, paths);
    WalkEnds(m, root, paths, root, p);
    assert paths[root] + p == p;
    if Walk(m, root, p).Some? { assert paths[Walk(m, root, p).value] == p; }
    if p in paths.Values {
      var f :| f in paths && paths[f] == p;
      Reach(m, root, paths, f);
    }
  }

  /** Hanging in the missing tables from the top down closes what shares the first of them. */
  lemma LevelsClose(m: Memory, n: Memory, o: Memory, root: nat, p: seq<nat>, q: seq<nat>)
    requires IsPage(p) && IsPage(q)
    requires Walk(m, root, p[..1]).Some? ==> n == m
    requires Walk(n, root, p[..2]).Some? ==> o == n
    requires Walk(m, root, p[..1]) == None ==> Walk(m, root, p[..2]) == None && Walk(m, root, p[..3]) == None
    requires Walk(m, root, p[..2]) == None ==> Walk(m, root, p[..3]) == None
    ensures SharesMissing(m, root, p, q) <==>
      || (Walk(m, root, p[..1]) == None && p[..1] <= q[..3])
      || (Walk(n, root, p[..2]) == None && p[..2] <= q[..3])
      || (Walk(o, root, p[..3]) == None && p[..3] <= q[..3])
  {
    hide Walk;
    assert forall k :: 1 <= k <= 3 ==> (p[..k] <= q[..3] <==> q[..k] == p[..k]);
    assert q[..2] == p[..2] ==> q[..1] == p[..1] by { assert q[..2][..1] == q[..1] && p[..2][..1] == p[..1]; }
    assert q[..3] == p[..3] ==> q[..2] == p[..2] by { assert q[..3][..2] == q[..2] && p[..3][..2] == p[..2]; }
  }

  lemma {:induction false} WalkLonger(m: Memory, f: nat, a: seq<nat>, b: seq<nat>)
    requires Walk(m, f, a) == None
    ensures Walk(m, f, a + b) == None
  {
    WalkConcat(m, f, a, b);
  }

  /** Only a mapped page can be used from user mode. */
  lemma UserTranslates(m: Memory, root: nat, q: seq<nat>)
    requires IsPage(q) && UserPath(m, root, q)
    ensures Translate(m, root, q).Some?
  {
    assert q == q[..3] + [q[3]];
    UserWalks(m, root, q[..3], [q[3]]);
  }

  lemma {:induction false} UserWalks(m: Memory, f: nat, a: seq<nat>, b: seq<nat>)
    requires UserPath(m, f, a + b)
    ensures Walk(m, f, a).Some? && UserPath(m, Walk(m, f, a).value, b)
    decreases |a|
  {
    if a == [] {
      assert a + b == b;
    } else {
      assert (a + b)[1..] == a[1..] + b;
      UserWalks(m, m[Slot(f, a[0])].frame, a[1..], b);
    }
  }

  /** A write off the way to a page does not change its use from user mode. */
  lemma {:induction false} UserSame(m: Memory, root: nat, paths: Paths, f: nat, q: seq<nat>, slot: Slot, e: Entry)
    requires WellFormed(m, root, paths) && f in paths && ValidIndices(q) && |paths[f]| + |q| <= 4
    requires slot.frame in paths && !(paths[slot.frame] + [slot.index] <= paths[f] + q)
    ensures UserPath(m[slot := e], f, q) <==> UserPath(m, f, q)
    decreases |q|
  {
    hide WellFormed;
    if q != [] {
      EntryFacts(m, root, paths, f, q[0]);
      assert paths[f] + [q[0]] + q[1..] == paths[f] + q;
      if m[Slot(f, q[0])].IsPresent() && q[1..] != [] {
        UserSame(m, root, paths, m[Slot(f, q[0])].frame, q[1..], slot, e);
      }
    }
  }

  /** Hanging in a table changes no page's use from user mode. */
  lemma HangUsers(m: Memory, root: nat, paths: Paths, f: nat, i: nat, g: nat, e: Entry, q: seq<nat>)
    requires CanHang(m, root, paths, f, i, g) && e.IsPresent() && e.frame == g && IsPage(q)
    ensures UserPath(m[Slot(f, i) := e], root, q) <==> UserPath(m, root, q)
  {
    var n := m[Slot(f, i) := e];
    if paths[f] + [i] <= q[..3] {
      HangBelow(m, root, paths, f, i, g, e, q);
      hide WellFormed;
      if UserPath(m, root, q) { UserTranslates(m, root, q); }
      if UserPath(n, root, q) { UserTranslates(n, root, q); }
    } else {
      UserSame(m, root, paths, root, q, Slot(f, i), e);
    }
  }

  /** The page whose last entry is written can be used from user mode if entry and way both allow it. */
  lemma UserLeaf(m: Memory, root: nat, paths: Paths, f: nat, i: nat, e: Entry, q: seq<nat>)
    requires WellFormed(m, root, paths) && f in paths && IsPage(q) && paths[f] == q[..3] && i == q[3] && e.IsPresent()
    ensures UserPath(m[Slot(f, i) := e], root, q) <==> e.IsUser() && OpenPath(m, root, q[..3])
  {
    var n := m[Slot(f, i) := e];
    Reach(m, root, paths, f);
    WalkSame(m, root, paths, root, q[..3], Slot(f, i), e);
    OpenSame(m, root, paths, root, q[..3], Slot(f, i), e);
    hide WellFormed;
    OpenConcat(n, root, q[..3], [i]);
    WalkConcat(n, root, q[..3], [i]);
    assert q == q[..3] + [i] && [i][1..] == [];
    assert Walk(n, f, [i]) == Some(e.frame) && (OpenPath(n, f, [i]) <==> e.IsUser());
    OpenMeansUser(n, root, q);
  }

  lemma LeafUsers(m: Memory, root: nat, paths: Paths, f: nat, i: nat, e: Entry, q: seq<nat>)
    requires WellFormed(m, root, paths) && f in paths && |paths[f]| == 3 && i < ENTRY_COUNT && IsPage(q)
    ensures OpenPath(m[Slot(f, i) := e], root, q[..3]) <==> OpenPath(m, root, q[..3])
    ensures q != paths[f] + [i] ==> (UserPath(m[Slot(f, i) := e], root, q) <==> UserPath(m, root, q))
  {
    OpenSame(m, root, paths, root, q[..3], Slot(f, i), e);
    if q != paths[f] + [i] { UserSame(m, root, paths, root, q, Slot(f, i), e); }
  }

  lemma StaysOpen(m: Memory, root: nat, p: seq<nat>)
    ensures ClosedBelow(m, m, root, p, false)
  {
  }

  /** The three levels of tables above a page, one after the other. */
  lemma ClosedLevels(m: Memory, n: Memory, o: Memory, w: Memory, root: nat, p: seq<nat>, closes: bool)
    requires IsPage(p)
    requires Walk(m, root, p[..1]).Some? ==> n == m
    requires Walk(n, root, p[..2]).Some? ==> o == n
    requires ClosedBelow(m, n, root, p[..1], closes && Walk(m, root, p[..1]) == None)
    requires ClosedBelow(n, o, root, p[..2], closes && Walk(n, root, p[..2]) == None)
    requires ClosedBelow(o, w, root, p[..3], closes && Walk(o, root, p[..3]) == None)
    ensures forall q :: IsPage(q) ==>
      (OpenPath(w, root, q[..3]) <==> OpenPath(m, root, q[..3]) && !(closes && SharesMissing(m, root, p, q)))
  {
    hide Walk, OpenPath, SharesMissing;
    assert p[..2] == p[..1] + [p[1]] && p[..3] == p[..2] + [p[2]];
    if Walk(m, root, p[..1]) == None { WalkLonger(m, root, p[..1], [p[1]]); }
    if Walk(m, root, p[..2]) == None { WalkLonger(m, root, p[..2], [p[2]]); }
    forall q | IsPage(q)
      ensures OpenPath(w, root, q[..3]) <==> OpenPath(m, root, q[..3]) && !(closes && SharesMissing(m, root, p, q))
    {
      LevelsClose(m, n, o, root, p, q);
    }
  }

  // ---------- what a series of writes leaves alone ----------

  /** No page's translation and no page's use from user mode has changed. */
  ghost predicate SamePages(m: Memory, n: Memory, root: nat) {
    forall q :: IsPage(q) ==>
      Translate(n, root, q) == Translate(m, root, q) && (UserPath(n, root, q) <==> UserPath(m, root, q))
  }

  lemma SamePagesTrans(m: Memory, n: Memory, o: Memory, root: nat)
    requires SamePages(m, n, root) && SamePages(n, o, root)
    ensures SamePages(m, o, root)
  {
    hide Translate, UserPath;
  }

  /** Only tables are written, and of the pages offered only those now in use have become tables. */
  ghost predicate OnlyTables(m: Memory, paths: Paths, n: Memory, more: Paths, pages: seq<nat>) {
    && (forall f :: f in paths ==> f in more) && (forall f :: f in more ==> f in paths || f in pages)
    && (forall s :: s in m && s.frame !in more ==> s in n && n[s] == m[s])
  }

  lemma OnlyTablesTrans(m: Memory, a: Paths, n: Memory, b: Paths, o: Memory, c: Paths, p: seq<nat>, q: seq<nat>)
    requires OnlyTables(m, a, n, b, p) && OnlyTables(n, b, o, c, q)
    ensures OnlyTables(m, a, o, c, p + q)
  {
  }

  /** Pages the memory manager may be asked for: zeroed, different, and not tables of the space. */
  ghost predicate Fresh(m: Memory, paths: Paths, pages: seq<nat>) {
    && (forall i, j :: 0 <= i < j < |pages| ==> pages[i] != pages[j])
    && (forall i :: 0 <= i < |pages| ==> pages[i] !in paths && Blank(m, pages[i]))
  }

  /** The pages that were not offered are fresh still. */
  lemma StillFresh(m: Memory, paths: Paths, n: Memory, more: Paths, pages: seq<nat>, k: nat)
    requires k <= |pages| && Fresh(m, paths, pages) && OnlyTables(m, paths, n, more, pages[..k])
    ensures Fresh(n, more, pages[k..])
  {
    var rest := pages[k..];
    forall i | 0 <= i < |rest| ensures rest[i] !in more && Blank(n, rest[i]) {
      assert rest[i] == pages[k + i];
      assert forall j :: 0 <= j < k ==> pages[..k][j] == pages[j] != rest[i];
      BlankStays(m, n, rest[i]);
    }
  }

  lemma FreshPart(m: Memory, paths: Paths, pages: seq<nat>)
    requires |pages| >= 3 && Fresh(m, paths, pages)
    ensures Fresh(m, paths, pages[..3])
  {
  }
}
