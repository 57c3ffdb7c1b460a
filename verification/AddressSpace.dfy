/** An address space: its page tables and the operations that map, unmap and look up pages. */
module AddressSpaces {
  import opened Common
  import opened PageTables

  class AddressSpace {
    const root: nat
    var memory: Memory
    /** Which frames are tables of this address space, and where each hangs. */
    ghost var paths: Paths

    ghost predicate Valid()
      reads this
    {
      WellFormed(memory, root, paths)
    }

    /** The flat map: the frame of each mapped page, by its four indices. */
    ghost function FrameOf(q: seq<nat>): Option<nat>
      requires IsPage(q)
      reads this
    {
      Translate(memory, root, q)
    }

    /** No table entry there is on the way to the page is for the supervisor only. */
    ghost predicate Open(q: seq<nat>)
      requires IsPage(q)
      reads this
    {
      OpenPath(memory, root, q[..3])
    }

    /** The page can be read and written from user mode. */
    ghost predicate User(q: seq<nat>)
      requires IsPage(q)
      reads this
    {
      UserPath(memory, root, q)
    }

    constructor (frame: nat, contents: Memory)
      requires Blank(contents, frame)
      ensures Valid() && root == frame && memory == contents && paths == map[frame := []]
      ensures forall q :: IsPage(q) ==> FrameOf(q) == None && Open(q) && Walk(memory, root, q[..1]) == None
    {
      root, memory, paths := frame, contents, map[frame := []];
      new;
      forall q | IsPage(q) ensures FrameOf(q) == None && Open(q) && Walk(memory, root, q[..1]) == None {
        BlankWalk(memory, root, q[..3], q[3]);
        BlankWalk(memory, root, q[..1], q[3]);
        BlankWalk(memory, root, [], q[0]);
      }
    }

    /**
     Hangs a zeroed page fresh from the memory manager in as a table. No translation and no use from user mode
     changes, but a supervisor's table closes every way through it.
     */
    method Hang(f: nat, i: nat, page: nat, supervisor: bool)
      requires CanHang(memory, root, paths, f, i, page)
      modifies this
      ensures Valid() && SamePages(old(memory), memory, root)
      ensures paths == old(paths)[page := old(paths)[f] + [i]]
      ensures memory == old(memory)[Slot(f, i) := MakePresent(page * PAGE_SIZE, supervisor)]
      ensures memory[Slot(f, i)].frame == page
      ensures ClosedBelow(old(memory), memory, root, old(paths)[f] + [i], supervisor)
    {
      hide WellFormed, Translate, OpenPath, UserPath;
      var e := MakePresent(page * PAGE_SIZE, supervisor);
      EntryRoundTrip(page * PAGE_SIZE, supervisor);
      FrameKept(page);
      HangKeeps(memory, root, paths, f, i, page, e);
      forall q | IsPage(q)
        ensures Translate(memory[Slot(f, i) := e], root, q) == Translate(memory, root, q)
        ensures UserPath(memory[Slot(f, i) := e], root, q) <==> UserPath(memory, root, q)
      {
        HangTranslates(memory, root, paths, f, i, page, e, q);
        HangUsers(memory, root, paths, f, i, page, e, q);
      }
      forall q | IsPage(q)
        ensures OpenPath(memory[Slot(f, i) := e], root, q[..3]) <==>
          OpenPath(memory, root, q[..3]) && !(supervisor && paths[f] + [i] <= q[..3])
      {
        HangOpens(memory, root, paths, f, i, page, e, q);
      }
      memory := memory[Slot(f, i) := e];
      paths := paths[page := paths[f] + [i]];
    }

    /** The table below entry `i` of table `f`, hung in now if there is none. */
    method EnsureTable(f: nat, i: nat, page: nat, supervisor: bool) returns (g: nat)
      requires Valid() && f in paths && |paths[f]| < 3 && i < ENTRY_COUNT && page !in paths && Blank(memory, page)
      modifies this
      ensures Valid() && SamePages(old(memory), memory, root)
      ensures OnlyTables(old(memory), old(paths), memory, paths, [page])
      ensures g in paths && paths[g] == old(paths)[f] + [i] && paths.Values == old(paths.Values) + {paths[g]}
      ensures var missing := Walk(old(memory), root, paths[g]) == None;
        && ClosedBelow(old(memory), memory, root, paths[g], supervisor && missing)
        && (!missing ==> memory == old(memory) && paths == old(paths))
    {
      hide WellFormed, Translate, OpenPath, UserPath, Walk, ClosedBelow, MakePresent;
      EntryFacts(memory, root, paths, f, i);
      WalkNext(memory, root, paths, f, i);
      if memory[Slot(f, i)].IsPresent() {
        StaysOpen(memory, root, paths[f] + [i]);
      } else {
        Hang(f, i, page, supervisor);
      }
      g := memory[Slot(f, i)].frame;
    }

    ghost predicate FreshPages(pages: seq<nat>)
      reads this
    {
      Fresh(memory, paths, pages)
    }

    /**
     The last-level table for a page, with the tables above it created as needed. No translation and no use from
     user mode changes; tables created for the supervisor close the ways that share them.
     */
    method EnsurePath(q: seq<nat>, pages: seq<nat>, supervisor: bool) returns (f: nat)
      requires Valid() && IsPage(q) && FreshPages(pages) && |pages| == 3
      modifies this
      ensures Valid() && SamePages(old(memory), memory, root)
      ensures OnlyTables(old(memory), old(paths), memory, paths, pages)
      ensures f in paths && paths[f] == q[..3] && paths.Values == old(paths.Values) + {q[..1], q[..2], q[..3]}
      ensures forall r :: IsPage(r) ==>
        (Open(r) <==> old(Open(r)) && !(supervisor && old(SharesMissing(memory, root, q, r))))
    {
      hide WellFormed, Walk, OpenPath, ClosedBelow, SamePages, OnlyTables;
      RootFacts(memory, root, paths);
      ghost var m, a := memory, paths;
      f := EnsureTable(root, q[0], pages[0], supervisor);
      assert paths[f] == q[..1];
      ghost var n, b := memory, paths;
      assert pages[..1] == [pages[0]];
      StillFresh(m, a, n, b, pages, 1);
      assert pages[1] == pages[1..][0] && pages[2] == pages[1..][1] && pages[1..][..1] == [pages[1]];
      f := EnsureTable(f, q[1], pages[1], supervisor);
      assert paths[f] == q[..2];
      ghost var o, c := memory, paths;
      StillFresh(n, b, o, c, pages[1..], 1);
      assert pages[1..][1..][0] == pages[2];
      f := EnsureTable(f, q[2], pages[2], supervisor);
      assert paths[f] == q[..3];
      SamePagesTrans(m, n, o, root);
      SamePagesTrans(m, o, memory, root);
      OnlyTablesTrans(m, a, n, b, o, c, [pages[0]], [pages[1]]);
      OnlyTablesTrans(m, a, o, c, memory, paths, [pages[0]] + [pages[1]], [pages[2]]);
      assert pages == [pages[0]] + [pages[1]] + [pages[2]];
      ClosedLevels(m, n, o, memory, root, q, supervisor);
    }

    /** Writes the last-level entry of a page: only that page's translation changes. */
    method SetEntry(f: nat, i: nat, e: Entry)
      requires Valid() && f in paths && |paths[f]| == 3 && i < ENTRY_COUNT
      modifies `memory
      ensures Valid() && memory == old(memory)[Slot(f, i) := e]
      ensures forall q :: IsPage(q) ==>
        FrameOf(q) == if q == paths[f] + [i] then (if e.IsPresent() then Some(e.frame) else None) else old(FrameOf(q))
      ensures forall q :: IsPage(q) ==> (Open(q) <==> old(Open(q)))
      ensures forall q :: IsPage(q) && q != paths[f] + [i] ==> (User(q) <==> old(User(q)))
    {
      hide WellFormed, Translate, OpenPath, UserPath;
      LeafKeeps(memory, root, paths, f, i, e);
      forall q | IsPage(q) ensures Translate(memory[Slot(f, i) := e], root, q)
         == if q == paths[f] + [i] then (if e.IsPresent() then Some(e.frame) else None) else Translate(memory, root, q)
      {
        LeafWrite(memory, root, paths, f, i, e, q);
      }
      forall q | IsPage(q)
        ensures OpenPath(memory[Slot(f, i) := e], root, q[..3]) <==> OpenPath(memory, root, q[..3])
        ensures q != paths[f] + [i] ==> (UserPath(memory[Slot(f, i) := e], root, q) <==> UserPath(memory, root, q))
      {
        LeafUsers(memory, root, paths, f, i, e, q);
      }
      memory := memory[Slot(f, i) := e];
    }

    /**
     Maps one page: its translation becomes the given frame, and every other page keeps its own and its use from user
     mode. A page mapped for user mode can be used from there exactly when no table on the way is the supervisor's;
     mapping a page for the supervisor closes the ways that share a table it creates.
     */
    method MapPage(v: nat, p: nat, supervisor: bool, pages: seq<nat>)
      requires Valid() && v % PAGE_SIZE == 0 && p % PAGE_SIZE == 0 && FreshPages(pages) && |pages| == 3
      modifies this
      ensures Valid() && OnlyTables(old(memory), old(paths), memory, paths, pages)
      ensures var q := Indices(v); paths.Values == old(paths.Values) + {q[..1], q[..2], q[..3]}
      ensures forall q :: IsPage(q) ==> FrameOf(q) == if q == Indices(v) then Some(FrameFor(p)) else old(FrameOf(q))
      ensures User(Indices(v)) <==> !supervisor && old(Open(Indices(v)))
      ensures forall q :: IsPage(q) && q != Indices(v) ==> (User(q) <==> old(User(q)))
      ensures forall q :: IsPage(q) ==>
        (Open(q) <==> old(Open(q)) && !(supervisor && old(SharesMissing(memory, root, Indices(v), q))))
    {
      hide WellFormed, Translate, OpenPath, UserPath, SharesMissing, FrameFor;
      var q := Indices(v);
      var f := EnsurePath(q, pages, supervisor);
      assert q == q[..3] + [q[3]];
      EntryRoundTrip(p, supervisor);
      UserLeaf(memory, root, paths, f, q[3], MakePresent(p, supervisor), q);
      SetEntry(f, q[3], MakePresent(p, supervisor));
    }

    /**
     Maps a range page by page: each of its pages gets its frame, and no other page's translation or use from user
     mode changes. The range can be used from user mode where it was mapped for it and the way was open before; mapped
     for the supervisor it closes every way that shares a missing table with one of its pages.
     */
    method MapRange(v: nat, p: nat, n: nat, supervisor: bool, supply: seq<nat>)
      requires Valid() && v % PAGE_SIZE == 0 && p % PAGE_SIZE == 0 && n * PAGE_SIZE <= VIRTUAL_LIMIT
      requires FreshPages(supply) && |supply| == 3 * n
      modifies this
      ensures Valid()
      ensures forall i: nat :: i < n ==> FrameOf(Indices(v + i * PAGE_SIZE)) == Some(FrameFor(p + i * PAGE_SIZE))
      ensures forall i: nat :: i < n ==>
        (User(Indices(v + i * PAGE_SIZE)) <==> !supervisor && old(Open(Indices(v + i * PAGE_SIZE))))
      ensures forall q :: IsPage(q) && !InRange(q, v, n) ==> FrameOf(q) == old(FrameOf(q)) && User(q) == old(User(q))
      ensures forall q :: IsPage(q) ==>
        (Open(q) <==> old(Open(q)) && !(supervisor && old(RangeShares(memory, root, v, n, q))))
    {
      hide WellFormed, Translate, Indices, OpenPath, UserPath, SharesMissing, FrameFor, Fresh, OnlyTables;
      hide InRange, RangeShares, RangeTable;
      var i := 0;
      assert supply[0..] == supply;
      EmptyRange(memory, root, v);
      while i < n
        invariant 0 <= i <= n && Valid() && FreshPages(supply[3 * i..])
        invariant forall j: nat :: j < i ==> FrameOf(Indices(v + j * PAGE_SIZE)) == Some(FrameFor(p + j * PAGE_SIZE))
        invariant forall j: nat :: j < i ==>
          (User(Indices(v + j * PAGE_SIZE)) <==> !supervisor && old(Open(Indices(v + j * PAGE_SIZE))))
        invariant forall q :: IsPage(q) && !InRange(q, v, i) ==>
          FrameOf(q) == old(FrameOf(q)) && User(q) == old(User(q))
        invariant forall q :: IsPage(q) ==>
          (Open(q) <==> old(Open(q)) && !(supervisor && old(RangeShares(memory, root, v, i, q))))
        invariant forall t :: t in paths.Values <==> t in old(paths.Values) || RangeTable(t, v, i)
      {
        ghost var left, m, a, next := supply[3 * i..], memory, paths, Indices(v + i * PAGE_SIZE);
        FreshPart(m, a, left);
        assert left[..3] == supply[3 * i..3 * i + 3] && left[3..] == supply[3 * (i + 1)..];
        MapPage(v + i * PAGE_SIZE, p + i * PAGE_SIZE, supervisor, supply[3 * i..3 * i + 3]);
        StillFresh(m, a, memory, paths, left, 3);
        forall j: nat | j < i ensures Indices(v + j * PAGE_SIZE) != next { PagesDiffer(v, j, i, n); }
        forall q | IsPage(q) && !InRange(q, v, i + 1)
          ensures FrameOf(q) == old(FrameOf(q)) && User(q) == old(User(q))
        {
          RangeGrows(q, v, i);
          assert q != next && !InRange(q, v, i);
        }
        forall t ensures RangeTable(t, v, i + 1) <==> RangeTable(t, v, i) || IsAbove(t, next) {
          RangeTableGrows(t, v, i);
        }
        forall q | IsPage(q)
          ensures old(RangeShares(memory, root, v, i + 1, q)) <==>
            old(RangeShares(memory, root, v, i, q)) || SharesMissing(m, root, next, q)
        {
          RangeSharesGrows(old(memory), old(paths), m, a, root, v, i, q);
        }
        i := i + 1;
      }
    }

    /** The tables above the page exist; without them there is no entry to clear. */
    ghost predicate Populated(q: seq<nat>)
      requires IsPage(q)
      reads this
    {
      Walk(memory, root, q[..3]).Some?
    }

    /** The last-level table of a populated page. */
    method TableOf(q: seq<nat>) returns (f: nat)
      requires Valid() && IsPage(q) && Populated(q)
      ensures f in paths && paths[f] == q[..3] && Walk(memory, root, q[..3]) == Some(f)
    {
      PathFacts(memory, root, paths, q);
      f := memory[Slot(root, q[0])].frame;
      f := memory[Slot(f, q[1])].frame;
      f := memory[Slot(f, q[2])].frame;
    }

    /**
     Clears one page's translation and no other, and with it the page's use from user mode; what was populated stays so
     and what was open too.
     */
    method LocalUnmapPage(v: nat)
      requires Valid() && v % PAGE_SIZE == 0 && Populated(Indices(v))
      modifies `memory
      ensures Valid()
      ensures forall q :: IsPage(q) ==> FrameOf(q) == if q == Indices(v) then None else old(FrameOf(q))
      ensures forall q :: IsPage(q) ==> (Populated(q) <==> old(Populated(q))) && (Open(q) <==> old(Open(q)))
      ensures forall q :: IsPage(q) ==> (User(q) <==> q != Indices(v) && old(User(q)))
    {
      var q := Indices(v);
      var f := TableOf(q);
      EntryFacts(memory, root, paths, f, q[3]);
      assert q == q[..3] + [q[3]];
      AbsentEntry(memory[Slot(f, q[3])]);
      ghost var e := MakeAbsent(memory[Slot(f, q[3])]);
      forall r | IsPage(r) ensures Walk(memory[Slot(f, q[3]) := e], root, r[..3]) == Walk(memory, root, r[..3]) {
        LeafWalks(memory, root, paths, f, q[3], e, r);
      }
      hide WellFormed, Translate, Walk, UserPath, OpenPath;
      SetEntry(f, q[3], MakeAbsent(memory[Slot(f, q[3])]));
      if User(q) { UserTranslates(memory, root, q); }
    }

    /** Clears the translations of a populated range and no others. */
    method LocalUnmapRange(v: nat, n: nat)
      requires Valid() && v % PAGE_SIZE == 0
      requires forall i: nat :: i < n ==> Populated(Indices(v + i * PAGE_SIZE))
      modifies `memory
      ensures Valid()
      ensures forall q :: IsPage(q) ==> FrameOf(q) == if InRange(q, v, n) then None else old(FrameOf(q))
      ensures forall q :: IsPage(q) ==> (User(q) <==> !InRange(q, v, n) && old(User(q))) && (Open(q) <==> old(Open(q)))
    {
      hide WellFormed, Translate, Walk, Indices, UserPath, OpenPath, InRange;
      EmptyRange(memory, root, v);
      var i := 0;
      while i < n
        invariant 0 <= i <= n && Valid()
        invariant forall j: nat :: j < n ==> Populated(Indices(v + j * PAGE_SIZE))
        invariant forall q :: IsPage(q) ==> FrameOf(q) == if InRange(q, v, i) then None else old(FrameOf(q))
        invariant forall q :: IsPage(q) ==>
          (User(q) <==> !InRange(q, v, i) && old(User(q))) && (Open(q) <==> old(Open(q)))
      {
        LocalUnmapPage(v + i * PAGE_SIZE);
        forall q ensures InRange(q, v, i + 1) <==> InRange(q, v, i) || q == Indices(v + i * PAGE_SIZE) {
          RangeGrows(q, v, i);
        }
        i := i + 1;
      }
    }

    /**
     The physical address a page maps to. For a page without a translation the answer is 0 exactly when
     a table is missing on the way or the cleared entry holds frame 0: the present bit of the last entry is
     not looked at.
     */
    method PhysicalAddressOf(v: nat) returns (r: nat)
      requires Valid() && v % PAGE_SIZE == 0
      ensures FrameOf(Indices(v)).Some? ==> r == FrameOf(Indices(v)).value * PAGE_SIZE
      ensures FrameOf(Indices(v)) == None ==> (r == 0 <==> !Populated(Indices(v)) || StaleFrame(Indices(v)) == 0)
    {
      var q := Indices(v);
      PathFacts(memory, root, paths, q);
      if !memory[Slot(root, q[0])].IsPresent() {
        return 0;
      }
      var f := memory[Slot(root, q[0])].frame;
      if !memory[Slot(f, q[1])].IsPresent() {
        return 0;
      }
      f := memory[Slot(f, q[1])].frame;
      if !memory[Slot(f, q[2])].IsPresent() {
        return 0;
      }
      f := memory[Slot(f, q[2])].frame;
      r := memory[Slot(f, q[3])].PhysicalAddress();
    }

    /** The frame number left in a populated page's last entry. */
    ghost function StaleFrame(q: seq<nat>): nat
      requires IsPage(q)
      reads this
    {
      match Walk(memory, root, q[..3])
      case None => 0
      case Some(f) => if Slot(f, q[3]) in memory then memory[Slot(f, q[3])].frame else 0
    }
  }

  /**
   Two pages under one top-level table of a new space, `v` for the supervisor and `w` for user mode: both are mapped,
   but `w` can be used from user mode only if it is mapped first.
   */
  method MapNeighbours(frame: nat, contents: Memory, v: nat, w: nat, p: nat, r: nat, pages: seq<nat>, userFirst: bool)
    returns (space: AddressSpace)
    requires Blank(contents, frame) && Fresh(contents, map[frame := []], pages) && |pages| == 6
    requires v % PAGE_SIZE == 0 && w % PAGE_SIZE == 0 && p % PAGE_SIZE == 0 && r % PAGE_SIZE == 0
    requires Indices(v) != Indices(w) && Indices(v)[0] == Indices(w)[0]
    ensures space.Valid() && fresh(space)
    ensures space.FrameOf(Indices(v)) == Some(FrameFor(p)) && space.FrameOf(Indices(w)) == Some(FrameFor(r))
    ensures space.User(Indices(w)) <==> userFirst
  {
    hide WellFormed, Translate, Indices, OpenPath, UserPath, FrameFor, Fresh, OnlyTables, Walk;
    space := new AddressSpace(frame, contents);
    ghost var a, m := space.paths, space.memory;
    FirstShared(m, frame, Indices(v), Indices(w));
    FreshPart(m, a, pages);
    if userFirst {
      space.MapPage(w, r, false, pages[..3]);
      StillFresh(m, a, space.memory, space.paths, pages, 3);
      space.MapPage(v, p, true, pages[3..]);
    } else {
      space.MapPage(v, p, true, pages[..3]);
      StillFresh(m, a, space.memory, space.paths, pages, 3);
      space.MapPage(w, r, false, pages[3..]);
    }
  }

  lemma FirstShared(m: Memory, root: nat, p: seq<nat>, q: seq<nat>)
    requires IsPage(p) && IsPage(q) && p[0] == q[0] && Walk(m, root, q[..1]) == None
    ensures SharesMissing(m, root, p, q)
  {
    assert q[..1] == p[..1];
  }

  ghost predicate InRange(q: seq<nat>, v: nat, n: nat) {
    exists i: nat :: i < n && q == Indices(v + i * PAGE_SIZE)
  }

  /** The path of a table above a page, below the top one. */
  ghost predicate IsAbove(t: seq<nat>, q: seq<nat>)
    requires IsPage(q)
  {
    t == q[..1] || t == q[..2] || t == q[..3]
  }

  ghost predicate RangeTable(t: seq<nat>, v: nat, n: nat) {
    exists i: nat :: i < n && IsAbove(t, Indices(v + i * PAGE_SIZE))
  }

  /** `q` shares a missing table with one of the pages of the range. */
  ghost predicate RangeShares(m: Memory, root: nat, v: nat, n: nat, q: seq<nat>)
    requires IsPage(q)
  {
    exists i: nat :: i < n && SharesMissing(m, root, Indices(v + i * PAGE_SIZE), q)
  }

  lemma EmptyRange(m: Memory, root: nat, v: nat)
    ensures forall q :: !InRange(q, v, 0)
    ensures forall q :: IsPage(q) ==> !RangeShares(m, root, v, 0, q)
    ensures forall t :: !RangeTable(t, v, 0)
  {
  }

  lemma RangeTableGrows(t: seq<nat>, v: nat, i: nat)
    ensures RangeTable(t, v, i + 1) <==> RangeTable(t, v, i) || IsAbove(t, Indices(v + i * PAGE_SIZE))
  {
    hide Indices, IsAbove;
    if RangeTable(t, v, i + 1) {
      var j: nat :| j < i + 1 && IsAbove(t, Indices(v + j * PAGE_SIZE));
      assert j < i || j == i;
    }
  }

  /**
   From `m` to `w` the tables above the first `i` pages have been created: what shares a missing table with one of the
   first `i + 1` pages in `m` does so with one of the first `i` there, or with page `i` in `w`.
   */
  lemma RangeSharesGrows(m: Memory, a: Paths, w: Memory, b: Paths, root: nat, v: nat, i: nat, q: seq<nat>)
    requires WellFormed(m, root, a) && WellFormed(w, root, b) && IsPage(q)
    requires forall t :: t in b.Values <==> t in a.Values || RangeTable(t, v, i)
    ensures RangeShares(m, root, v, i + 1, q) <==>
      RangeShares(m, root, v, i, q) || SharesMissing(w, root, Indices(v + i * PAGE_SIZE), q)
  {
    hide WellFormed, Indices, SharesMissing, SharesUnlisted, RangeTable;
    var next := Indices(v + i * PAGE_SIZE);
    forall j: nat { SharesIff(m, root, a, Indices(v + j * PAGE_SIZE), q); }
    SharesIff(w, root, b, next, q);
    if SharesMissing(m, root, next, q) {
      StillShares(a.Values, b.Values, v, i, q);
    }
    if SharesMissing(w, root, next, q) {
      SharesFewer(a.Values, b.Values, next, q);
    }
    if RangeShares(m, root, v, i + 1, q) {
      var j: nat :| j < i + 1 && SharesMissing(m, root, Indices(v + j * PAGE_SIZE), q);
      assert j < i || j == i;
    }
  }

  /** `q` shares with `p` a stretch from the root that no table has for its path. */
  ghost predicate SharesUnlisted(tables: set<seq<nat>>, p: seq<nat>, q: seq<nat>)
    requires IsPage(p) && IsPage(q)
  {
    exists k :: 1 <= k <= 3 && q[..k] == p[..k] && q[..k] !in tables
  }

  lemma SharesIff(m: Memory, root: nat, paths: Paths, p: seq<nat>, q: seq<nat>)
    requires WellFormed(m, root, paths) && IsPage(p) && IsPage(q)
    ensures SharesMissing(m, root, p, q) <==> SharesUnlisted(paths.Values, p, q)
  {
    hide WellFormed, Walk;
    forall k | 1 <= k <= 3 ensures Walk(m, root, q[..k]) == None <==> q[..k] !in paths.Values {
      MissingIff(m, root, paths, q[..k]);
    }
  }

  lemma SharesFewer(before: set<seq<nat>>, after: set<seq<nat>>, p: seq<nat>, q: seq<nat>)
    requires IsPage(p) && IsPage(q) && SharesUnlisted(after, p, q) && forall t :: t in before ==> t in after
    ensures SharesUnlisted(before, p, q)
  {
  }

  lemma StillShares(before: set<seq<nat>>, after: set<seq<nat>>, v: nat, i: nat, q: seq<nat>)
    requires IsPage(q) && SharesUnlisted(before, Indices(v + i * PAGE_SIZE), q)
    requires forall t :: t in after <==> t in before || RangeTable(t, v, i)
    ensures SharesUnlisted(after, Indices(v + i * PAGE_SIZE), q)
      || exists j: nat :: j < i && SharesUnlisted(before, Indices(v + j * PAGE_SIZE), q)
  {
    hide Indices;
    var next := Indices(v + i * PAGE_SIZE);
    var k :| 1 <= k <= 3 && q[..k] == next[..k] && q[..k] !in before;
    if q[..k] in after {
      var j: nat :| j < i && IsAbove(q[..k], Indices(v + j * PAGE_SIZE));
      assert q[..k] == Indices(v + j * PAGE_SIZE)[..k];
    }
  }

  lemma RangeGrows(q: seq<nat>, v: nat, i: nat)
    ensures InRange(q, v, i + 1) <==> InRange(q, v, i) || q == Indices(v + i * PAGE_SIZE)
  {
    hide Indices;
    if InRange(q, v, i + 1) {
      var j: nat :| j < i + 1 && q == Indices(v + j * PAGE_SIZE);
      assert j < i || j == i;
    }
  }

  /** The pages of a range no longer than the address space have different indices. */
  lemma PagesDiffer(v: nat, i: nat, j: nat, n: nat)
    requires v % PAGE_SIZE == 0 && i < j < n && n * PAGE_SIZE <= VIRTUAL_LIMIT
    ensures Indices(v + i * PAGE_SIZE) != Indices(v + j * PAGE_SIZE)
  {
    hide Indices;
    IndicesInjective(v + i * PAGE_SIZE, v + j * PAGE_SIZE);
    CloseDiffer(v + i * PAGE_SIZE, v + j * PAGE_SIZE);
  }

  lemma CloseDiffer(a: nat, b: nat)
    requires a < b < a + VIRTUAL_LIMIT
    ensures a % VIRTUAL_LIMIT != b % VIRTUAL_LIMIT
  {
    var p, q := a / VIRTUAL_LIMIT, b / VIRTUAL_LIMIT;
    assert a == p * VIRTUAL_LIMIT + a % VIRTUAL_LIMIT && b == q * VIRTUAL_LIMIT + b % VIRTUAL_LIMIT;
  }
}
