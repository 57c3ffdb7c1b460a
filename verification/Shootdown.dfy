/**
 TLB shootdown: unmapping a range on one processor while others may have its translations cached.
 Every atomic step any processor, or the hardware page walker, can take is an action; a run is any sequence of them.
 */
module Shootdown {
  import opened Common
  import opened DistinctLists

  type Cpu = nat
  type Page = nat
  type RequestId = nat

  const MAX_IPI_REQUESTS := 32

  /** A page table entry as some processor may have cached it; `id` tells mappings of the same page apart. */
  datatype Translation = Translation(page: Page, id: nat)

  /** A request popped from the queue, with the pages still to invalidate. */
  datatype Handling = Handling(request: RequestId, todo: seq<Page>)

  /**
   For each page cleared so far, the id the next mapping would have got when its entry was cleared:
   every mapping of the page made before has a smaller id, every one made after has not.
   */
  type Cut = map<Page, nat>

  /**
   Where a processor is in `unmap_range`. Its interrupts are off everywhere but in `Free`.
   `since`: the id the next mapping would have got when the unmap began.
   */
  datatype Stage =
    | Free
    | Unmapping(range: seq<Page>, done: nat, cleared: bool, cut: Cut, since: nat)
    | Posting(request: RequestId, todo: set<Cpu>, incremented: Option<Cpu>)
    | Waiting(request: RequestId)

  datatype Processor = Processor(tlb: set<Translation>, queue: seq<RequestId>, handling: Option<Handling>, stage: Stage)

  datatype Request = Request(poster: Cpu, range: seq<Page>, countdown: int, cut: Cut, since: nat)

  datatype State = State(cpus: map<Cpu, Processor>, table: map<Page, nat>, nextId: nat,
    requests: map<RequestId, Request>)

  datatype Action =
    | MapPage(page: Page)
    | CacheTranslation(cpu: Cpu, page: Page)
    | EvictTranslation(cpu: Cpu, translation: Translation)
    | BeginUnmap(cpu: Cpu, range: seq<Page>)
    | ClearEntry(cpu: Cpu)
    | FlushLocal(cpu: Cpu)
    | BeginPost(cpu: Cpu, request: RequestId)
    | Increment(cpu: Cpu, target: Cpu)
    | Push(cpu: Cpu)
    | BeginWait(cpu: Cpu)
    | Pop(cpu: Cpu)
    | InvalidateOne(cpu: Cpu)
    | Complete(cpu: Cpu)
    | Return(cpu: Cpu)

  // ---------- steps ----------

  predicate Enabled(s: State, a: Action) {
    (a.MapPage? || a.cpu in s.cpus) &&
    match a
    case MapPage(p) => p !in s.table
    case CacheTranslation(c, p) => p in s.table
    case EvictTranslation(_, _) => true
    case BeginUnmap(c, _) => s.cpus[c].stage == Free && s.cpus[c].handling == None
    case ClearEntry(c) => var g := s.cpus[c].stage; g.Unmapping? && g.done < |g.range| && !g.cleared
    case FlushLocal(c) => var g := s.cpus[c].stage; g.Unmapping? && g.done < |g.range| && g.cleared
    case BeginPost(c, r) => var g := s.cpus[c].stage; g.Unmapping? && g.done == |g.range| && r !in s.requests
    case Increment(c, d) => var g := s.cpus[c].stage;
      g.Posting? && g.incremented == None && d in g.todo && g.request in s.requests
    case Push(c) => var g := s.cpus[c].stage;
      g.Posting? && g.incremented.Some? && g.incremented.value in s.cpus && g.incremented.value != c
    case BeginWait(c) => var g := s.cpus[c].stage; g.Posting? && g.incremented == None && g.todo == {}
    case Pop(c) =>
      (s.cpus[c].stage == Free || s.cpus[c].stage.Waiting?) && s.cpus[c].handling == None
      && s.cpus[c].queue != [] && s.cpus[c].queue[0] in s.requests
    case InvalidateOne(c) => s.cpus[c].handling.Some? && s.cpus[c].handling.value.todo != []
    case Complete(c) => s.cpus[c].handling.Some? && s.cpus[c].handling.value.todo == [] &&
      s.cpus[c].handling.value.request in s.requests
    case Return(c) => var g := s.cpus[c].stage;
      g.Waiting? && s.cpus[c].handling == None && g.request in s.requests && s.requests[g.request].countdown == 0
  }

  function WithCpu(s: State, c: Cpu, x: Processor): State {
    s.(cpus := s.cpus[c := x])
  }

  function WithRequest(s: State, r: RequestId, q: Request): State {
    s.(requests := s.requests[r := q])
  }

  /** What `invlpg` drops: every cached translation of the page. */
  function Invalidated(tlb: set<Translation>, p: Page): set<Translation> {
    set x | x in tlb && x.page != p
  }

  function Entry(s: State, p: Page): set<Translation> {
    if p in s.table then {Translation(p, s.table[p])} else {}
  }

  function Next(s: State, a: Action): State
    requires Enabled(s, a)
  {
    match a
    case MapPage(p) => s.(table := s.table[p := s.nextId], nextId := s.nextId + 1)
    case CacheTranslation(c, p) => WithCpu(s, c, s.cpus[c].(tlb := s.cpus[c].tlb + Entry(s, p)))
    case EvictTranslation(c, x) => WithCpu(s, c, s.cpus[c].(tlb := s.cpus[c].tlb - {x}))
    case BeginUnmap(c, range) => WithCpu(s, c, s.cpus[c].(stage := Unmapping(range, 0, false, map[], s.nextId)))
    case ClearEntry(c) =>
      var g := s.cpus[c].stage;
      var p := g.range[g.done];
      var cleared := Unmapping(g.range, g.done, true, g.cut[p := s.nextId], g.since);
      WithCpu(s, c, s.cpus[c].(stage := cleared)).(table := s.table - {p})
    case FlushLocal(c) =>
      var g := s.cpus[c].stage;
      var flushed := Unmapping(g.range, g.done + 1, false, g.cut, g.since);
      WithCpu(s, c, s.cpus[c].(tlb := Invalidated(s.cpus[c].tlb, g.range[g.done]), stage := flushed))
    case BeginPost(c, r) =>
      var g := s.cpus[c].stage;
      var posting := s.cpus[c].(stage := Posting(r, s.cpus.Keys - {c}, None));
      WithRequest(WithCpu(s, c, posting), r, Request(c, g.range, 0, g.cut, g.since))
    case Increment(c, d) =>
      var g := s.cpus[c].stage;
      WithRequest(WithCpu(s, c, s.cpus[c].(stage := Posting(g.request, g.todo - {d}, Some(d)))), g.request,
                  s.requests[g.request].(countdown := s.requests[g.request].countdown + 1))
    case Push(c) =>
      var g := s.cpus[c].stage;
      var d := g.incremented.value;
      WithCpu(WithCpu(s, c, s.cpus[c].(stage := Posting(g.request, g.todo, None))), d,
        s.cpus[d].(queue := s.cpus[d].queue + [g.request]))
    case BeginWait(c) => WithCpu(s, c, s.cpus[c].(stage := Waiting(s.cpus[c].stage.request)))
    case Pop(c) =>
      var r := s.cpus[c].queue[0];
      WithCpu(s, c, s.cpus[c].(queue := s.cpus[c].queue[1..], handling := Some(Handling(r, s.requests[r].range))))
    case InvalidateOne(c) =>
      var h := s.cpus[c].handling.value;
      WithCpu(s, c, s.cpus[c].(tlb := Invalidated(s.cpus[c].tlb, h.todo[0]),
        handling := Some(Handling(h.request, h.todo[1..]))))
    case Complete(c) =>
      var r := s.cpus[c].handling.value.request;
      WithRequest(WithCpu(s, c, s.cpus[c].(handling := None)), r,
        s.requests[r].(countdown := s.requests[r].countdown - 1))
    case Return(c) => WithCpu(s, c, s.cpus[c].(stage := Free)).(requests := s.requests - {s.cpus[c].stage.request})
  }

  // ---------- the invariant ----------

  /** A mapping of a cleared page from before it was cleared. */
  ghost predicate Stale(cut: Cut, t: Translation) {
    t.page in cut && t.id < cut[t.page]
  }

  /** A cleared page is out of the table, or has been mapped anew since. */
  ghost predicate CutOk(s: State, range: seq<Page>, cut: Cut, since: nat) {
    && since <= s.nextId
    && forall p :: p in cut ==> p in range && since <= cut[p] <= s.nextId && (p in s.table ==> cut[p] <= s.table[p])
  }

  ghost predicate Holds(s: State, d: Cpu, r: RequestId)
    requires d in s.cpus
  {
    r in s.cpus[d].queue || (s.cpus[d].handling.Some? && s.cpus[d].handling.value.request == r)
  }

  /** The processors with the request queued or in progress. */
  ghost function Holders(s: State, r: RequestId): set<Cpu> {
    set d | d in s.cpus && Holds(s, d, r)
  }

  /** Not yet given to `d`: either still to be counted, or counted and about to be pushed. */
  ghost predicate Unsent(s: State, q: Request, r: RequestId, d: Cpu) {
    q.poster in s.cpus && var g := s.cpus[q.poster].stage;
      g.Posting? && g.request == r && (d in g.todo || g.incremented == Some(d))
  }

  ghost predicate Counting(s: State, q: Request, r: RequestId) {
    q.poster in s.cpus && var g := s.cpus[q.poster].stage; g.Posting? && g.request == r && g.incremented.Some?
  }

  /** What processor `d` may still have cached of the request's translations. */
  ghost predicate CpuSafe(s: State, d: Cpu, r: RequestId, q: Request)
    requires d in s.cpus
  {
    var x := s.cpus[d];
    if Unsent(s, q, r, d) then !Holds(s, d, r) && d != q.poster
    else if r in x.queue then true
    else if x.handling.Some? && x.handling.value.request == r then
      forall t :: t in x.tlb && Stale(q.cut, t) ==> t.page in x.handling.value.todo
    else
      forall t :: t in x.tlb ==> !Stale(q.cut, t)
  }

  ghost predicate RequestOk(s: State, r: RequestId)
    requires r in s.requests
  {
    var q := s.requests[r];
    && q.poster in s.cpus
    && (var g := s.cpus[q.poster].stage;
      (g.Posting? && g.request == r && g.todo <= s.cpus.Keys) || (g.Waiting? && g.request == r))
    && CutOk(s, q.range, q.cut, q.since) && (forall p :: p in q.range ==> p in q.cut)
    && q.countdown == |Holders(s, r)| + (if Counting(s, q, r) then 1 else 0)
    && (forall d :: d in s.cpus ==> CpuSafe(s, d, r, q))
  }

  ghost predicate CpuOk(s: State, c: Cpu)
    requires c in s.cpus
  {
    var x := s.cpus[c];
    && NoDuplicates(x.queue)
    && (forall r :: Holds(s, c, r) ==> r in s.requests && s.requests[r].poster != c)
    && (x.handling.Some? ==> x.handling.value.request !in x.queue && !x.stage.Unmapping? && !x.stage.Posting?)
    && (x.stage.Unmapping? ==> UnmapOk(s, x))
    && (x.stage.Posting? ==>
          && x.stage.request in s.requests && s.requests[x.stage.request].poster == c && c !in x.stage.todo
          && (x.stage.incremented.Some? ==>
            && x.stage.incremented.value in s.cpus && x.stage.incremented.value != c
            && x.stage.incremented.value !in x.stage.todo))
    && (x.stage.Waiting? ==> x.stage.request in s.requests && s.requests[x.stage.request].poster == c)
  }

  /** The part of the range already unmapped is out of the table and out of this processor's own cache. */
  ghost predicate UnmapOk(s: State, x: Processor)
    requires x.stage.Unmapping?
  {
    var g := x.stage;
    && g.done <= |g.range|
    && (g.cleared ==> g.done < |g.range|)
    && CutOk(s, g.range, g.cut, g.since)
    && (forall i :: 0 <= i < g.done ==> g.range[i] in g.cut) && (g.cleared ==> g.range[g.done] in g.cut)
    && (forall t :: t in x.tlb && Stale(g.cut, t) ==> g.cleared && t.page == g.range[g.done])
  }

  ghost predicate Inv(s: State) {
    && (forall p :: p in s.table ==> s.table[p] < s.nextId)
    && (forall c :: c in s.cpus ==> CpuOk(s, c))
    && (forall r :: r in s.requests ==> RequestOk(s, r))
  }

  ghost predicate Initial(s: State) {
    && s.requests == map[] && (forall p :: p in s.table ==> s.table[p] < s.nextId)
    && forall c :: c in s.cpus ==> Booted(s.cpus[c])
  }

  ghost predicate Booted(x: Processor) {
    x.queue == [] && x.handling == None && x.stage == Free
  }

  // ---------- framing ----------

  ghost predicate InTable(s: State, t: Translation) {
    t.page in s.table && s.table[t.page] == t.id
  }

  /** The table of `w` holds entries of the table of `s` and mappings made since. */
  ghost predicate LaterTable(s: State, w: State) {
    s.nextId <= w.nextId && forall p :: p in w.table ==>
      (p in s.table && w.table[p] == s.table[p]) || s.nextId <= w.table[p]
  }

  /** Request `r` is where it was on processor `d`, and no more of its translations are cached there. */
  ghost predicate SameHold(s: State, w: State, d: Cpu, r: RequestId, q: Request)
    requires d in s.cpus && d in w.cpus
  {
    var x, y := s.cpus[d], w.cpus[d];
    && (r in y.queue <==> r in x.queue)
    && ((y.handling.Some? && y.handling.value.request == r) <==> (x.handling.Some? && x.handling.value.request == r))
    && (y.handling.Some? && y.handling.value.request == r ==> y.handling == x.handling)
    && (forall t :: t in y.tlb && Stale(q.cut, t) ==> t in x.tlb)
  }

  lemma RequestFrame(s: State, w: State, r: RequestId)
    requires r in s.requests && RequestOk(s, r) && r in w.requests && w.requests[r] == s.requests[r]
    requires w.cpus.Keys == s.cpus.Keys
    requires w.cpus[s.requests[r].poster].stage == s.cpus[s.requests[r].poster].stage
    requires forall d :: d in s.cpus ==> SameHold(s, w, d, r, s.requests[r])
    requires LaterTable(s, w)
    ensures RequestOk(w, r)
  {
    var q := s.requests[r];
    forall d ensures d in Holders(w, r) <==> d in Holders(s, r) { if d in s.cpus { assert SameHold(s, w, d, r, q); } }
    assert Holders(w, r) == Holders(s, r);
    forall d | d in w.cpus ensures CpuSafe(w, d, r, q) { assert CpuSafe(s, d, r, q) && SameHold(s, w, d, r, q); }
  }

  lemma CpuFrame(s: State, w: State, c: Cpu)
    requires c in s.cpus && CpuOk(s, c) && c in w.cpus && w.cpus[c] == s.cpus[c] && s.nextId <= w.nextId
    requires w.cpus.Keys == s.cpus.Keys
    requires forall r :: r in s.requests && (Holds(s, c, r) || s.requests[r].poster == c) ==>
      r in w.requests && w.requests[r].poster == s.requests[r].poster
    requires LaterTable(s, w)
    ensures CpuOk(w, c)
  {
  }

  /** A processor's own cache or stage changes; requests are not touched. */
  ghost predicate LocalChange(s: State, w: State, c: Cpu) {
    && c in s.cpus && c in w.cpus && w.cpus == s.cpus[c := w.cpus[c]] && w.requests == s.requests &&
      s.nextId <= w.nextId
    && w.cpus[c].queue == s.cpus[c].queue && w.cpus[c].handling == s.cpus[c].handling
    && (w.cpus[c].stage == s.cpus[c].stage || (!s.cpus[c].stage.Posting? && !s.cpus[c].stage.Waiting?))
    && LaterTable(s, w)
    && (forall t :: t in w.cpus[c].tlb && t !in s.cpus[c].tlb ==> InTable(s, t))
    && (forall p :: p in w.table ==> w.table[p] < w.nextId)
  }

  lemma LocalRequest(s: State, w: State, c: Cpu, r: RequestId)
    requires LocalChange(s, w, c) && r in s.requests && RequestOk(s, r)
    ensures RequestOk(w, r)
  {
    var q := s.requests[r];
    forall d | d in s.cpus ensures SameHold(s, w, d, r, q) { if d != c { assert w.cpus[d] == s.cpus[d]; } }
    RequestFrame(s, w, r);
  }

  lemma LocalKeeps(s: State, w: State, c: Cpu)
    requires Inv(s) && LocalChange(s, w, c) && CpuOk(w, c)
    ensures Inv(w)
  {
    hide RequestOk;
    forall d | d in w.cpus ensures CpuOk(w, d) { if d != c { CpuFrame(s, w, d); } }
    forall r | r in w.requests ensures RequestOk(w, r) { LocalRequest(s, w, c, r); }
  }

  // ---------- steps that leave requests alone ----------

  lemma MapKeeps(s: State, p: Page)
    requires Inv(s) && p !in s.table
    ensures Inv(Next(s, MapPage(p)))
  {
    hide RequestOk;
    var w := Next(s, MapPage(p));
    forall c | c in w.cpus ensures CpuOk(w, c) { CpuFrame(s, w, c); }
    forall r | r in w.requests ensures RequestOk(w, r) { MapRequest(s, p, r); }
  }

  lemma MapRequest(s: State, p: Page, r: RequestId)
    requires p !in s.table && r in s.requests && RequestOk(s, r)
    ensures RequestOk(Next(s, MapPage(p)), r)
  {
    RequestFrame(s, Next(s, MapPage(p)), r);
  }

  lemma CacheKeeps(s: State, a: Action)
    requires Inv(s) && Enabled(s, a) && (a.CacheTranslation? || a.EvictTranslation?)
    ensures Inv(Next(s, a))
  {
    hide RequestOk, CpuOk;
    CacheCpu(s, a);
    LocalKeeps(s, Next(s, a), a.cpu);
  }

  lemma CacheCpu(s: State, a: Action)
    requires Enabled(s, a) && (a.CacheTranslation? || a.EvictTranslation?) && CpuOk(s, a.cpu)
    requires forall p :: p in s.table ==> s.table[p] < s.nextId
    ensures CpuOk(Next(s, a), a.cpu)
  {
  }

  lemma UnmapKeeps(s: State, a: Action)
    requires Inv(s) && Enabled(s, a) && (a.BeginUnmap? || a.ClearEntry? || a.FlushLocal?)
    ensures Inv(Next(s, a))
  {
    hide RequestOk, CpuOk;
    UnmapCpu(s, a);
    LocalKeeps(s, Next(s, a), a.cpu);
  }

  lemma UnmapCpu(s: State, a: Action)
    requires Enabled(s, a) && (a.BeginUnmap? || a.ClearEntry? || a.FlushLocal?) && CpuOk(s, a.cpu)
    requires forall p :: p in s.table ==> s.table[p] < s.nextId
    ensures CpuOk(Next(s, a), a.cpu)
  {
  }

  // ---------- posting ----------

  /** Only processor `c` and request `r` change, and elsewhere nothing is retired or cached anew. */
  ghost predicate Touches(s: State, w: State, c: Cpu, r: RequestId) {
    && w.cpus.Keys == s.cpus.Keys && w.table == s.table && w.nextId == s.nextId
    && (forall d :: d in s.cpus && d != c ==> w.cpus[d] == s.cpus[d])
    && (forall p :: p in s.requests && p != r ==> p in w.requests && w.requests[p] == s.requests[p])
    && (forall p :: p in w.requests && p != r ==> p in s.requests)
  }

  lemma OtherRequest(s: State, w: State, c: Cpu, r: RequestId, p: RequestId)
    requires Touches(s, w, c, r) && p in s.requests && p != r && RequestOk(s, p) && c in s.cpus
    requires SameHold(s, w, c, p, s.requests[p])
    requires s.requests[p].poster == c ==> w.cpus[c].stage == s.cpus[c].stage
    ensures p in w.requests && RequestOk(w, p)
  {
    forall d | d in s.cpus ensures SameHold(s, w, d, p, s.requests[p]) { if d != c { assert w.cpus[d] == s.cpus[d]; } }
    RequestFrame(s, w, p);
  }

  lemma OtherCpu(s: State, w: State, c: Cpu, r: RequestId, d: Cpu)
    requires Touches(s, w, c, r) && d in s.cpus && d != c && CpuOk(s, d)
    requires r in s.requests && (Holds(s, d, r) || s.requests[r].poster == d) ==>
      r in w.requests && w.requests[r].poster == s.requests[r].poster
    ensures CpuOk(w, d)
  {
    CpuFrame(s, w, d);
  }

  /** Which request a posting or waiting processor is busy with. */
  lemma OwnRequest(s: State, c: Cpu, p: RequestId)
    requires Inv(s) && c in s.cpus && p in s.requests && s.requests[p].poster == c
    ensures var g := s.cpus[c].stage; (g.Posting? || g.Waiting?) && g.request == p
  {
    assert RequestOk(s, p);
  }

  ghost predicate Kept(s: State, w: State, c: Cpu, p: RequestId)
    requires c in s.cpus && c in w.cpus && p in s.requests
  {
    SameHold(s, w, c, p, s.requests[p]) && (s.requests[p].poster == c ==> w.cpus[c].stage == s.cpus[c].stage)
  }

  lemma TouchKeeps(s: State, w: State, c: Cpu, r: RequestId)
    requires Inv(s) && c in s.cpus && Touches(s, w, c, r) && CpuOk(w, c) && (r in w.requests ==> RequestOk(w, r))
    requires forall p :: p in s.requests && p != r ==> Kept(s, w, c, p)
    requires forall d :: d in s.cpus && d != c && r in s.requests && (Holds(s, d, r) || s.requests[r].poster == d) ==>
      r in w.requests && w.requests[r].poster == s.requests[r].poster
    ensures Inv(w)
  {
    hide RequestOk, CpuOk, SameHold;
    forall d | d in w.cpus ensures CpuOk(w, d) { if d != c { OtherCpu(s, w, c, r, d); } }
    forall p | p in w.requests ensures RequestOk(w, p) { if p != r { OtherRequest(s, w, c, r, p); } }
  }

  /** A processor whose stage changes has no other request of its own. */
  lemma NoOther(s: State, c: Cpu, r: RequestId)
    requires Inv(s) && c in s.cpus
    requires var g := s.cpus[c].stage; (g.Posting? || g.Waiting?) ==> g.request == r
    ensures forall p :: p in s.requests && p != r ==> s.requests[p].poster != c
  {
    forall p | p in s.requests && p != r ensures s.requests[p].poster != c {
      if s.requests[p].poster == c { OwnRequest(s, c, p); }
    }
  }

  lemma CpuFacts(s: State, c: Cpu)
    requires Inv(s) && c in s.cpus
    ensures CpuOk(s, c)
  {
  }

  lemma RequestFacts(s: State, r: RequestId)
    requires Inv(s) && r in s.requests
    ensures RequestOk(s, r)
  {
  }

  lemma BeginPostKeeps(s: State, c: Cpu, r: RequestId)
    requires Inv(s) && Enabled(s, BeginPost(c, r))
    ensures Inv(Next(s, BeginPost(c, r)))
  {
    hide Inv;
    var w := Next(s, BeginPost(c, r));
    CpuFacts(s, c);
    NoOther(s, c, r);
    BeginPostRequest(s, c, r);
    hide RequestOk;
    TouchKeeps(s, w, c, r);
  }

  lemma BeginPostRequest(s: State, c: Cpu, r: RequestId)
    requires Inv(s) && Enabled(s, BeginPost(c, r))
    ensures var w := Next(s, BeginPost(c, r)); r in w.requests && RequestOk(w, r)
  {
    hide RequestOk;
    var w := Next(s, BeginPost(c, r));
    forall d | d in w.cpus ensures !Holds(w, d, r) { assert CpuOk(s, d) && (Holds(w, d, r) <==> Holds(s, d, r)); }
    BeginPostSafe(s, c, r);
  }

  lemma BeginPostSafe(s: State, c: Cpu, r: RequestId)
    requires Enabled(s, BeginPost(c, r)) && CpuOk(s, c)
    requires forall d :: d in s.cpus ==> !Holds(Next(s, BeginPost(c, r)), d, r)
    ensures var w := Next(s, BeginPost(c, r)); r in w.requests && RequestOk(w, r)
  {
    var w := Next(s, BeginPost(c, r));
    assert Holders(w, r) == {};
  }

  lemma IncrementKeeps(s: State, c: Cpu, d: Cpu)
    requires Inv(s) && Enabled(s, Increment(c, d))
    ensures Inv(Next(s, Increment(c, d)))
  {
    hide Inv, RequestOk;
    var w, r := Next(s, Increment(c, d)), s.cpus[c].stage.request;
    CpuFacts(s, c);
    RequestFacts(s, r);
    NoOther(s, c, r);
    IncrementRequest(s, c, d);
    TouchKeeps(s, w, c, r);
  }

  lemma IncrementRequest(s: State, c: Cpu, d: Cpu)
    requires Enabled(s, Increment(c, d)) && CpuOk(s, c) && RequestOk(s, s.cpus[c].stage.request)
    ensures var w := Next(s, Increment(c, d)); var r := s.cpus[c].stage.request; r in w.requests && RequestOk(w, r)
  {
    var w, r := Next(s, Increment(c, d)), s.cpus[c].stage.request;
    forall e ensures e in Holders(w, r) <==> e in Holders(s, r) { }
    assert Holders(w, r) == Holders(s, r);
    forall e | e in w.cpus ensures CpuSafe(w, e, r, w.requests[r]) { assert CpuSafe(s, e, r, s.requests[r]); }
  }

  lemma BeginWaitKeeps(s: State, c: Cpu)
    requires Inv(s) && Enabled(s, BeginWait(c))
    ensures Inv(Next(s, BeginWait(c)))
  {
    hide Inv, RequestOk;
    var w, r := Next(s, BeginWait(c)), s.cpus[c].stage.request;
    CpuFacts(s, c);
    RequestFacts(s, r);
    NoOther(s, c, r);
    BeginWaitRequest(s, c);
    TouchKeeps(s, w, c, r);
  }

  lemma BeginWaitRequest(s: State, c: Cpu)
    requires Enabled(s, BeginWait(c)) && CpuOk(s, c) && RequestOk(s, s.cpus[c].stage.request)
    ensures var w := Next(s, BeginWait(c)); var r := s.cpus[c].stage.request; r in w.requests && RequestOk(w, r)
  {
    var w, r := Next(s, BeginWait(c)), s.cpus[c].stage.request;
    assert Holders(w, r) == Holders(s, r);
    forall e | e in w.cpus ensures CpuSafe(w, e, r, w.requests[r]) { assert CpuSafe(s, e, r, s.requests[r]); }
  }

  // ---------- handling ----------

  lemma PopKeeps(s: State, c: Cpu)
    requires Inv(s) && Enabled(s, Pop(c))
    ensures Inv(Next(s, Pop(c)))
  {
    hide Inv, RequestOk;
    var w, r := Next(s, Pop(c)), s.cpus[c].queue[0];
    assert s.cpus[c].queue == [r] + s.cpus[c].queue[1..];
    CpuFacts(s, c);
    RequestFacts(s, r);
    PopRequest(s, c);
    TouchKeeps(s, w, c, r);
  }

  lemma PopRequest(s: State, c: Cpu)
    requires Enabled(s, Pop(c)) && CpuOk(s, c) && RequestOk(s, s.cpus[c].queue[0])
    ensures var w := Next(s, Pop(c)); var r := s.cpus[c].queue[0]; r in w.requests && RequestOk(w, r)
  {
    var w, r := Next(s, Pop(c)), s.cpus[c].queue[0];
    assert s.cpus[c].queue == [r] + s.cpus[c].queue[1..];
    assert Holders(w, r) == Holders(s, r);
    forall e | e in w.cpus ensures CpuSafe(w, e, r, w.requests[r]) { assert CpuSafe(s, e, r, s.requests[r]); }
  }

  lemma InvalidateKeeps(s: State, c: Cpu)
    requires Inv(s) && Enabled(s, InvalidateOne(c))
    ensures Inv(Next(s, InvalidateOne(c)))
  {
    hide Inv, RequestOk;
    var w, r := Next(s, InvalidateOne(c)), s.cpus[c].handling.value.request;
    CpuFacts(s, c);
    RequestFacts(s, r);
    InvalidateRequest(s, c);
    TouchKeeps(s, w, c, r);
  }

  lemma InvalidateRequest(s: State, c: Cpu)
    requires Enabled(s, InvalidateOne(c)) && CpuOk(s, c) && s.cpus[c].handling.value.request in s.requests
    requires RequestOk(s, s.cpus[c].handling.value.request)
    ensures var w := Next(s, InvalidateOne(c)); var r := s.cpus[c].handling.value.request;
      r in w.requests && RequestOk(w, r)
  {
    var w, r := Next(s, InvalidateOne(c)), s.cpus[c].handling.value.request;
    assert Holders(w, r) == Holders(s, r);
    forall e | e in w.cpus ensures CpuSafe(w, e, r, w.requests[r]) { assert CpuSafe(s, e, r, s.requests[r]); }
  }

  lemma CompleteKeeps(s: State, c: Cpu)
    requires Inv(s) && Enabled(s, Complete(c))
    ensures Inv(Next(s, Complete(c)))
  {
    hide Inv, RequestOk;
    var w, r := Next(s, Complete(c)), s.cpus[c].handling.value.request;
    CpuFacts(s, c);
    RequestFacts(s, r);
    CompleteRequest(s, c);
    TouchKeeps(s, w, c, r);
  }

  lemma CompleteRequest(s: State, c: Cpu)
    requires Enabled(s, Complete(c)) && CpuOk(s, c) && RequestOk(s, s.cpus[c].handling.value.request)
    ensures var w := Next(s, Complete(c)); var r := s.cpus[c].handling.value.request; r in w.requests && RequestOk(w, r)
  {
    var w, r := Next(s, Complete(c)), s.cpus[c].handling.value.request;
    assert Holders(w, r) == Holders(s, r) - {c};
    assert c in Holders(s, r);
    forall e | e in w.cpus ensures CpuSafe(w, e, r, w.requests[r]) { assert CpuSafe(s, e, r, s.requests[r]); }
  }

  /** With the countdown at zero nobody holds the request, and nobody caches what it was about. */
  lemma CountdownZero(s: State, c: Cpu, r: RequestId)
    requires Inv(s) && c in s.cpus && s.cpus[c].stage == Waiting(r) && r in s.requests && s.requests[r].countdown == 0
    ensures forall d :: d in s.cpus ==> !Holds(s, d, r)
    ensures forall d, t :: d in s.cpus && t in s.cpus[d].tlb ==> !Stale(s.requests[r].cut, t)
  {
    CpuFacts(s, c);
    RequestFacts(s, r);
    hide Inv;
    forall d | d in s.cpus ensures !Holds(s, d, r) && forall t :: t in s.cpus[d].tlb ==> !Stale(s.requests[r].cut, t) {
      assert CpuSafe(s, d, r, s.requests[r]);
      assert d !in Holders(s, r);
    }
  }

  lemma ReturnKeeps(s: State, c: Cpu)
    requires Inv(s) && Enabled(s, Return(c))
    ensures Inv(Next(s, Return(c)))
  {
    hide Inv, RequestOk;
    var w, r := Next(s, Return(c)), s.cpus[c].stage.request;
    CpuFacts(s, c);
    CountdownZero(s, c, r);
    NoOther(s, c, r);
    TouchKeeps(s, w, c, r);
  }

  // ---------- pushing onto another processor's queue ----------

  lemma PushKeeps(s: State, c: Cpu)
    requires Inv(s) && Enabled(s, Push(c))
    ensures Inv(Next(s, Push(c)))
  {
    hide RequestOk, CpuOk;
    var w, g := Next(s, Push(c)), s.cpus[c].stage;
    var r, d := g.request, g.incremented.value;
    CpuFacts(s, c);
    CpuFacts(s, d);
    RequestFacts(s, r);
    NoOther(s, c, r);
    PushRequest(s, c);
    PushCpus(s, c);
    forall e | e in w.cpus ensures CpuOk(w, e) { if e != c && e != d { CpuFrame(s, w, e); } }
    forall p | p in w.requests ensures RequestOk(w, p) { if p != r { PushOther(s, c, p); } }
  }

  lemma PushCpus(s: State, c: Cpu)
    requires Enabled(s, Push(c)) && CpuOk(s, c) && CpuOk(s, s.cpus[c].stage.incremented.value)
    requires s.cpus[c].stage.request in s.requests && RequestOk(s, s.cpus[c].stage.request)
    ensures var w := Next(s, Push(c)); CpuOk(w, c) && CpuOk(w, s.cpus[c].stage.incremented.value)
  {
    var r, d := s.cpus[c].stage.request, s.cpus[c].stage.incremented.value;
    assert CpuSafe(s, d, r, s.requests[r]);
    AppendDistinct(s.cpus[d].queue, r);
  }

  lemma PushRequest(s: State, c: Cpu)
    requires Enabled(s, Push(c)) && CpuOk(s, c) && s.cpus[c].stage.request in s.requests
    requires RequestOk(s, s.cpus[c].stage.request)
    ensures var w := Next(s, Push(c)); var r := s.cpus[c].stage.request; r in w.requests && RequestOk(w, r)
  {
    var w, r, d := Next(s, Push(c)), s.cpus[c].stage.request, s.cpus[c].stage.incremented.value;
    assert CpuSafe(s, d, r, s.requests[r]);
    assert Holders(w, r) == Holders(s, r) + {d};
    forall e | e in w.cpus ensures CpuSafe(w, e, r, w.requests[r]) { assert CpuSafe(s, e, r, s.requests[r]); }
  }

  lemma PushOther(s: State, c: Cpu, p: RequestId)
    requires Enabled(s, Push(c)) && p in s.requests && p != s.cpus[c].stage.request && RequestOk(s, p)
    requires s.requests[p].poster != c
    ensures RequestOk(Next(s, Push(c)), p)
  {
    RequestFrame(s, Next(s, Push(c)), p);
  }

  // ---------- what every cached translation is ----------

  /** Some processor that has not returned from its unmap yet cleared the page after `t` was made. */
  ghost predicate BeingUnmapped(s: State, t: Translation) {
    || (exists r :: r in s.requests && Stale(s.requests[r].cut, t))
    || (exists c :: c in s.cpus && s.cpus[c].stage.Unmapping? && Stale(s.cpus[c].stage.cut, t))
  }

  /** A cached translation is in the table, unless an unmap of it is under way. */
  ghost predicate Coherent(s: State) {
    forall c, t :: c in s.cpus && t in s.cpus[c].tlb ==> InTable(s, t) || BeingUnmapped(s, t)
  }

  lemma RequestStays(s: State, a: Action, r: RequestId)
    requires Enabled(s, a) && r in s.requests && !(a.Return? && r == s.cpus[a.cpu].stage.request)
    ensures var w := Next(s, a); r in w.requests && w.requests[r].(countdown := 0) == s.requests[r].(countdown := 0)
  {
  }

  lemma StageStays(s: State, a: Action, c: Cpu, t: Translation)
    requires Enabled(s, a) && c in s.cpus && s.cpus[c].stage.Unmapping? && Stale(s.cpus[c].stage.cut, t)
    requires forall p :: p in s.cpus[c].stage.cut ==> s.cpus[c].stage.cut[p] <= s.nextId
    ensures var w := Next(s, a); c in w.cpus
    ensures var w := Next(s, a);
      if a.BeginPost? && a.cpu == c then a.request in w.requests && Stale(w.requests[a.request].cut, t)
      else w.cpus[c].stage.Unmapping? && Stale(w.cpus[c].stage.cut, t)
  {
  }

  lemma CutBound(s: State, c: Cpu)
    requires Inv(s) && c in s.cpus && s.cpus[c].stage.Unmapping?
    ensures forall p :: p in s.cpus[c].stage.cut ==> s.cpus[c].stage.cut[p] <= s.nextId
  {
    CpuFacts(s, c);
  }

  lemma UnmappedStays(s: State, a: Action, t: Translation)
    requires Inv(s) && Enabled(s, a) && BeingUnmapped(s, t)
    ensures BeingUnmapped(Next(s, a), t) || (a.Return? && Stale(s.requests[s.cpus[a.cpu].stage.request].cut, t))
  {
    hide Next, Inv, Stale;
    if r :| r in s.requests && Stale(s.requests[r].cut, t) {
      if !(a.Return? && r == s.cpus[a.cpu].stage.request) { RequestStays(s, a, r); }
    } else {
      var c :| c in s.cpus && s.cpus[c].stage.Unmapping? && Stale(s.cpus[c].stage.cut, t);
      CutBound(s, c);
      StageStays(s, a, c, t);
    }
  }

  lemma CachedBefore(s: State, a: Action, c: Cpu, t: Translation)
    requires Enabled(s, a) && c in s.cpus && c in Next(s, a).cpus && t in Next(s, a).cpus[c].tlb && t !in s.cpus[c].tlb
    ensures InTable(Next(s, a), t)
  {
  }

  lemma TableStays(s: State, a: Action, t: Translation)
    requires Enabled(s, a) && InTable(s, t) && t.id < s.nextId
    ensures InTable(Next(s, a), t) || BeingUnmapped(Next(s, a), t)
  {
    var w := Next(s, a);
    if a.ClearEntry? && t.page == s.cpus[a.cpu].stage.range[s.cpus[a.cpu].stage.done] {
      assert a.cpu in w.cpus && w.cpus[a.cpu].stage.Unmapping? && Stale(w.cpus[a.cpu].stage.cut, t);
    }
  }

  lemma CoherentCache(s: State, a: Action, c: Cpu, t: Translation)
    requires Inv(s) && Enabled(s, a) && Coherent(s) && c in s.cpus && c in Next(s, a).cpus
    requires t in Next(s, a).cpus[c].tlb
    ensures InTable(Next(s, a), t) || BeingUnmapped(Next(s, a), t)
  {
    if t !in s.cpus[c].tlb {
      CachedBefore(s, a, c, t);
    } else if InTable(s, t) {
      TableStays(s, a, t);
    } else {
      hide Inv;
      UnmappedStays(s, a, t);
      if a.Return? { CountdownZero(s, a.cpu, s.cpus[a.cpu].stage.request); }
    }
  }

  lemma CpusStay(s: State, a: Action)
    requires Enabled(s, a) && (a.Push? ==> s.cpus[a.cpu].stage.incremented.value in s.cpus)
    ensures Next(s, a).cpus.Keys == s.cpus.Keys
  {
  }

  lemma CoherentKeeps(s: State, a: Action)
    requires Inv(s) && Enabled(s, a) && Coherent(s)
    ensures Coherent(Next(s, a))
  {
    hide Inv;
    CpusStay(s, a);
    var w := Next(s, a);
    hide Next;
    forall c, t | c in w.cpus && t in w.cpus[c].tlb ensures InTable(w, t) || BeingUnmapped(w, t) {
      CoherentCache(s, a, c, t);
    }
  }

  // ---------- whole runs ----------

  /** Every step any processor or the hardware can take keeps the invariant. */
  lemma StepKeeps(s: State, a: Action)
    requires Inv(s) && Enabled(s, a)
    ensures Inv(Next(s, a))
  {
    hide Inv, Next;
    match a
    case MapPage(p) => MapKeeps(s, p);
    case CacheTranslation(_, _) => CacheKeeps(s, a);
    case EvictTranslation(_, _) => CacheKeeps(s, a);
    case BeginUnmap(_, _) => UnmapKeeps(s, a);
    case ClearEntry(_) => UnmapKeeps(s, a);
    case FlushLocal(_) => UnmapKeeps(s, a);
    case BeginPost(c, r) => BeginPostKeeps(s, c, r);
    case Increment(c, d) => IncrementKeeps(s, c, d);
    case Push(c) => PushKeeps(s, c);
    case BeginWait(c) => BeginWaitKeeps(s, c);
    case Pop(c) => PopKeeps(s, c);
    case InvalidateOne(c) => InvalidateKeeps(s, c);
    case Complete(c) => CompleteKeeps(s, c);
    case Return(c) => ReturnKeeps(s, c);
  }

  ghost predicate Path(states: seq<State>, actions: seq<Action>) {
    && |states| == |actions| + 1
    && forall i :: 0 <= i < |actions| ==> Enabled(states[i], actions[i]) && states[i + 1] == Next(states[i], actions[i])
  }

  ghost predicate Run(states: seq<State>, actions: seq<Action>) {
    Path(states, actions) && Initial(states[0]) && Coherent(states[0])
  }

  lemma {:induction false} RunKeeps(states: seq<State>, actions: seq<Action>, i: nat)
    requires Run(states, actions) && i < |states|
    ensures Inv(states[i]) && Coherent(states[i])
  {
    if i == 0 {
      InitialInv(states[0]);
    } else {
      RunKeeps(states, actions, i - 1);
      hide Inv, Coherent;
      StepKeeps(states[i - 1], actions[i - 1]);
      CoherentKeeps(states[i - 1], actions[i - 1]);
    }
  }

  lemma InitialInv(s: State)
    requires Initial(s)
    ensures Inv(s)
  {
    forall c | c in s.cpus ensures CpuOk(s, c) { assert Booted(s.cpus[c]); }
  }

  /** The countdown is the number of processors with the request queued or in progress, plus one being pushed. */
  lemma CountdownCounts(states: seq<State>, actions: seq<Action>, i: nat, r: RequestId)
    requires Run(states, actions) && i < |states| && r in states[i].requests
    ensures var s := states[i];
      s.requests[r].countdown == |Holders(s, r)| + (if Counting(s, s.requests[r], r) then 1 else 0)
  {
    RunKeeps(states, actions, i);
    assert RequestOk(states[i], r);
  }

  /**
   When `unmap_range` returns, no processor caches any mapping of the range made before the unmap began,
   whoever took it out of the table, and no processor still refers to the request.
   */
  lemma UnmapReturnsClean(states: seq<State>, actions: seq<Action>, i: nat, c: Cpu, d: Cpu, t: Translation)
    requires Run(states, actions) && i < |actions| && actions[i] == Return(c) && d in states[i].cpus
    ensures var s := states[i]; var r := s.cpus[c].stage.request;
      && r in s.requests && !Holds(s, d, r)
      && (t.page in s.requests[r].range && t.id < s.requests[r].since ==> t !in s.cpus[d].tlb)
  {
    RunKeeps(states, actions, i);
    var s := states[i];
    var r := s.cpus[c].stage.request;
    CountdownZero(s, c, r);
    RequestFacts(s, r);
    hide Inv;
    assert t.page in s.requests[r].range && t.id < s.requests[r].since ==> Stale(s.requests[r].cut, t);
  }

  /** With no unmap under way, every cached translation is a current table entry. */
  lemma QuietMeansCoherent(states: seq<State>, actions: seq<Action>, i: nat, d: Cpu, t: Translation)
    requires Run(states, actions) && i < |states| && d in states[i].cpus && t in states[i].cpus[d].tlb
    requires forall c :: c in states[i].cpus ==> states[i].cpus[c].stage == Free
    ensures InTable(states[i], t)
  {
    RunKeeps(states, actions, i);
    var s := states[i];
    forall r | r in s.requests ensures s.requests[r].poster in s.cpus && s.cpus[s.requests[r].poster].stage != Free {
      RequestFacts(s, r);
    }
  }

  // ---------- the request queue never overflows ----------

  ghost function Posters(s: State, q: seq<RequestId>): set<Cpu>
    requires forall r :: r in q ==> r in s.requests
  {
    if q == [] then {} else {s.requests[q[0]].poster} + Posters(s, q[1..])
  }

  lemma {:induction false} PosterSource(s: State, q: seq<RequestId>, c: Cpu) returns (r: RequestId)
    requires (forall p :: p in q ==> p in s.requests) && c in Posters(s, q)
    ensures r in q && s.requests[r].poster == c
  {
    if s.requests[q[0]].poster == c { r := q[0]; } else { r := PosterSource(s, q[1..], c); }
  }

  lemma {:induction false} PostersWithin(s: State, q: seq<RequestId>, allowed: set<Cpu>)
    requires forall r :: r in q ==> r in s.requests && s.requests[r].poster in allowed
    ensures Posters(s, q) <= allowed
  {
    if q != [] { PostersWithin(s, q[1..], allowed); }
  }

  /** Different requests come from different processors: each posts one and waits for it. */
  lemma {:induction false} PostersCount(s: State, q: seq<RequestId>)
    requires Inv(s) && NoDuplicates(q) && forall r :: r in q ==> r in s.requests
    ensures |Posters(s, q)| == |q|
  {
    hide Inv;
    if q != [] {
      PostersCount(s, q[1..]);
      var c := s.requests[q[0]].poster;
      if c in Posters(s, q[1..]) {
        var r := PosterSource(s, q[1..], c);
        RequestFacts(s, r);
        RequestFacts(s, q[0]);
        OwnRequest(s, c, r);
        OwnRequest(s, c, q[0]);
      }
    }
  }

  lemma SubsetSize(a: set<Cpu>, b: set<Cpu>)
    requires a <= b
    ensures |a| <= |b|
  {
    if a != {} {
      var x :| x in a;
      SubsetSize(a - {x}, b - {x});
    }
  }

  lemma TwoFewer(a: set<Cpu>, c: Cpu, d: Cpu)
    requires c in a && d in a && c != d
    ensures |a - {c} - {d}| == |a| - 2
  {
  }

  /** Whoever has a request in the queue a push is about to go to is neither the pusher nor the queue's owner. */
  lemma QueuedFromElsewhere(s: State, c: Cpu, p: RequestId)
    requires Inv(s) && Enabled(s, Push(c)) && p in s.cpus[s.cpus[c].stage.incremented.value].queue
    ensures p in s.requests && s.requests[p].poster in s.cpus
    ensures s.requests[p].poster != c && s.requests[p].poster != s.cpus[c].stage.incremented.value
  {
    hide Inv;
    var r, d := s.cpus[c].stage.request, s.cpus[c].stage.incremented.value;
    CpuFacts(s, c);
    CpuFacts(s, d);
    RequestFacts(s, r);
    assert CpuSafe(s, d, r, s.requests[r]);
    assert Holds(s, d, p);
    RequestFacts(s, p);
    if s.requests[p].poster == c { OwnRequest(s, c, p); }
  }

  lemma QueueDistinct(s: State, d: Cpu)
    requires Inv(s) && d in s.cpus
    ensures NoDuplicates(s.cpus[d].queue)
  {
    CpuFacts(s, d);
  }

  lemma QueueBound(s: State, c: Cpu)
    requires Inv(s) && Enabled(s, Push(c))
    ensures |s.cpus[s.cpus[c].stage.incremented.value].queue| <= |s.cpus.Keys| - 2
  {
    hide Inv, CpuOk, NoDuplicates, Posters;
    var d := s.cpus[c].stage.incremented.value;
    var q := s.cpus[d].queue;
    QueueDistinct(s, d);
    var others := s.cpus.Keys - {c} - {d};
    forall p | p in q ensures p in s.requests && s.requests[p].poster in others { QueuedFromElsewhere(s, c, p); }
    PostersCount(s, q);
    PostersWithin(s, q, others);
    SubsetSize(Posters(s, q), others);
    TwoFewer(s.cpus.Keys, c, d);
  }

  /** On a machine of at most 33 processors a push never finds the queue full. */
  lemma QueueHasRoom(states: seq<State>, actions: seq<Action>, i: nat, c: Cpu)
    requires Run(states, actions) && i < |actions| && actions[i] == Push(c)
    requires |states[i].cpus.Keys| <= MAX_IPI_REQUESTS + 1
    ensures var s := states[i]; |s.cpus[s.cpus[c].stage.incremented.value].queue| < MAX_IPI_REQUESTS
  {
    hide Inv;
    RunKeeps(states, actions, i);
    QueueBound(states[i], c);
  }

  /** Processor `c` is free to unmap an empty range and post it as request `c`. */
  /** Without the request a removed mapping would stay cached: between clearing and returning, it can be. */
  lemma StaleMeanwhile(s: State, c: Cpu, d: Cpu, p: Page) returns (states: seq<State>, actions: seq<Action>)
    requires Initial(s) && Coherent(s) && c in s.cpus && d in s.cpus && c != d && p !in s.table
    ensures Run(states, actions) && states[0] == s
    ensures var w, t := states[|actions|], Translation(p, s.nextId);
      d in w.cpus && t in w.cpus[d].tlb && p !in w.table && c in w.cpus && w.cpus[c].stage.Unmapping?
  {
    actions := [MapPage(p), CacheTranslation(d, p), BeginUnmap(c, [p]), ClearEntry(c)];
    assert Booted(s.cpus[c]);
    var s1 := Next(s, actions[0]);
    var s2 := Next(s1, actions[1]);
    var s3 := Next(s2, actions[2]);
    states := [s, s1, s2, s3, Next(s3, actions[3])];
  }

  ghost predicate Ready(s: State, c: Cpu) {
    c in s.cpus && s.cpus[c].stage == Free && s.cpus[c].handling == None && c !in s.requests
  }

  /** Up to the push: the request of `c` is counted for `d` but not in the queue of `d` yet. */
  lemma AboutToPush(s: State, c: Cpu, d: Cpu) returns (states: seq<State>, actions: seq<Action>)
    requires Ready(s, c) && d in s.cpus && c != d
    ensures Path(states, actions) && states[0] == s && |actions| == 3
    ensures var w := states[3];
      && Enabled(w, Push(c)) && w.cpus[c].stage.incremented == Some(d) && w.cpus.Keys == s.cpus.Keys
      && (forall e :: e in s.cpus && e != c ==> w.cpus[e] == s.cpus[e])
      && w.cpus[c].stage.request == c && w.requests.Keys == s.requests.Keys + {c}
  {
    actions := [BeginUnmap(c, []), BeginPost(c, c), Increment(c, d)];
    var s1 := Next(s, actions[0]);
    var s2 := Next(s1, actions[1]);
    var s3 := Next(s2, actions[2]);
    states := [s, s1, s2, s3];
  }

  lemma PathJoin(a: seq<State>, b: seq<Action>, c: seq<State>, d: seq<Action>)
    requires Path(a, b) && Path(c, d) && a[|a| - 1] == c[0]
    ensures Path(a + c[1..], b + d) && (a + c[1..])[0] == a[0] && (a + c[1..])[|b| + |d|] == c[|d|]
  {
    var states, actions := a + c[1..], b + d;
    forall i | 0 <= i < |actions| ensures Enabled(states[i], actions[i]) &&
      states[i + 1] == Next(states[i], actions[i]) {
      if i >= |b| {
        assert actions[i] == d[i - |b|] && states[i] == c[i - |b|] && states[i + 1] == c[i - |b| + 1];
      }
    }
  }

  /** The posters push one request each onto the queue of `d`, which does not handle any meanwhile. */
  lemma {:induction false} PushAll(s: State, d: Cpu, posters: seq<Cpu>)
    returns (states: seq<State>, actions: seq<Action>)
    requires d in s.cpus && NoDuplicates(posters) && forall c :: c in posters ==> Ready(s, c) && c != d
    ensures Path(states, actions) && states[0] == s
    ensures var w := states[|actions|];
      && w.cpus.Keys == s.cpus.Keys && |w.cpus[d].queue| == |s.cpus[d].queue| + |posters|
      && forall e :: Ready(s, e) && e != d && e !in posters ==> Ready(w, e)
    decreases |posters|
  {
    if posters == [] {
      states, actions := [s], [];
    } else {
      var c := posters[0];
      var a, b := AboutToPush(s, c, d);
      var pushed := Next(a[3], Push(c));
      PathJoin(a, b, [a[3], pushed], [Push(c)]);
      forall e | Ready(s, e) && e != c && e != d ensures Ready(pushed, e) { assert a[3].cpus[e] == s.cpus[e]; }
      assert posters == [c] + posters[1..];
      forall e | e in posters[1..] ensures Ready(pushed, e) && e != d { assert e in posters && e != c; }
      var rest, more := PushAll(pushed, d, posters[1..]);
      var first := a + [a[3], pushed][1..];
      PathJoin(first, b + [Push(c)], rest, more);
      states, actions := first + rest[1..], b + [Push(c)] + more;
    }
  }

  lemma {:induction false} SomeList(s: set<Cpu>, n: nat) returns (list: seq<Cpu>)
    requires n <= |s|
    ensures |list| == n && NoDuplicates(list) && forall c :: c in list ==> c in s
  {
    if n == 0 {
      list := [];
    } else {
      var c :| c in s;
      list := SomeList(s - {c}, n - 1);
      list := [c] + list;
    }
  }

  /** On any larger machine there is a run in which a push finds the queue full. */
  lemma QueueCanFill(s: State) returns (states: seq<State>, actions: seq<Action>, c: Cpu)
    requires Initial(s) && Coherent(s) && |s.cpus.Keys| > MAX_IPI_REQUESTS + 1
    ensures Run(states, actions) && states[0] == s
    ensures var w := states[|actions|];
      Enabled(w, Push(c)) && w.cpus[c].stage.incremented.value in w.cpus
      && |w.cpus[w.cpus[c].stage.incremented.value].queue| == MAX_IPI_REQUESTS
  {
    var list := SomeList(s.cpus.Keys, MAX_IPI_REQUESTS + 2);
    var d := list[0];
    c := list[1];
    var posters := list[2..];
    assert list[1..][0] == c && list[1..][1..] == posters;
    assert list == [d] + list[1..] && list[1..] == [c] + posters;
    forall e | e in list ensures Ready(s, e) { assert Booted(s.cpus[e]); }
    assert d !in list[1..] && c !in posters && c != d;
    forall e | e in posters ensures Ready(s, e) && e != d { assert e in list[1..]; }
    assert Booted(s.cpus[d]);
    var a, b := PushAll(s, d, posters);
    var w := a[|b|];
    var x, y := AboutToPush(w, c, d);
    PathJoin(a, b, x, y);
    states, actions := a + x[1..], b + y;
  }
}
