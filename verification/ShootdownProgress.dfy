/**
 Progress of the TLB shootdown: processors that wait for each other never all wait, and the number of steps the
 protocol still has to take is known at every point.
 */
module ShootdownProgress {
  import opened Common
  import opened Shootdown

  /** Steps of an unmap under way; the others are page table walks, mappings and the beginnings of unmaps. */
  predicate IsProtocol(a: Action) {
    !a.MapPage? && !a.CacheTranslation? && !a.EvictTranslation? && !a.BeginUnmap?
  }

  /** Nobody is unmapping and no request is queued or in progress. */
  ghost predicate AtRest(s: State) {
    forall c :: c in s.cpus ==> Booted(s.cpus[c])
  }

  // ---------- some step is always open ----------

  lemma FreshRequest(m: map<RequestId, Request>) returns (r: RequestId)
    ensures r !in m
  {
    r := Above(m.Keys);
  }

  lemma {:induction false} Above(s: set<nat>) returns (n: nat)
    ensures forall x :: x in s ==> x < n
  {
    if s == {} {
      n := 0;
    } else {
      var x :| x in s;
      n := Above(s - {x});
      assert forall y :: y in s ==> y in s - {x} || y == x;
      if n <= x { n := x + 1; }
    }
  }

  /** A processor with anything to do but wait can do it. */
  ghost predicate HasWork(x: Processor) {
    x.handling.Some? || x.stage.Unmapping? || x.stage.Posting? || x.queue != []
  }

  lemma WorkIsOpen(s: State, c: Cpu) returns (a: Action)
    requires Inv(s) && c in s.cpus && HasWork(s.cpus[c])
    ensures IsProtocol(a) && Enabled(s, a)
  {
    hide RequestOk;
    CpuFacts(s, c);
    hide Inv;
    var x := s.cpus[c];
    if x.handling.Some? {
      assert Holds(s, c, x.handling.value.request);
      a := if x.handling.value.todo == [] then Complete(c) else InvalidateOne(c);
    } else if x.stage.Unmapping? {
      if x.stage.done < |x.stage.range| {
        a := if x.stage.cleared then FlushLocal(c) else ClearEntry(c);
      } else {
        var r := FreshRequest(s.requests);
        a := BeginPost(c, r);
      }
    } else if x.stage.Posting? {
      if x.stage.incremented.Some? {
        a := Push(c);
      } else if x.stage.todo == {} {
        a := BeginWait(c);
      } else {
        var d :| d in x.stage.todo;
        a := Increment(c, d);
      }
    } else {
      assert Holds(s, c, x.queue[0]);
      a := Pop(c);
    }
  }

  /** A waiting processor's countdown is at zero, or some processor has its request still to do. */
  lemma WaitedFor(s: State, c: Cpu) returns (d: Cpu)
    requires Inv(s) && c in s.cpus && s.cpus[c].stage.Waiting?
    ensures s.cpus[c].stage.request in s.requests
    ensures s.requests[s.cpus[c].stage.request].countdown != 0 ==> d in s.cpus && HasWork(s.cpus[d])
  {
    var r := s.cpus[c].stage.request;
    CpuFacts(s, c);
    RequestFacts(s, r);
    hide Inv;
    d := c;
    if s.requests[r].countdown != 0 {
      assert Holders(s, r) != {};
      d :| d in Holders(s, r);
    }
  }

  /** Unless all is at rest, a step of the protocol is open: the waiting never wait for each other alone. */
  lemma NoDeadlock(s: State) returns (a: Action)
    requires Inv(s) && !AtRest(s)
    ensures IsProtocol(a) && Enabled(s, a)
  {
    hide Inv;
    var c :| c in s.cpus && !Booted(s.cpus[c]);
    if HasWork(s.cpus[c]) {
      a := WorkIsOpen(s, c);
    } else {
      var d := WaitedFor(s, c);
      if s.requests[s.cpus[c].stage.request].countdown == 0 {
        a := Return(c);
      } else {
        a := WorkIsOpen(s, d);
      }
    }
  }

  // ---------- how many steps are left ----------

  ghost function Pages(s: State, r: RequestId): nat {
    if r in s.requests then |s.requests[r].range| else 0
  }

  /** To count, push, pop, invalidate and complete a request for `n` processors. */
  ghost function Deliver(n: int, pages: nat): int {
    n * (pages + 4)
  }

  lemma DeliverOne(n: int, pages: nat)
    ensures Deliver(n, pages) == Deliver(n - 1, pages) + pages + 4
  {
  }

  ghost function QueueLoad(s: State, q: seq<RequestId>): nat {
    if q == [] then 0 else Pages(s, q[0]) + 2 + QueueLoad(s, q[1..])
  }

  ghost function StageLoad(s: State, g: Stage): int {
    match g
    case Free => 0
    case Unmapping(range, done, cleared, _, _) =>
      2 * (|range| - done) - (if cleared then 1 else 0) + 3 + Deliver(|s.cpus| - 1, |range|)
    case Posting(r, todo, incremented) =>
      Deliver(|todo|, Pages(s, r)) + (if incremented.Some? then Pages(s, r) + 3 else 0) + 2
    case Waiting(_) => 1
  }

  ghost function CpuLoad(s: State, x: Processor): int {
    StageLoad(s, x.stage) + QueueLoad(s, x.queue) + (if x.handling.Some? then |x.handling.value.todo| + 1 else 0)
  }

  ghost function LoadOf(s: State, cs: set<Cpu>): int
    requires cs <= s.cpus.Keys
  {
    if cs == {} then 0 else var c :| c in cs; CpuLoad(s, s.cpus[c]) + LoadOf(s, cs - {c})
  }

  /** The steps the protocol has yet to take if no unmap begins. */
  ghost function StepsLeft(s: State): int {
    LoadOf(s, s.cpus.Keys)
  }

  lemma {:induction false} LoadSplit(s: State, cs: set<Cpu>, c: Cpu)
    requires cs <= s.cpus.Keys && c in cs
    ensures LoadOf(s, cs) == CpuLoad(s, s.cpus[c]) + LoadOf(s, cs - {c})
    decreases |cs|
  {
    hide CpuLoad;
    var d :| d in cs && LoadOf(s, cs) == CpuLoad(s, s.cpus[d]) + LoadOf(s, cs - {d});
    if d != c {
      LoadSplit(s, cs - {d}, c);
      LoadSplit(s, cs - {c}, d);
      assert cs - {d} - {c} == cs - {c} - {d};
    }
  }

  lemma {:induction false} LoadSame(s: State, w: State, cs: set<Cpu>)
    requires cs <= s.cpus.Keys && cs <= w.cpus.Keys
    requires forall c :: c in cs ==> CpuLoad(w, w.cpus[c]) == CpuLoad(s, s.cpus[c])
    ensures LoadOf(w, cs) == LoadOf(s, cs)
    decreases |cs|
  {
    hide CpuLoad;
    if cs != {} {
      var c :| c in cs;
      LoadSplit(s, cs, c);
      LoadSplit(w, cs, c);
      LoadSame(s, w, cs - {c});
    }
  }

  /** Only the load of `c` has changed. */
  lemma LoadChange(s: State, w: State, c: Cpu)
    requires c in s.cpus && w.cpus.Keys == s.cpus.Keys
    requires forall d :: d in s.cpus && d != c ==> CpuLoad(w, w.cpus[d]) == CpuLoad(s, s.cpus[d])
    ensures StepsLeft(w) - StepsLeft(s) == CpuLoad(w, w.cpus[c]) - CpuLoad(s, s.cpus[c])
  {
    hide CpuLoad;
    LoadSplit(s, s.cpus.Keys, c);
    LoadSplit(w, s.cpus.Keys, c);
    LoadSame(s, w, s.cpus.Keys - {c});
  }

  lemma {:induction false} QueueSame(s: State, w: State, q: seq<RequestId>)
    requires forall r :: r in q ==> Pages(w, r) == Pages(s, r)
    ensures QueueLoad(w, q) == QueueLoad(s, q)
  {
    if q != [] { QueueSame(s, w, q[1..]); }
  }

  lemma {:induction false} QueueMore(s: State, q: seq<RequestId>, r: RequestId)
    ensures QueueLoad(s, q + [r]) == QueueLoad(s, q) + Pages(s, r) + 2
  {
    if q != [] {
      QueueMore(s, q[1..], r);
      assert (q + [r])[1..] == q[1..] + [r];
    }
  }

  /** A processor's load depends on the requests it holds or posts. */
  lemma CpuLoadSame(s: State, w: State, d: Cpu)
    requires d in s.cpus && d in w.cpus && w.cpus[d] == s.cpus[d] && |w.cpus| == |s.cpus|
    requires forall r :: r in s.cpus[d].queue ==> Pages(w, r) == Pages(s, r)
    requires s.cpus[d].stage.Posting? ==> Pages(w, s.cpus[d].stage.request) == Pages(s, s.cpus[d].stage.request)
    ensures CpuLoad(w, w.cpus[d]) == CpuLoad(s, s.cpus[d])
  {
    QueueSame(s, w, s.cpus[d].queue);
  }

  /** The requests a processor refers to exist, and those it posts are its own. */
  lemma Referred(s: State, d: Cpu)
    requires Inv(s) && d in s.cpus
    ensures forall r :: r in s.cpus[d].queue ==> r in s.requests
    ensures s.cpus[d].stage.Posting? || s.cpus[d].stage.Waiting? ==>
      s.cpus[d].stage.request in s.requests && s.requests[s.cpus[d].stage.request].poster == d
  {
    CpuFacts(s, d);
    hide Inv;
    forall r | r in s.cpus[d].queue ensures r in s.requests { assert Holds(s, d, r); }
  }

  /** Apart from one request, all have the pages they had. */
  ghost predicate SamePages(s: State, w: State, but: Option<RequestId>) {
    forall r :: r in s.requests && but != Some(r) ==> Pages(w, r) == Pages(s, r)
  }

  lemma OthersSame(s: State, w: State, c: Cpu, but: Option<RequestId>)
    requires Inv(s) && c in s.cpus && c in w.cpus && w.cpus == s.cpus[c := w.cpus[c]] && SamePages(s, w, but)
    requires but.Some? ==> forall d :: d in s.cpus && d != c ==>
      but.value !in s.cpus[d].queue && !(s.cpus[d].stage.Posting? && s.cpus[d].stage.request == but.value)
    ensures w.cpus.Keys == s.cpus.Keys
    ensures forall d :: d in s.cpus && d != c ==> CpuLoad(w, w.cpus[d]) == CpuLoad(s, s.cpus[d])
  {
    hide Inv, CpuLoad, Pages;
    assert w.cpus.Keys == s.cpus.Keys;
    assert |w.cpus| == |w.cpus.Keys| && |s.cpus| == |s.cpus.Keys|;
    forall d | d in s.cpus && d != c ensures CpuLoad(w, w.cpus[d]) == CpuLoad(s, s.cpus[d]) {
      Referred(s, d);
      CpuLoadSame(s, w, d);
    }
  }

  /** The step's own processor has one step less to take, or two processors together have. */
  lemma OneStep(s: State, a: Action)
    requires Inv(s) && Enabled(s, a) && IsProtocol(a)
    ensures StepsLeft(Next(s, a)) == StepsLeft(s) - 1
  {
    hide Inv, StepsLeft, CpuLoad, Next;
    match a
    case ClearEntry(c) => UnmapStep(s, a);
    case FlushLocal(c) => UnmapStep(s, a);
    case BeginPost(c, r) => PostStep(s, c, r);
    case Increment(c, d) => IncrementStep(s, c, d);
    case Push(c) => PushStep(s, c);
    case BeginWait(c) => BeginWaitStep(s, c);
    case Pop(c) => PopStep(s, c);
    case InvalidateOne(c) => HandleStep(s, a);
    case Complete(c) => HandleStep(s, a);
    case Return(c) => ReturnStep(s, c);
  }

  lemma UnmapStep(s: State, a: Action)
    requires Inv(s) && Enabled(s, a) && (a.ClearEntry? || a.FlushLocal?)
    ensures StepsLeft(Next(s, a)) == StepsLeft(s) - 1
  {
    hide Inv, StepsLeft, Deliver, QueueLoad;
    var w, c := Next(s, a), a.cpu;
    OthersSame(s, w, c, None);
    LoadChange(s, w, c);
    QueueSame(s, w, s.cpus[c].queue);
    assert |w.cpus| == |w.cpus.Keys| && |s.cpus| == |s.cpus.Keys|;
  }

  lemma PostStep(s: State, c: Cpu, r: RequestId)
    requires Inv(s) && Enabled(s, BeginPost(c, r))
    ensures StepsLeft(Next(s, BeginPost(c, r))) == StepsLeft(s) - 1
  {
    hide Inv, StepsLeft, Deliver, QueueLoad;
    var w := Next(s, BeginPost(c, r));
    forall d | d in s.cpus
      ensures r !in s.cpus[d].queue && !(s.cpus[d].stage.Posting? && s.cpus[d].stage.request == r)
    {
      Referred(s, d);
    }
    OthersSame(s, w, c, Some(r));
    LoadChange(s, w, c);
    QueueSame(s, w, s.cpus[c].queue);
    CpuFacts(s, c);
    assert |w.cpus| == |w.cpus.Keys| && |s.cpus| == |s.cpus.Keys|;
    assert |s.cpus.Keys - {c}| == |s.cpus| - 1;
  }

  lemma IncrementStep(s: State, c: Cpu, d: Cpu)
    requires Inv(s) && Enabled(s, Increment(c, d))
    ensures StepsLeft(Next(s, Increment(c, d))) == StepsLeft(s) - 1
  {
    hide Inv, StepsLeft, Deliver, QueueLoad;
    var w, g := Next(s, Increment(c, d)), s.cpus[c].stage;
    OthersSame(s, w, c, None);
    LoadChange(s, w, c);
    QueueSame(s, w, s.cpus[c].queue);
    assert |g.todo - {d}| == |g.todo| - 1;
    DeliverOne(|g.todo|, Pages(s, g.request));
  }

  lemma BeginWaitStep(s: State, c: Cpu)
    requires Inv(s) && Enabled(s, BeginWait(c))
    ensures StepsLeft(Next(s, BeginWait(c))) == StepsLeft(s) - 1
  {
    hide Inv, StepsLeft, QueueLoad;
    var w := Next(s, BeginWait(c));
    OthersSame(s, w, c, None);
    LoadChange(s, w, c);
    QueueSame(s, w, s.cpus[c].queue);
  }

  lemma PopStep(s: State, c: Cpu)
    requires Inv(s) && Enabled(s, Pop(c))
    ensures StepsLeft(Next(s, Pop(c))) == StepsLeft(s) - 1
  {
    hide Inv, StepsLeft, Deliver;
    var w := Next(s, Pop(c));
    OthersSame(s, w, c, None);
    LoadChange(s, w, c);
    QueueSame(s, w, s.cpus[c].queue[1..]);
    assert |w.cpus| == |w.cpus.Keys| && |s.cpus| == |s.cpus.Keys|;
  }

  lemma HandleStep(s: State, a: Action)
    requires Inv(s) && Enabled(s, a) && (a.InvalidateOne? || a.Complete?)
    ensures StepsLeft(Next(s, a)) == StepsLeft(s) - 1
  {
    hide Inv, StepsLeft, Deliver, QueueLoad;
    var w, c := Next(s, a), a.cpu;
    OthersSame(s, w, c, None);
    LoadChange(s, w, c);
    QueueSame(s, w, s.cpus[c].queue);
    assert |w.cpus| == |w.cpus.Keys| && |s.cpus| == |s.cpus.Keys|;
  }

  lemma ReturnStep(s: State, c: Cpu)
    requires Inv(s) && Enabled(s, Return(c))
    ensures StepsLeft(Next(s, Return(c))) == StepsLeft(s) - 1
  {
    hide Inv, StepsLeft, Deliver, QueueLoad;
    var w, r := Next(s, Return(c)), s.cpus[c].stage.request;
    CountdownZero(s, c, r);
    forall d | d in s.cpus && d != c
      ensures r !in s.cpus[d].queue && !(s.cpus[d].stage.Posting? && s.cpus[d].stage.request == r)
    {
      assert !Holds(s, d, r);
      Referred(s, d);
      Referred(s, c);
    }
    OthersSame(s, w, c, Some(r));
    LoadChange(s, w, c);
    assert !Holds(s, c, r);
    Referred(s, c);
    QueueSame(s, w, s.cpus[c].queue);
  }

  lemma PushStep(s: State, c: Cpu)
    requires Inv(s) && Enabled(s, Push(c))
    ensures StepsLeft(Next(s, Push(c))) == StepsLeft(s) - 1
  {
    hide Inv, StepsLeft, Deliver, QueueLoad;
    var w, g := Next(s, Push(c)), s.cpus[c].stage;
    var d, posted := g.incremented.value, s.cpus[c].(stage := Posting(g.request, g.todo, None));
    var v := WithCpu(s, c, posted);
    OthersSame(s, v, c, None);
    LoadChange(s, v, c);
    QueueSame(s, v, s.cpus[c].queue);
    PushOnto(v, w, d, g.request);
    assert Pages(v, g.request) == Pages(s, g.request);
  }

  lemma PushOnto(v: State, w: State, d: Cpu, r: RequestId)
    requires d in v.cpus && w == WithCpu(v, d, v.cpus[d].(queue := v.cpus[d].queue + [r]))
    ensures StepsLeft(w) == StepsLeft(v) + Pages(v, r) + 2
  {
    hide StepsLeft, Deliver, QueueLoad;
    assert w.cpus.Keys == v.cpus.Keys;
    assert |w.cpus| == |w.cpus.Keys| && |v.cpus| == |v.cpus.Keys|;
    forall e | e in v.cpus && e != d ensures CpuLoad(w, w.cpus[e]) == CpuLoad(v, v.cpus[e]) { CpuLoadSame(v, w, e); }
    LoadChange(v, w, d);
    QueueMore(v, v.cpus[d].queue, r);
    QueueSame(v, w, v.cpus[d].queue + [r]);
  }

  /** Walks of the page table and new mappings are no part of it, and an unmap adds all its steps at its beginning. */
  lemma OtherStep(s: State, a: Action)
    requires Inv(s) && Enabled(s, a) && !IsProtocol(a)
    ensures StepsLeft(Next(s, a)) == StepsLeft(s) +
      if a.BeginUnmap? then 2 * |a.range| + 3 + (|s.cpus| - 1) * (|a.range| + 4) else 0
  {
    hide Inv, StepsLeft, QueueLoad;
    var w := Next(s, a);
    if a.MapPage? {
      forall d | d in s.cpus ensures CpuLoad(w, w.cpus[d]) == CpuLoad(s, s.cpus[d]) { CpuLoadSame(s, w, d); }
      NothingChanged(s, w);
    } else {
      OthersSame(s, w, a.cpu, None);
      LoadChange(s, w, a.cpu);
      QueueSame(s, w, s.cpus[a.cpu].queue);
      assert |w.cpus| == |w.cpus.Keys| && |s.cpus| == |s.cpus.Keys|;
    }
  }

  lemma NothingChanged(s: State, w: State)
    requires w.cpus.Keys == s.cpus.Keys && forall d :: d in s.cpus ==> CpuLoad(w, w.cpus[d]) == CpuLoad(s, s.cpus[d])
    ensures StepsLeft(w) == StepsLeft(s)
  {
    hide CpuLoad;
    LoadSame(s, w, s.cpus.Keys);
  }

  /** A processor has no step left exactly if it is as after boot. */
  lemma CpuLoadZero(s: State, c: Cpu)
    requires Inv(s) && c in s.cpus
    ensures CpuLoad(s, s.cpus[c]) >= 0 && (CpuLoad(s, s.cpus[c]) == 0 <==> Booted(s.cpus[c]))
  {
    CpuFacts(s, c);
    hide Inv;
    DeliverPositive(s, c);
    hide Deliver;
  }

  lemma DeliverPositive(s: State, c: Cpu)
    requires c in s.cpus
    ensures |s.cpus| >= 1
    ensures forall n: nat, pages :: Deliver(n, pages) >= 0
  {
    assert c in s.cpus.Keys && |s.cpus| == |s.cpus.Keys|;
  }

  lemma {:induction false} LoadZero(s: State, cs: set<Cpu>)
    requires Inv(s) && cs <= s.cpus.Keys
    ensures LoadOf(s, cs) >= 0 && (LoadOf(s, cs) == 0 <==> forall c :: c in cs ==> Booted(s.cpus[c]))
    decreases |cs|
  {
    hide Inv, CpuLoad, Booted;
    if cs != {} {
      var c :| c in cs;
      LoadSplit(s, cs, c);
      LoadZero(s, cs - {c});
      CpuLoadZero(s, c);
      assert forall d :: d in cs ==> d == c || d in cs - {c};
    }
  }

  ghost function ProtocolSteps(actions: seq<Action>): nat {
    if actions == [] then 0
    else ProtocolSteps(actions[..|actions| - 1]) + if IsProtocol(actions[|actions| - 1]) then 1 else 0
  }

  /**
   However the processors' steps interleave, while no further unmap begins the protocol takes exactly the steps it has
   left, and it is at rest when it has taken them.
   */
  lemma {:induction false} ExactlySoManySteps(states: seq<State>, actions: seq<Action>, i: nat, j: nat)
    requires Run(states, actions) && |states| == |actions| + 1 && i <= j < |states|
    requires forall k :: i <= k < j ==> !actions[k].BeginUnmap?
    ensures StepsLeft(states[j]) + ProtocolSteps(actions[i..j]) == StepsLeft(states[i])
    ensures StepsLeft(states[j]) >= 0 && (StepsLeft(states[j]) == 0 <==> AtRest(states[j]))
    decreases j - i
  {
    hide Inv, Run, Next, Enabled;
    RunKeeps(states, actions, j);
    LoadZero(states[j], states[j].cpus.Keys);
    hide LoadOf;
    if i < j {
      var s, a := states[j - 1], actions[j - 1];
      ExactlySoManySteps(states, actions, i, j - 1);
      RunStep(states, actions, j - 1);
      assert actions[i..j][..j - i - 1] == actions[i..j - 1];
      if IsProtocol(a) { OneStep(s, a); } else { OtherStep(s, a); }
    }
  }

  lemma RunStep(states: seq<State>, actions: seq<Action>, k: nat)
    requires Run(states, actions) && k < |actions|
    ensures |states| == |actions| + 1 && Inv(states[k]) && Enabled(states[k], actions[k])
    ensures states[k + 1] == Next(states[k], actions[k])
  {
    hide Inv, Coherent;
    RunKeeps(states, actions, k);
  }
}
