/** Each change the scheduler makes to its state keeps the invariant. */
module SchedulerSteps {
  import opened Common
  import opened DistinctLists
  import opened SchedulerState

  // ---------- framing ----------

  /** Nothing that matters for thread `u` differs between `k` and `w`. */
  ghost predicate SameFor(k: Kernel, w: Kernel, hole: Option<Cpu>, u: Tid)
    requires u in k.threads
  {
    var x := k.threads[u];
    && u in w.threads && w.threads[u] == x
    && SameProcess(k, w, x.owner)
    && (Gone(w, u) <==> Gone(k, u)) && (u in w.ready <==> u in k.ready)
    && (Current(w, u) <==> Current(k, u)) && (AtHole(w, hole, u) <==> AtHole(k, hole, u))
    && (x.blocker.Some? && x.blocker.value in k.blockers ==>
        var b := x.blocker.value;
        b in w.blockers && w.blockers[b] == k.blockers[b] && (b in w.sleeping <==> b in k.sleeping))
  }

  lemma ThreadFrame(k: Kernel, w: Kernel, hole: Option<Cpu>, u: Tid)
    requires u in k.threads && ThreadOk(k, hole, u) && SameFor(k, w, hole, u)
    ensures ThreadOk(w, hole, u)
  {
  }

  ghost predicate SameProcess(k: Kernel, w: Kernel, p: Pid) {
    p in k.processes ==> p in w.processes && w.processes[p].(aliveThreads := 0) == k.processes[p].(aliveThreads := 0)
  }

  /** Thread `t` counts as alive for its owner in `w` exactly when it does in `k`. */
  ghost predicate SameLife(k: Kernel, w: Kernel, t: Tid)
    requires t in k.threads && t in w.threads
  {
    && w.threads[t].owner == k.threads[t].owner && w.threads[t].idle == k.threads[t].idle
    && (w.threads[t].state == Undefined <==> k.threads[t].state == Undefined) && (Gone(w, t) <==> Gone(k, t))
  }

  lemma CountedSame(k: Kernel, w: Kernel)
    requires Counted(k) && w.processes == k.processes && w.threads.Keys == k.threads.Keys
    requires forall t :: t in k.threads ==> SameLife(k, w, t)
    ensures Counted(w)
  {
    forall p | p in w.processes ensures ProcessOk(w, p) {
      assert ProcessOk(k, p);
      forall t ensures t in Live(w, p) <==> t in Live(k, p) { if t in k.threads { assert SameLife(k, w, t); } }
      assert Live(w, p) == Live(k, p);
    }
  }

  lemma CpusFrame(k: Kernel, w: Kernel)
    requires Cpus(k) && w.running == k.running && w.idle == k.idle
    requires forall t :: t in k.threads ==> t in w.threads && w.threads[t].idle == k.threads[t].idle
    requires forall t :: t in k.threads && k.threads[t].idle ==> w.threads[t] == k.threads[t]
    requires forall p :: p in k.processes && k.processes[p].idle ==> p in w.processes && w.processes[p].idle
    ensures Cpus(w)
  {
    forall c | c in w.running ensures CpuOk(w, c) { assert CpuOk(k, c); }
    forall c | c in w.idle ensures IdleOk(w, c) { assert IdleOk(k, c); }
  }

  lemma KillersFrame(k: Kernel, w: Kernel)
    requires OneKiller(k)
    requires forall t :: Killer(w, t) ==> Killer(k, t) && w.threads[t].owner == k.threads[t].owner
    ensures OneKiller(w)
  {
  }

  lemma ListsFrame(k: Kernel, w: Kernel)
    requires Lists(k) && w.ready == k.ready && w.sleeping == k.sleeping && w.dead == k.dead && w.toFree == k.toFree
    requires forall t :: t in k.threads ==> t in w.threads && w.threads[t].idle == k.threads[t].idle
    requires forall b :: SleeperOk(k, b) ==> SleeperOk(w, b) && w.blockers[b].wakeTime == k.blockers[b].wakeTime
    ensures Lists(w)
  {
    hide NoDuplicates, ByWakeTime;
    SameWakeTimes(k.blockers, w.blockers, w.sleeping);
  }

  lemma ThreadsFrame(k: Kernel, w: Kernel, hole: Option<Cpu>)
    requires Threads(k, hole) && forall t :: t in w.threads && !w.threads[t].idle ==>
      ThreadOk(w, hole, t) || (t in k.threads && !k.threads[t].idle && SameFor(k, w, hole, t))
    ensures Threads(w, hole)
  {
    forall t | t in w.threads && !w.threads[t].idle ensures ThreadOk(w, hole, t) {
      if !ThreadOk(w, hole, t) { ThreadFrame(k, w, hole, t); }
    }
  }

  // ---------- resolving a blocker ----------

  function Resolved(b: Blocker, r: Result): Blocker {
    if b.result == Pending then b.(result := r, shouldBlock := false) else b
  }

  /** A blocked thread's blocker is resolved and the thread made ready. */
  ghost function Woken(k: Kernel, t: Tid, b: Bid, r: Result): Kernel
    requires t in k.threads && b in k.blockers
  {
    k.(blockers := k.blockers[b := Resolved(k.blockers[b], r)],
       threads := k.threads[t := k.threads[t].(blocker := None, state := Ready)],
       ready := k.ready + [t], sleeping := Without(k.sleeping, b))
  }

  ghost predicate CanWake(k: Kernel, hole: Option<Cpu>, t: Tid, b: Bid) {
    && t in k.threads && !k.threads[t].idle && ThreadOk(k, hole, t) && HasBlocker(k, t, b)
    && k.threads[t].state == Blocked && !Gone(k, t) && !Current(k, t)
  }

  lemma WokenThreads(k: Kernel, hole: Option<Cpu>, t: Tid, b: Bid, r: Result)
    requires Threads(k, hole) && CanWake(k, hole, t, b) && r != Pending
    ensures Threads(Woken(k, t, b, r), hole)
  {
    var w := Woken(k, t, b, r);
    WithoutElements(k.sleeping, b);
    assert ThreadOk(w, hole, t);
    forall u | u in w.threads && !w.threads[u].idle && u != t ensures SameFor(k, w, hole, u) {
      assert ThreadOk(k, hole, u);
    }
    ThreadsFrame(k, w, hole);
  }

  lemma WokenLists(k: Kernel, hole: Option<Cpu>, t: Tid, b: Bid, r: Result)
    requires Lists(k) && CanWake(k, hole, t, b) && r != Pending
    ensures Lists(Woken(k, t, b, r))
  {
    hide NoDuplicates, ByWakeTime;
    var w := Woken(k, t, b, r);
    WithoutElements(k.sleeping, b);
    WithoutOrder(k.blockers, k.sleeping, b);
    SameWakeTimes(k.blockers, w.blockers, w.sleeping);
    AppendDistinct(k.ready, t);
    forall c | c in w.sleeping ensures SleeperOk(w, c) { assert SleeperOk(k, c); }
  }

  lemma ResolvedBlockers(k: Kernel, w: Kernel, b: Bid, r: Result)
    requires Blockers(k) && b in k.blockers && r != Pending && w.blockers == k.blockers[b := Resolved(k.blockers[b], r)]
    requires forall t :: t in k.threads ==> t in w.threads && w.threads[t].idle == k.threads[t].idle
    ensures Blockers(w)
  {
    forall c | c in w.blockers ensures BlockerOk(w, w.blockers[c]) { assert BlockerOk(k, k.blockers[c]); }
    forall c, d | PendingFor(w, c) && PendingFor(w, d) && w.blockers[c].thread == w.blockers[d].thread ensures c == d {
      assert PendingFor(k, c) && PendingFor(k, d);
    }
  }

  /** Waking a blocked thread keeps the invariant. */
  lemma WakeKeeps(k: Kernel, hole: Option<Cpu>, t: Tid, b: Bid, r: Result)
    requires Inv(k, hole) && CanWake(k, hole, t, b) && r != Pending
    ensures Inv(Woken(k, t, b, r), hole)
  {
    hide Threads, Blockers, Lists, Cpus, OneKiller, Counted;
    var w := Woken(k, t, b, r);
    WokenThreads(k, hole, t, b, r);
    WokenLists(k, hole, t, b, r);
    ResolvedBlockers(k, w, b, r);
    CpusFrame(k, w);
    KillersFrame(k, w);
    CountedSame(k, w);
  }

  ghost function ResolvedIn(k: Kernel, b: Bid, r: Result): Kernel
    requires b in k.blockers
  {
    k.(blockers := k.blockers[b := Resolved(k.blockers[b], r)])
  }

  /** Resolving the blocker of a thread that is not blocked keeps the invariant. */
  lemma ResolveKeeps(k: Kernel, hole: Option<Cpu>, b: Bid, r: Result)
    requires Inv(k, hole) && b in k.blockers && r != Pending
    requires k.blockers[b].thread in k.threads && k.threads[k.blockers[b].thread].state != Blocked
    ensures Inv(ResolvedIn(k, b, r), hole)
  {
    hide Threads, Blockers, Lists, Cpus, OneKiller, Counted;
    var w := ResolvedIn(k, b, r);
    ResolvedThreads(k, hole, b, r);
    ResolvedBlockers(k, w, b, r);
    ListsFrame(k, w);
    CpusFrame(k, w);
    KillersFrame(k, w);
    CountedSame(k, w);
  }

  lemma ResolvedThreads(k: Kernel, hole: Option<Cpu>, b: Bid, r: Result)
    requires Threads(k, hole) && b in k.blockers
    requires k.blockers[b].thread in k.threads && k.threads[k.blockers[b].thread].state != Blocked
    ensures Threads(ResolvedIn(k, b, r), hole)
  {
    var w := ResolvedIn(k, b, r);
    forall u | u in w.threads && !w.threads[u].idle ensures ThreadOk(w, hole, u) {
      assert ThreadOk(k, hole, u);
      if k.threads[u].blocker != Some(b) { ThreadFrame(k, w, hole, u); }
    }
  }

  // ---------- one thread's own fields ----------

  ghost function WithThread(k: Kernel, t: Tid, x: Thread): Kernel {
    k.(threads := k.threads[t := x])
  }

  /** The new record keeps what others rely on. */
  ghost predicate Compatible(was: Thread, x: Thread) {
    && x.owner == was.owner && x.idle == was.idle && x.killAll == was.killAll
    && (x.state == Undefined <==> was.state == Undefined)
    && (was.state == Blocked ==> x.state == Blocked && x.blocker == was.blocker)
  }

  lemma RecordKeeps(k: Kernel, hole: Option<Cpu>, t: Tid, x: Thread)
    requires Inv(k, hole) && t in k.threads && !k.threads[t].idle && Compatible(k.threads[t], x)
    requires ThreadOk(WithThread(k, t, x), hole, t)
    ensures Inv(WithThread(k, t, x), hole)
  {
    hide Threads, Blockers, Lists, Cpus, OneKiller, Counted;
    var w := WithThread(k, t, x);
    RecordThreads(k, hole, t, x);
    RecordBlockers(k, t, x);
    ListsFrame(k, w);
    CpusFrame(k, w);
    KillersFrame(k, w);
    CountedSame(k, w);
  }

  lemma RecordThreads(k: Kernel, hole: Option<Cpu>, t: Tid, x: Thread)
    requires Threads(k, hole) && t in k.threads && !k.threads[t].idle && ThreadOk(WithThread(k, t, x), hole, t)
    ensures Threads(WithThread(k, t, x), hole)
  {
    var w := WithThread(k, t, x);
    forall u | u in w.threads && !w.threads[u].idle && u != t ensures SameFor(k, w, hole, u) { }
    ThreadsFrame(k, w, hole);
  }

  lemma RecordBlockers(k: Kernel, t: Tid, x: Thread)
    requires Blockers(k) && t in k.threads && Compatible(k.threads[t], x)
    ensures Blockers(WithThread(k, t, x))
  {
    var w := WithThread(k, t, x);
    forall b | b in w.blockers ensures BlockerOk(w, w.blockers[b]) { assert BlockerOk(k, k.blockers[b]); }
    forall c, d | PendingFor(w, c) && PendingFor(w, d) && w.blockers[c].thread == w.blockers[d].thread ensures c == d {
      assert PendingFor(k, c) && PendingFor(k, d);
    }
  }

  // ---------- creating ----------

  const NEW_PROCESS := Process(false, true, 0, false)

  function NewThread(p: Pid): Thread {
    Thread(p, false, Undefined, false, None, false, false, false)
  }

  lemma AddProcessKeeps(k: Kernel, hole: Option<Cpu>, p: Pid)
    requires Inv(k, hole) && p !in k.processes
    ensures Inv(k.(processes := k.processes[p := NEW_PROCESS]), hole)
  {
    hide Threads, Blockers, Lists, Cpus, OneKiller, Counted;
    var w := k.(processes := k.processes[p := NEW_PROCESS]);
    AddedProcess(k, hole, p);
    RecordBlockersSame(k, w);
    ListsFrame(k, w);
    CpusFrame(k, w);
    KillersFrame(k, w);
  }

  lemma AddedProcess(k: Kernel, hole: Option<Cpu>, p: Pid)
    requires Threads(k, hole) && Counted(k) && p !in k.processes
    ensures var w := k.(processes := k.processes[p := NEW_PROCESS]); Threads(w, hole) && Counted(w)
  {
    var w := k.(processes := k.processes[p := NEW_PROCESS]);
    forall u | u in w.threads && !w.threads[u].idle ensures SameFor(k, w, hole, u) && w.threads[u].owner != p {
      assert ThreadOk(k, hole, u);
    }
    ThreadsFrame(k, w, hole);
    forall q | q in w.processes ensures ProcessOk(w, q) {
      assert q != p ==> ProcessOk(k, q);
      assert Live(w, q) == Live(k, q);
      if q == p { assert Live(w, p) == {}; }
    }
  }

  lemma RecordBlockersSame(k: Kernel, w: Kernel)
    requires Blockers(k) && w.blockers == k.blockers
    requires forall t :: t in k.threads ==> t in w.threads && w.threads[t].idle == k.threads[t].idle
    ensures Blockers(w)
  {
    forall b | b in w.blockers ensures BlockerOk(w, w.blockers[b]) { assert BlockerOk(k, k.blockers[b]); }
    forall c, d | PendingFor(w, c) && PendingFor(w, d) && w.blockers[c].thread == w.blockers[d].thread ensures c == d {
      assert PendingFor(k, c) && PendingFor(k, d);
    }
  }

  lemma AddThreadKeeps(k: Kernel, hole: Option<Cpu>, t: Tid, p: Pid)
    requires Inv(k, hole) && t !in k.threads && p in k.processes && !k.processes[p].idle
    ensures Inv(WithThread(k, t, NewThread(p)), hole)
  {
    hide Threads, Blockers, Lists, Cpus, OneKiller, Counted;
    AddedIsNowhere(k, hole, t);
    var w := WithThread(k, t, NewThread(p));
    AddedThread(k, hole, t, p);
    RecordBlockersSame(k, w);
    ListsFrame(k, w);
    CpusFrame(k, w);
    KillersFrame(k, w);
  }

  lemma AddedThread(k: Kernel, hole: Option<Cpu>, t: Tid, p: Pid)
    requires Threads(k, hole) && Counted(k) && t !in k.threads && p in k.processes && !k.processes[p].idle
    requires t !in k.ready && !Gone(k, t) && !Current(k, t)
    ensures var w := WithThread(k, t, NewThread(p)); Threads(w, hole) && Counted(w)
  {
    hide Counted;
    var w := WithThread(k, t, NewThread(p));
    AddedCount(k, t, p);
    assert ThreadOk(w, hole, t);
    forall u | u in w.threads && !w.threads[u].idle && u != t ensures SameFor(k, w, hole, u) { }
    ThreadsFrame(k, w, hole);
  }

  lemma AddedCount(k: Kernel, t: Tid, p: Pid)
    requires Counted(k) && t !in k.threads
    ensures Counted(WithThread(k, t, NewThread(p)))
  {
    var w := WithThread(k, t, NewThread(p));
    forall q | q in w.processes ensures ProcessOk(w, q) {
      assert ProcessOk(k, q);
      assert Live(w, q) == Live(k, q);
    }
  }

  lemma AddedIsNowhere(k: Kernel, hole: Option<Cpu>, t: Tid)
    requires Lists(k) && Cpus(k) && t !in k.threads
    ensures t !in k.ready && !Gone(k, t) && !Current(k, t)
  {
    forall c | c in k.running ensures k.running[c] != t { assert CpuOk(k, c); }
  }

  ghost function WithBlocker(k: Kernel, b: Bid, t: Tid, kind: Kind, wakeTime: nat): Kernel {
    k.(blockers := k.blockers[b := Blocker(t, kind, wakeTime, Pending, true)])
  }

  lemma AddBlockerKeeps(k: Kernel, hole: Option<Cpu>, b: Bid, t: Tid, kind: Kind, wakeTime: nat)
    requires Inv(k, hole) && b !in k.blockers && t in k.threads && !k.threads[t].idle
    requires forall a :: PendingFor(k, a) ==> k.blockers[a].thread != t
    ensures Inv(WithBlocker(k, b, t, kind, wakeTime), hole)
  {
    hide Threads, Blockers, Lists, Cpus, OneKiller, Counted;
    var w := WithBlocker(k, b, t, kind, wakeTime);
    AddedBlocker(k, hole, b, t, kind, wakeTime);
    ListsFrame(k, w);
    CpusFrame(k, w);
    KillersFrame(k, w);
    CountedSame(k, w);
  }

  lemma AddedBlocker(k: Kernel, hole: Option<Cpu>, b: Bid, t: Tid, kind: Kind, wakeTime: nat)
    requires Threads(k, hole) && Blockers(k) && b !in k.blockers && t in k.threads && !k.threads[t].idle
    requires forall a :: PendingFor(k, a) ==> k.blockers[a].thread != t
    ensures var w := WithBlocker(k, b, t, kind, wakeTime); Threads(w, hole) && Blockers(w)
  {
    var w := WithBlocker(k, b, t, kind, wakeTime);
    forall u | u in w.threads && !w.threads[u].idle ensures SameFor(k, w, hole, u) { assert ThreadOk(k, hole, u); }
    ThreadsFrame(k, w, hole);
    forall c | c in w.blockers ensures BlockerOk(w, w.blockers[c]) { if c != b { assert BlockerOk(k, k.blockers[c]); } }
    forall c, d | PendingFor(w, c) && PendingFor(w, d) && w.blockers[c].thread == w.blockers[d].thread ensures c == d {
      assert c != b ==> PendingFor(k, c);
      assert d != b ==> PendingFor(k, d);
    }
  }

  // ---------- entering the ready list for the first time ----------

  ghost function WithAlive(k: Kernel, p: Pid, n: int): Kernel
    requires p in k.processes
  {
    k.(processes := k.processes[p := k.processes[p].(aliveThreads := k.processes[p].aliveThreads + n)])
  }

  ghost function Enrolled(k: Kernel, t: Tid): Kernel
    requires t in k.threads && k.threads[t].owner in k.processes
  {
    WithAlive(k.(threads := k.threads[t := k.threads[t].(state := Ready)], ready := k.ready + [t]),
      k.threads[t].owner, 1)
  }

  lemma EnrollKeeps(k: Kernel, hole: Option<Cpu>, t: Tid)
    requires Inv(k, hole) && t in k.threads && !k.threads[t].idle && k.threads[t].state == Undefined
    ensures k.threads[t].owner in k.processes && Inv(Enrolled(k, t), hole)
  {
    assert ThreadOk(k, hole, t);
    hide Threads, Blockers, Lists, Cpus, OneKiller, Counted, ThreadOk;
    var w := Enrolled(k, t);
    EnrolledThreads(k, hole, t);
    EnrolledLists(k, hole, t);
    RecordBlockersSame(k, w);
    CpusFrame(k, w);
    KillersFrame(k, w);
    EnrolledCount(k, hole, t);
  }

  ghost predicate CanEnroll(k: Kernel, hole: Option<Cpu>, t: Tid) {
    t in k.threads && !k.threads[t].idle && k.threads[t].state == Undefined && ThreadOk(k, hole, t)
  }

  lemma EnrolledThreads(k: Kernel, hole: Option<Cpu>, t: Tid)
    requires Threads(k, hole) && CanEnroll(k, hole, t)
    ensures Threads(Enrolled(k, t), hole)
  {
    var w := Enrolled(k, t);
    assert ThreadOk(w, hole, t);
    forall u | u in w.threads && !w.threads[u].idle && u != t ensures SameFor(k, w, hole, u) { }
    ThreadsFrame(k, w, hole);
  }

  lemma EnrolledLists(k: Kernel, hole: Option<Cpu>, t: Tid)
    requires Lists(k) && CanEnroll(k, hole, t)
    ensures Lists(Enrolled(k, t))
  {
    hide NoDuplicates, ByWakeTime;
    var w := Enrolled(k, t);
    AppendDistinct(k.ready, t);
    SameWakeTimes(k.blockers, w.blockers, w.sleeping);
    forall c | c in w.sleeping ensures SleeperOk(w, c) { assert SleeperOk(k, c); }
  }

  lemma EnrolledCount(k: Kernel, hole: Option<Cpu>, t: Tid)
    requires Counted(k) && CanEnroll(k, hole, t)
    ensures Counted(Enrolled(k, t))
  {
    hide Counted;
    assert !Gone(k, t);
    EnrolledLive(k, t);
  }

  lemma EnrolledLive(k: Kernel, t: Tid)
    requires Counted(k) && t in k.threads && !k.threads[t].idle && k.threads[t].state == Undefined && !Gone(k, t)
    requires k.threads[t].owner in k.processes
    ensures Counted(Enrolled(k, t))
  {
    var w, p := Enrolled(k, t), k.threads[t].owner;
    assert t !in Live(k, p);
    forall q | q in w.processes ensures ProcessOk(w, q) {
      assert ProcessOk(k, q);
      LiveEnrolled(k, t, q);
      hide Live;
    }
  }

  lemma LiveEnrolled(k: Kernel, t: Tid, q: Pid)
    requires t in k.threads && !k.threads[t].idle && k.threads[t].state == Undefined && !Gone(k, t)
    requires k.threads[t].owner in k.processes
    ensures Live(Enrolled(k, t), q) == if q == k.threads[t].owner then Live(k, q) + {t} else Live(k, q)
  {
    var w := Enrolled(k, t);
    forall u ensures u in Live(w, q) <==> u in (if q == k.threads[t].owner then Live(k, q) + {t} else Live(k, q)) {
      assert Gone(w, u) <==> Gone(k, u);
    }
  }

  // ---------- handing a thread over for freeing ----------

  /** `t`, with its final record, leaves every list for the dead or the freeing list. */
  ghost function HandedOver(k: Kernel, t: Tid, x: Thread, deferred: bool): Kernel
    requires t in k.threads && k.threads[t].owner in k.processes
  {
    WithAlive(
      k.(threads := k.threads[t := x], ready := Without(k.ready, t),
         sleeping := if x.blocker.Some? then Without(k.sleeping, x.blocker.value) else k.sleeping,
         dead := if deferred then k.dead + [t] else k.dead,
         toFree := if deferred then k.toFree else k.toFree + [t]),
      k.threads[t].owner, if k.threads[t].state == Undefined then 0 else -1)
  }

  ghost predicate CanHandOver(k: Kernel, hole: Option<Cpu>, t: Tid, x: Thread, deferred: bool) {
    && t in k.threads && !k.threads[t].idle && !Gone(k, t) && ThreadOk(k, hole, t)
    && x.owner == k.threads[t].owner && !x.idle && x.killAll == k.threads[t].killAll &&
      x.blocker == k.threads[t].blocker
    && x.state != Undefined && ThreadOk(HandedOver(k, t, x, deferred), hole, t)
  }

  lemma HandedThreads(k: Kernel, hole: Option<Cpu>, t: Tid, x: Thread, deferred: bool)
    requires Threads(k, hole) && CanHandOver(k, hole, t, x, deferred)
    ensures Threads(HandedOver(k, t, x, deferred), hole)
  {
    var w := HandedOver(k, t, x, deferred);
    WithoutElements(k.ready, t);
    if x.blocker.Some? { WithoutElements(k.sleeping, x.blocker.value); }
    forall u | u in w.threads && !w.threads[u].idle && u != t ensures SameFor(k, w, hole, u) {
      assert ThreadOk(k, hole, u);
    }
    ThreadsFrame(k, w, hole);
  }

  lemma HandedLists(k: Kernel, hole: Option<Cpu>, t: Tid, x: Thread, deferred: bool)
    requires Lists(k) && CanHandOver(k, hole, t, x, deferred)
    ensures Lists(HandedOver(k, t, x, deferred))
  {
    hide NoDuplicates, ByWakeTime;
    var w := HandedOver(k, t, x, deferred);
    WithoutElements(k.ready, t);
    InsertDistinct(k.dead, k.toFree, t);
    AppendLast(k.dead, k.toFree, t);
    if x.blocker.Some? {
      WithoutElements(k.sleeping, x.blocker.value);
      WithoutOrder(k.blockers, k.sleeping, x.blocker.value);
    }
    forall c | c in w.sleeping ensures SleeperOk(w, c) { assert SleeperOk(k, c); }
  }

  lemma HandedCount(k: Kernel, hole: Option<Cpu>, t: Tid, x: Thread, deferred: bool)
    requires Counted(k) && CanHandOver(k, hole, t, x, deferred)
    ensures Counted(HandedOver(k, t, x, deferred))
  {
    var w, p := HandedOver(k, t, x, deferred), k.threads[t].owner;
    forall q | q in w.processes ensures ProcessOk(w, q) {
      assert ProcessOk(k, q);
      assert Live(w, q) == Live(k, q) - {t};
    }
  }

  /** A thread leaves for freeing exactly once, and the counter follows. */
  lemma HandOverKeeps(k: Kernel, hole: Option<Cpu>, t: Tid, x: Thread, deferred: bool)
    requires Inv(k, hole) && CanHandOver(k, hole, t, x, deferred)
    ensures Inv(HandedOver(k, t, x, deferred), hole)
  {
    hide Threads, Blockers, Lists, Cpus, OneKiller, Counted;
    var w := HandedOver(k, t, x, deferred);
    HandedThreads(k, hole, t, x, deferred);
    HandedLists(k, hole, t, x, deferred);
    HandedCount(k, hole, t, x, deferred);
    RecordBlockersSame(k, w);
    CpusFrame(k, w);
    KillersFrame(k, w);
  }

  /** A registered thread that is not yet gone is counted: decrementing never meets zero. */
  lemma AliveIsCounted(k: Kernel, hole: Option<Cpu>, t: Tid)
    requires Inv(k, hole) && t in k.threads && !k.threads[t].idle && k.threads[t].state != Undefined && !Gone(k, t)
    ensures k.threads[t].owner in k.processes && k.processes[k.threads[t].owner].aliveThreads > 0
  {
    assert ThreadOk(k, hole, t);
    assert ProcessOk(k, k.threads[t].owner);
    assert t in Live(k, k.threads[t].owner);
  }

  /** The dead thread at place `i` moves on to the freeing list. */
  ghost function Released(k: Kernel, i: nat): Kernel
    requires i < |k.dead|
  {
    k.(dead := k.dead[..i] + k.dead[i + 1..], toFree := k.toFree + [k.dead[i]])
  }

  lemma ReleaseKeeps(k: Kernel, hole: Option<Cpu>, i: nat)
    requires Inv(k, hole) && i < |k.dead|
    ensures Inv(Released(k, i), hole)
  {
    hide Threads, Blockers, Lists, Cpus, OneKiller, Counted;
    var w := Released(k, i);
    ReleasedGone(k, i);
    ReleasedLists(k, i);
    ReleasedThreads(k, hole, i);
    RecordBlockersSame(k, w);
    CpusFrame(k, w);
    KillersFrame(k, w);
    CountedSame(k, w);
  }

  lemma ReleasedGone(k: Kernel, i: nat)
    requires i < |k.dead|
    ensures forall u :: Gone(Released(k, i), u) <==> Gone(k, u)
  {
    assert k.dead == k.dead[..i] + [k.dead[i]] + k.dead[i + 1..];
  }

  lemma ReleasedThreads(k: Kernel, hole: Option<Cpu>, i: nat)
    requires Threads(k, hole) && i < |k.dead|
    ensures Threads(Released(k, i), hole)
  {
    var w := Released(k, i);
    ReleasedGone(k, i);
    forall u | u in w.threads && !w.threads[u].idle ensures SameFor(k, w, hole, u) { }
    ThreadsFrame(k, w, hole);
  }

  lemma ReleasedLists(k: Kernel, i: nat)
    requires Lists(k) && i < |k.dead|
    ensures Lists(Released(k, i))
  {
    var w := Released(k, i);
    var s := k.dead + k.toFree;
    RemoveDistinct(s, i);
    AppendDistinct(s[..i] + s[i + 1..], s[i]);
    assert s[..i] + s[i + 1..] + [s[i]] == w.dead + w.toFree;
    ReleasedGone(k, i);
    hide NoDuplicates, ByWakeTime;
    forall c | c in w.sleeping ensures SleeperOk(w, c) { assert SleeperOk(k, c); }
  }

  // ---------- blocking the current thread ----------

  ghost function BlockedNow(k: Kernel, t: Tid, b: Bid): Kernel
    requires t in k.threads && b in k.blockers && forall c :: c in k.sleeping ==> c in k.blockers
  {
    k.(threads := k.threads[t := k.threads[t].(state := Blocked, wantsBlock := false)],
       sleeping := if k.blockers[b].kind == Sleep then Inserted(k.blockers, k.sleeping, b) else k.sleeping)
  }

  ghost predicate CanBlock(k: Kernel, c: Cpu, t: Tid, b: Bid) {
    && t in k.threads && !k.threads[t].idle && AtHole(k, Some(c), t) && ThreadOk(k, Some(c), t)
    && k.threads[t].state == Running && HasBlocker(k, t, b) && k.blockers[b].result == Pending
  }

  lemma BlockedThreads(k: Kernel, c: Cpu, t: Tid, b: Bid)
    requires Threads(k, Some(c)) && Lists(k) && CanBlock(k, c, t, b)
    ensures forall a :: a in k.sleeping ==> a in k.blockers
    ensures Threads(BlockedNow(k, t, b), Some(c))
  {
    hide NoDuplicates, ByWakeTime;
    NotAsleep(k, c, t, b);
    var w := BlockedNow(k, t, b);
    InsertedOrder(k.blockers, k.sleeping, b);
    assert ThreadOk(w, Some(c), t);
    forall u | u in w.threads && !w.threads[u].idle && u != t ensures SameFor(k, w, Some(c), u) {
      assert ThreadOk(k, Some(c), u);
    }
    hide Lists;
    ThreadsFrame(k, w, Some(c));
  }

  lemma NotAsleep(k: Kernel, c: Cpu, t: Tid, b: Bid)
    requires Lists(k) && CanBlock(k, c, t, b)
    ensures b !in k.sleeping && forall a :: a in k.sleeping ==> a in k.blockers
  {
    forall a | a in k.sleeping ensures a in k.blockers && a != b { assert SleeperOk(k, a); }
  }

  lemma BlockedLists(k: Kernel, c: Cpu, t: Tid, b: Bid)
    requires Lists(k) && CanBlock(k, c, t, b)
    ensures forall a :: a in k.sleeping ==> a in k.blockers
    ensures Lists(BlockedNow(k, t, b))
  {
    hide NoDuplicates, ByWakeTime;
    NotAsleep(k, c, t, b);
    var w := BlockedNow(k, t, b);
    InsertedOrder(k.blockers, k.sleeping, b);
    forall a | a in w.sleeping ensures SleeperOk(w, a) { if a != b { assert SleeperOk(k, a); } }
  }

  /** The current thread goes to sleep on a blocker nobody has resolved. */
  lemma BlockKeeps(k: Kernel, c: Cpu, t: Tid, b: Bid)
    requires Inv(k, Some(c)) && CanBlock(k, c, t, b)
    ensures forall a :: a in k.sleeping ==> a in k.blockers
    ensures Inv(BlockedNow(k, t, b), Some(c))
  {
    hide Threads, Blockers, Lists, Cpus, OneKiller, Counted;
    BlockedThreads(k, c, t, b);
    BlockedLists(k, c, t, b);
    var w := BlockedNow(k, t, b);
    RecordBlockersSame(k, w);
    CpusFrame(k, w);
    KillersFrame(k, w);
    CountedSame(k, w);
  }

  // ---------- exiting and killing a process ----------

  ghost function Exited(k: Kernel, p: Pid): Kernel
    requires p in k.processes
  {
    k.(processes := k.processes[p := k.processes[p].(alive := false)])
  }

  ghost function Reaped(k: Kernel, p: Pid): Kernel
    requires p in k.processes
  {
    k.(processes := k.processes[p := k.processes[p].(reaped := true)])
  }

  lemma ExitedThreads(k: Kernel, hole: Option<Cpu>, p: Pid)
    requires Threads(k, hole) && Counted(k) && p in k.processes
    ensures Threads(Exited(k, p), hole) && Counted(Exited(k, p))
  {
    var w := Exited(k, p);
    forall u | u in w.threads && !w.threads[u].idle ensures ThreadOk(w, hole, u) { assert ThreadOk(k, hole, u); }
    forall q | q in w.processes ensures ProcessOk(w, q) {
      assert ProcessOk(k, q);
      assert Live(w, q) == Live(k, q);
    }
  }

  lemma ExitKeeps(k: Kernel, hole: Option<Cpu>, p: Pid)
    requires Inv(k, hole) && p in k.processes
    ensures Inv(Exited(k, p), hole)
  {
    hide Threads, Blockers, Lists, Cpus, OneKiller, Counted;
    var w := Exited(k, p);
    ExitedThreads(k, hole, p);
    RecordBlockersSame(k, w);
    ListsFrame(k, w);
    CpusFrame(k, w);
    KillersFrame(k, w);
  }

  lemma ReapedThreads(k: Kernel, c: Cpu, t: Tid)
    requires Threads(k, Some(c)) && Counted(k) && OneKiller(k) && Killer(k, t) && !k.threads[t].idle
    requires AtHole(k, Some(c), t)
    ensures k.threads[t].owner in k.processes
    ensures var w := Reaped(k, k.threads[t].owner); Threads(w, Some(c)) && Counted(w)
  {
    assert ThreadOk(k, Some(c), t);
    var p := k.threads[t].owner;
    var w := Reaped(k, p);
    forall u | u in w.threads && !w.threads[u].idle ensures ThreadOk(w, Some(c), u) {
      assert ThreadOk(k, Some(c), u);
      assert Killer(k, u) && k.threads[u].owner == p ==> u == t;
    }
    forall q | q in w.processes ensures ProcessOk(w, q) {
      assert ProcessOk(k, q);
      assert Live(w, q) == Live(k, q);
    }
  }

  /** The killer starts on its process while it is being switched away from. */
  lemma ReapKeeps(k: Kernel, c: Cpu, t: Tid)
    requires Inv(k, Some(c)) && Killer(k, t) && !k.threads[t].idle && AtHole(k, Some(c), t)
    ensures k.threads[t].owner in k.processes && Inv(Reaped(k, k.threads[t].owner), Some(c))
  {
    hide Threads, Blockers, Lists, Cpus, OneKiller, Counted;
    ReapedThreads(k, c, t);
    var w := Reaped(k, k.threads[t].owner);
    RecordBlockersSame(k, w);
    ListsFrame(k, w);
    CpusFrame(k, w);
    KillersFrame(k, w);
  }

  ghost function MadeKiller(k: Kernel, t: Tid): Kernel
    requires t in k.threads && k.threads[t].owner in k.processes
  {
    WithThread(Exited(k, k.threads[t].owner), t, k.threads[t].(killAll := true, shouldDie := true))
  }

  ghost predicate CanMakeKiller(k: Kernel, hole: Option<Cpu>, t: Tid) {
    && t in k.threads && !k.threads[t].idle && k.threads[t].state != Undefined && ThreadOk(k, hole, t)
    && k.threads[t].owner in k.processes && k.processes[k.threads[t].owner].alive &&
      !k.processes[k.threads[t].owner].reaped
  }

  lemma MadeKillerThreads(k: Kernel, hole: Option<Cpu>, t: Tid)
    requires Threads(k, hole) && Counted(k) && CanMakeKiller(k, hole, t)
    ensures var w := MadeKiller(k, t); Threads(w, hole) && Counted(w)
  {
    hide Threads, Counted, ThreadOk;
    var v, w := Exited(k, k.threads[t].owner), MadeKiller(k, t);
    ExitedThreads(k, hole, k.threads[t].owner);
    MadeKillerSelf(k, hole, t);
    RecordThreads(v, hole, t, w.threads[t]);
    CountedSame(v, w);
  }

  lemma MadeKillerSelf(k: Kernel, hole: Option<Cpu>, t: Tid)
    requires CanMakeKiller(k, hole, t)
    ensures ThreadOk(MadeKiller(k, t), hole, t)
  {
  }

  lemma MadeKillerOne(k: Kernel, hole: Option<Cpu>, t: Tid)
    requires Threads(k, hole) && OneKiller(k) && CanMakeKiller(k, hole, t)
    ensures OneKiller(MadeKiller(k, t))
  {
    var w := MadeKiller(k, t);
    forall u, v | Killer(w, u) && Killer(w, v) && w.threads[u].owner == w.threads[v].owner ensures u == v {
      assert u != t ==> Killer(k, u);
      assert v != t ==> Killer(k, v);
      NotKiller(k, hole, u);
      NotKiller(k, hole, v);
    }
  }

  /** The first thread to end its process becomes the one killer of it. */
  lemma KillerKeeps(k: Kernel, hole: Option<Cpu>, t: Tid)
    requires Inv(k, hole) && CanMakeKiller(k, hole, t)
    ensures Inv(MadeKiller(k, t), hole)
  {
    hide Threads, Blockers, Lists, Cpus, OneKiller, Counted;
    var w := MadeKiller(k, t);
    MadeKillerThreads(k, hole, t);
    MadeKillerOne(k, hole, t);
    RecordBlockersSame(k, w);
    ListsFrame(k, w);
    CpusFrame(k, w);
  }

  lemma NotKiller(k: Kernel, hole: Option<Cpu>, u: Tid)
    requires Threads(k, hole)
    ensures Killer(k, u) ==> k.threads[u].owner in k.processes && !k.processes[k.threads[u].owner].alive
  {
    if Killer(k, u) { assert ThreadOk(k, hole, u); }
  }

  // ---------- switching to the next thread ----------

  /** The ready list with the current thread put back if it is still running and not the idle thread. */
  ghost function Requeued(k: Kernel, c: Cpu): seq<Tid>
    requires c in k.running && k.running[c] in k.threads
  {
    var t := k.running[c];
    if k.threads[t].state == Running && !k.threads[t].idle then k.ready + [t] else k.ready
  }

  ghost function NextThread(k: Kernel, c: Cpu): Tid
    requires c in k.running && k.running[c] in k.threads && c in k.idle
  {
    var q := Requeued(k, c);
    if q == [] then k.idle[c] else q[0]
  }

  ghost function Switched(k: Kernel, c: Cpu): Kernel
    requires c in k.running && k.running[c] in k.threads && c in k.idle && NextThread(k, c) in k.threads
  {
    var cur, next, q := k.running[c], NextThread(k, c), Requeued(k, c);
    var rest := if q == [] then [] else q[1..];
    if next == cur then
      k.(ready := rest)
    else
      var stopped := k.threads[cur].(state := if k.threads[cur].state == Running then Ready else k.threads[cur].state);
      k.(ready := rest, running := k.running[c := next],
         threads := k.threads[cur := stopped][next := k.threads[next].(state := Running)])
  }

  /** The current thread of `c` may be left: it runs, or it is blocked, or it is dead and handed over. */
  ghost predicate Settled(k: Kernel, c: Cpu) {
    && c in k.running && k.running[c] in k.threads && c in k.idle
    && var t := k.running[c]; var x := k.threads[t];
    x.idle || (x.state == Dead && Gone(k, t)) || (
      && (x.state == Running || x.state == Blocked) && !x.wantsBlock && !Gone(k, t)
      && x.owner in k.processes && !(x.killAll && k.processes[x.owner].reaped))
  }

  lemma NoHole(k: Kernel, c: Cpu, u: Tid)
    requires u in k.threads && ThreadOk(k, Some(c), u) && !AtHole(k, Some(c), u)
    ensures ThreadOk(k, None, u)
  {
  }

  lemma RunningAfter(m: map<Cpu, Tid>, c: Cpu, next: Tid)
    requires Injective(m) && c in m && next !in m.Values
    ensures Injective(m[c := next])
    ensures forall u :: u in m[c := next].Values <==> u == next || (u in m.Values && u != m[c])
  {
    var n := m[c := next];
    forall u ensures u in n.Values <==> u == next || (u in m.Values && u != m[c]) {
      if u in m.Values && u != m[c] {
        var d :| d in m && m[d] == u;
        assert n[d] == u;
      }
      if u == next { assert n[c] == next; }
      if u in n.Values {
        var d :| d in n && n[d] == u;
        assert d != c ==> m[d] == u;
      }
    }
  }

  /** When a switch happens, the chosen thread is ready and runs nowhere: activating it cannot fail. */
  lemma NextIsReady(k: Kernel, c: Cpu)
    requires Inv(k, Some(c)) && Settled(k, c)
    ensures var cur := k.running[c]; var next := NextThread(k, c);
      && next in k.threads
      && (next == cur ==> k.ready == [] && k.threads[cur].state == Running)
      && (next != cur ==>
        k.threads[next].state == Ready && !Current(k, next) && !Gone(k, next) && (k.ready != [] ==> next == k.ready[0]))
      && (next != cur && k.ready == [] ==> next == k.idle[c])
  {
    hide Threads, Lists, Cpus, ThreadOk, Blockers, OneKiller, Counted;
    var cur, next := k.running[c], NextThread(k, c);
    HomeFacts(k, c);
    if k.ready != [] {
      assert next == k.ready[0] && next in k.ready;
      ReadyFacts(k, c, next);
    } else if next != cur {
      IdleRunsAtHome(k, c);
    }
  }

  lemma HomeFacts(k: Kernel, c: Cpu)
    requires Cpus(k) && c in k.running && c in k.idle
    ensures CpuOk(k, c) && IdleOk(k, c)
  {
  }

  lemma ReadyFacts(k: Kernel, c: Cpu, t: Tid)
    requires Threads(k, Some(c)) && Lists(k) && t in k.ready
    ensures t in k.threads && !k.threads[t].idle && k.threads[t].state == Ready && !Gone(k, t)
    ensures Current(k, t) ==> AtHole(k, Some(c), t)
  {
    assert ThreadOk(k, Some(c), t);
  }

  lemma IdleRunsAtHome(k: Kernel, c: Cpu)
    requires Cpus(k) && Lists(k) && c in k.running && c in k.idle && k.running[c] != k.idle[c]
    ensures k.idle[c] in k.threads && !Current(k, k.idle[c]) && !Gone(k, k.idle[c])
  {
    assert IdleOk(k, c);
    forall d | d in k.running ensures k.running[d] != k.idle[c] { assert CpuOk(k, d); }
  }

  ghost predicate CanSwitch(k: Kernel, c: Cpu) {
    && Settled(k, c) && NextThread(k, c) in k.threads && NextThread(k, c) != k.running[c]
    && var next := NextThread(k, c);
    && k.threads[next].state == Ready && !Current(k, next) && !Gone(k, next)
    && (k.ready != [] ==> next == k.ready[0]) && (k.ready == [] ==> next == k.idle[c])
  }

  /** What is left on the ready list once the next thread is taken off. */
  lemma ReadyAfter(k: Kernel, c: Cpu)
    requires NoDuplicates(k.ready) && CanSwitch(k, c) && (Requeued(k, c) != k.ready ==> k.running[c] !in k.ready)
    ensures var w := Switched(k, c);
      && NoDuplicates(w.ready)
      && forall u :: u in w.ready <==>
        (u in k.ready && u != NextThread(k, c)) || (u == k.running[c] && Requeued(k, c) != k.ready)
  {
    var q, cur := Requeued(k, c), k.running[c];
    if q != k.ready { AppendDistinct(k.ready, cur); }
    if q != [] { assert q == [q[0]] + q[1..]; }
  }

  lemma NotQueued(k: Kernel, c: Cpu)
    requires Threads(k, Some(c)) && Settled(k, c)
    ensures Requeued(k, c) != k.ready <==> k.threads[k.running[c]].state == Running && !k.threads[k.running[c]].idle
    ensures Requeued(k, c) != k.ready ==> k.running[c] !in k.ready
  {
    var cur := k.running[c];
    if !k.threads[cur].idle { assert ThreadOk(k, Some(c), cur); }
    assert |k.ready + [cur]| != |k.ready|;
  }

  lemma SwitchedSleeper(k: Kernel, c: Cpu, a: Bid)
    requires CanSwitch(k, c) && SleeperOk(k, a)
    ensures SleeperOk(Switched(k, c), a)
  {
  }

  lemma SwitchedLists(k: Kernel, c: Cpu)
    requires Lists(k) && Threads(k, Some(c)) && CanSwitch(k, c)
    ensures Lists(Switched(k, c))
  {
    hide ByWakeTime, NoDuplicates, Threads, Requeued;
    NotQueued(k, c);
    ReadyAfter(k, c);
    var w := Switched(k, c);
    assert forall t :: t in k.threads ==> t in w.threads && w.threads[t].idle == k.threads[t].idle;
    forall a | a in w.sleeping ensures SleeperOk(w, a) { SwitchedSleeper(k, c, a); }
    hide CanSwitch, SleeperOk;
  }

  lemma SwitchedAway(k: Kernel, c: Cpu)
    requires Threads(k, Some(c)) && NoDuplicates(k.ready) && Injective(k.running) && CanSwitch(k, c)
    requires !k.threads[k.running[c]].idle
    ensures ThreadOk(Switched(k, c), None, k.running[c])
  {
    var cur := k.running[c];
    assert ThreadOk(k, Some(c), cur);
    NotQueued(k, c);
    ReadyAfter(k, c);
    RunningAfter(k.running, c, NextThread(k, c));
    hide NoDuplicates, Injective, Threads;
  }

  lemma SwitchedTo(k: Kernel, c: Cpu)
    requires Threads(k, Some(c)) && NoDuplicates(k.ready) && Injective(k.running) && CanSwitch(k, c)
    requires !k.threads[NextThread(k, c)].idle
    ensures ThreadOk(Switched(k, c), None, NextThread(k, c))
  {
    assert ThreadOk(k, Some(c), NextThread(k, c));
    NotQueued(k, c);
    ReadyAfter(k, c);
    RunningAfter(k.running, c, NextThread(k, c));
    hide NoDuplicates, Injective, Threads;
  }

  lemma SwitchedOther(k: Kernel, c: Cpu, u: Tid)
    requires Threads(k, Some(c)) && NoDuplicates(k.ready) && Injective(k.running) && CanSwitch(k, c)
    requires u in k.threads && !k.threads[u].idle && u != k.running[c] && u != NextThread(k, c)
    ensures ThreadOk(Switched(k, c), None, u)
  {
    assert ThreadOk(k, Some(c), u);
    NoHole(k, c, u);
    NotQueued(k, c);
    ReadyAfter(k, c);
    RunningAfter(k.running, c, NextThread(k, c));
    hide NoDuplicates, Injective, Threads;
    ThreadFrame(k, Switched(k, c), None, u);
  }

  lemma SwitchedIdle(k: Kernel, c: Cpu, d: Cpu)
    requires Injective(k.idle) && CanSwitch(k, c)
    requires (k.threads[NextThread(k, c)].idle ==> NextThread(k, c) == k.idle[c])
    requires CpuOk(k, c) && d in k.idle && IdleOk(k, c) && IdleOk(k, d)
    ensures IdleOk(Switched(k, c), d)
  {
    hide Injective, Requeued;
    HomesApart(k, c, d);
  }

  lemma SwitchedCpus(k: Kernel, c: Cpu)
    requires Cpus(k) && CanSwitch(k, c) && (k.threads[NextThread(k, c)].idle ==> NextThread(k, c) == k.idle[c])
    ensures Cpus(Switched(k, c))
  {
    hide Injective, Requeued, IdleOk;
    var w, next := Switched(k, c), NextThread(k, c);
    RunningAfter(k.running, c, next);
    assert CpuOk(k, c);
    forall d | d in w.running ensures CpuOk(w, d) { assert CpuOk(k, d); }
    forall d | d in w.idle ensures IdleOk(w, d) { SwitchedIdle(k, c, d); }
  }

  lemma HomesApart(k: Kernel, c: Cpu, d: Cpu)
    requires Injective(k.idle) && c in k.idle && d in k.idle
    ensures k.idle[c] == k.idle[d] ==> c == d
  {
  }

  lemma SwitchedThreads(k: Kernel, c: Cpu)
    requires Threads(k, Some(c)) && Lists(k) && Cpus(k) && CanSwitch(k, c)
    ensures Threads(Switched(k, c), None)
  {
    hide NoDuplicates, Injective, ThreadOk;
    var w := Switched(k, c);
    forall u | u in w.threads && !w.threads[u].idle ensures ThreadOk(w, None, u) {
      if u == k.running[c] {
        SwitchedAway(k, c);
      } else if u == NextThread(k, c) {
        SwitchedTo(k, c);
      } else {
        SwitchedOther(k, c, u);
      }
    }
  }

  lemma StayThreads(k: Kernel, c: Cpu)
    requires Threads(k, Some(c)) && Settled(k, c) && k.threads[k.running[c]].state == Running
    ensures Threads(k, None)
  {
    forall u | u in k.threads && !k.threads[u].idle ensures ThreadOk(k, None, u) {
      assert ThreadOk(k, Some(c), u);
      if u != k.running[c] { NoHole(k, c, u); }
    }
  }

  lemma StayReady(k: Kernel, c: Cpu)
    requires c in k.running && k.running[c] in k.threads && c in k.idle && k.ready == []
    requires NextThread(k, c) == k.running[c]
    ensures Switched(k, c) == k
  {
    assert [k.running[c]][1..] == [];
  }

  /** Leaving the current thread for the next ends the locked section with the invariant intact. */
  lemma SwitchKeeps(k: Kernel, c: Cpu)
    requires Inv(k, Some(c)) && Settled(k, c)
    ensures NextThread(k, c) in k.threads
    ensures NextThread(k, c) != k.running[c] ==> k.threads[NextThread(k, c)].state == Ready
    ensures Inv(Switched(k, c), None)
  {
    NextIsReady(k, c);
    var cur, next := k.running[c], NextThread(k, c);
    if next == cur {
      StayReady(k, c);
      StayThreads(k, c);
    } else {
      SwitchParts(k, c);
    }
  }

  lemma SwitchParts(k: Kernel, c: Cpu)
    requires Inv(k, Some(c)) && CanSwitch(k, c)
    ensures Inv(Switched(k, c), None)
  {
    hide Threads, Blockers, Lists, Cpus, OneKiller, Counted, Requeued;
    NextIdle(k, c);
    var w := Switched(k, c);
    SwitchedThreads(k, c);
    SwitchedLists(k, c);
    SwitchedCpus(k, c);
    RecordBlockersSame(k, w);
    KillersFrame(k, w);
    CountedSame(k, w);
  }

  lemma NextIdle(k: Kernel, c: Cpu)
    requires Lists(k) && CanSwitch(k, c)
    ensures k.threads[NextThread(k, c)].idle ==> NextThread(k, c) == k.idle[c]
  {
    hide NoDuplicates, ByWakeTime;
    if k.ready != [] { assert k.ready[0] in k.ready; }
  }

  /** Entering the locked section of a processor. */
  lemma OpenHole(k: Kernel, c: Cpu)
    requires Inv(k, None)
    ensures Inv(k, Some(c))
  {
    forall t | t in k.threads && !k.threads[t].idle ensures ThreadOk(k, Some(c), t) { assert ThreadOk(k, None, t); }
  }

  // ---------- no lost wakeup ----------

  /** A blocker's result, once set, never changes; nor does whose it is or its kind. */
  ghost predicate ResultsStick(k: Kernel, w: Kernel) {
    forall b :: b in k.blockers ==>
      && b in w.blockers && w.blockers[b].thread == k.blockers[b].thread && w.blockers[b].kind == k.blockers[b].kind
      && (k.blockers[b].result != Pending ==> w.blockers[b].result == k.blockers[b].result)
  }

  /** Nobody waits on a resolved blocker, in any state the scheduler can be in. */
  lemma NeverBlockedOnResolved(k: Kernel, t: Tid, b: Bid)
    requires Inv(k, None) && t in k.threads && !k.threads[t].idle && b in k.blockers && k.blockers[b].result != Pending
    ensures !(IsBlocked(k, t) && k.threads[t].blocker == Some(b))
  {
  }

  // ---------- unblocking ----------

  ghost predicate Wakes(k: Kernel, b: Bid) {
    b in k.blockers && k.blockers[b].thread in k.threads && k.threads[k.blockers[b].thread].state == Blocked
  }

  /** The blocker the blocker's thread is waiting on, whichever that is. */
  ghost function OwnBlocker(k: Kernel, b: Bid): Bid
    requires Wakes(k, b) && k.threads[k.blockers[b].thread].blocker.Some?
  {
    k.threads[k.blockers[b].thread].blocker.value
  }

  ghost predicate CanUnblock(k: Kernel, b: Bid) {
    && b in k.blockers && k.blockers[b].thread in k.threads
    && (Wakes(k, b) ==> k.threads[k.blockers[b].thread].blocker.Some? && OwnBlocker(k, b) in k.blockers)
  }

  /** What unblocking `b` does: it ends the wait of the blocker's thread, or resolves the blocker ahead of its wait. */
  ghost function AfterUnblock(k: Kernel, b: Bid): Kernel
    requires CanUnblock(k, b)
  {
    if Wakes(k, b) then
      var t, own := k.blockers[b].thread, OwnBlocker(k, b);
      k.(blockers := k.blockers[own := Resolved(k.blockers[own], Unblocked)],
         threads := k.threads[t := k.threads[t].(blocker := None, state := Ready)], ready := k.ready + [t])
    else
      ResolvedIn(k, b, Unblocked)
  }

  lemma UnblockFacts(k: Kernel, b: Bid)
    requires Inv(k, None) && b in k.blockers
    ensures CanUnblock(k, b) && !k.threads[k.blockers[b].thread].idle
    ensures Wakes(k, b) ==>
      k.blockers[OwnBlocker(k, b)].thread == k.blockers[b].thread && PendingFor(k, OwnBlocker(k, b))
    ensures Wakes(k, b) && k.blockers[OwnBlocker(k, b)].kind != Sleep ==> !Gone(k, k.blockers[b].thread)
  {
    BlockerFacts(k, None, b);
  }

  /**
   Unblocking reaches the right wait exactly while the blocker is unresolved: a late unblock of a resolved one
   ends whatever other wait the thread is in by then.
   */
  lemma UnblockHitsOwnIff(k: Kernel, b: Bid)
    requires Inv(k, None) && Wakes(k, b)
    ensures CanUnblock(k, b) && (OwnBlocker(k, b) == b <==> k.blockers[b].result == Pending)
  {
    UnblockFacts(k, b);
    assert k.blockers[b].result == Pending ==> PendingFor(k, b);
  }

  /** Once unblocked, the blocker is resolved and its thread is not waiting on it, nor on anything. */
  lemma UnblockResolves(k: Kernel, b: Bid)
    requires Inv(k, None) && b in k.blockers
    ensures CanUnblock(k, b)
    ensures var w := AfterUnblock(k, b);
      && ResultsStick(k, w) && b in w.blockers && w.blockers[b].result != Pending
      && (k.blockers[b].result == Pending ==> w.blockers[b].result == Unblocked)
      && w.threads[k.blockers[b].thread].state != Blocked
  {
    hide Inv;
    UnblockFacts(k, b);
    if Wakes(k, b) { UnblockHitsOwnIff(k, b); }
  }

  /** Unblocking keeps the invariant exactly unless it ends a sleep, which only the scheduler's own timer may end. */
  lemma UnblockKeepsIff(k: Kernel, b: Bid)
    requires Inv(k, None) && b in k.blockers
    ensures CanUnblock(k, b)
    ensures Inv(AfterUnblock(k, b), None) <==> !(Wakes(k, b) && k.blockers[OwnBlocker(k, b)].kind == Sleep)
  {
    hide Inv;
    UnblockFacts(k, b);
    if !Wakes(k, b) {
      ResolveKeeps(k, None, b, Unblocked);
    } else if k.blockers[OwnBlocker(k, b)].kind == Sleep {
      SleepEndedBreaks(k, b);
    } else {
      var t, own := k.blockers[b].thread, OwnBlocker(k, b);
      BlockedFacts(k, None, t);
      NotSleeping(k, None, own);
      WakeKeeps(k, None, t, own, Unblocked);
    }
  }

  /** The sleep stays on the sleepers' list with nobody asleep on it, or a freed thread is back on the ready list. */
  lemma SleepEndedBreaks(k: Kernel, b: Bid)
    requires Inv(k, None) && Wakes(k, b) && CanUnblock(k, b) && k.blockers[OwnBlocker(k, b)].kind == Sleep
    ensures !Inv(AfterUnblock(k, b), None)
  {
    var w, t, own := AfterUnblock(k, b), k.blockers[b].thread, OwnBlocker(k, b);
    UnblockFacts(k, b);
    ThreadFacts(k, None, t);
    assert t in w.ready by { assert w.ready[|k.ready|] == t; }
    if Gone(k, t) {
      assert Gone(w, t) && !ThreadOk(w, None, t);
    } else {
      assert own in w.sleeping && !SleeperOk(w, own);
    }
  }

  /**
   The race: thread 1 once waited with blocker 1, which somebody has resolved, and now waits with blocker 2.
   With `freed`, it has been marked to die and handed over for freeing in its sleep by thread 2, the killer of their
   process, which waits to be freed as well.
   */
  ghost function RaceKernel(kind: Kind, freed: bool): Kernel {
    Kernel(
      map[0 := Thread(0, true, Running, false, None, false, false, false),
          1 := Thread(1, false, Blocked, false, Some(2), freed, false, false)]
      + (if freed then map[2 := Thread(1, false, Dead, false, None, true, false, true)] else map[]),
      map[1 := Blocker(1, Interruptable, 0, Unblocked, false), 2 := Blocker(1, kind, 0, Pending, true)],
      map[0 := Process(true, true, 0, false), 1 := Process(false, !freed, if freed then 0 else 1, freed)],
      map[0 := 0], map[0 := 0], [], if kind == Sleep && !freed then [2] else [],
      if freed then [2] else [], if freed then [1] else [])
  }

  lemma RaceGone(kind: Kind, freed: bool, t: Tid)
    ensures Gone(RaceKernel(kind, freed), t) <==> freed && (t == 1 || t == 2)
  {
  }

  lemma RaceLists(kind: Kind, freed: bool)
    requires freed ==> kind == Sleep
    ensures Lists(RaceKernel(kind, freed))
  {
    var k := RaceKernel(kind, freed);
    forall t ensures Gone(k, t) <==> freed && (t == 1 || t == 2) { RaceGone(kind, freed, t); }
    hide Gone;
    if freed { TwoGone(); }
    assert k.dead + k.toFree == if freed then [2, 1] else [];
    assert k.sleeping == [] || k.sleeping == [2];
    forall b | b in k.sleeping ensures SleeperOk(k, b) { assert b == 2 && kind == Sleep && !freed; }
    OneSleeper(k.blockers, 2);
    assert NoDuplicates(k.ready) && NoDuplicates(k.sleeping) && NoDuplicates(k.dead + k.toFree);
    assert ByWakeTime(k.blockers, k.sleeping);
  }

  lemma TwoGone()
    ensures NoDuplicates<Tid>([2, 1])
  {
    assert [2, 1][1..] == [1] && [1][1..] == [];
  }

  lemma OneSleeper(blockers: map<Bid, Blocker>, b: Bid)
    requires b in blockers
    ensures NoDuplicates([b]) && ByWakeTime(blockers, [b])
  {
    assert [b][1..] == [];
  }

  lemma RaceThreads(kind: Kind, freed: bool)
    requires freed ==> kind == Sleep
    ensures Threads(RaceKernel(kind, freed), None)
  {
    var k := RaceKernel(kind, freed);
    RaceGone(kind, freed, 1);
    RaceGone(kind, freed, 2);
    hide Gone;
    assert ThreadOk(k, None, 1);
    if freed { assert ThreadOk(k, None, 2); }
    hide ThreadOk;
  }

  lemma RaceBlockers(kind: Kind, freed: bool)
    ensures Blockers(RaceKernel(kind, freed)) && OneKiller(RaceKernel(kind, freed))
  {
  }

  lemma RaceCpus(kind: Kind, freed: bool)
    ensures var k := RaceKernel(kind, freed); Cpus(k) && Counted(k)
  {
    var k := RaceKernel(kind, freed);
    forall t ensures Gone(k, t) <==> freed && (t == 1 || t == 2) { RaceGone(kind, freed, t); }
    hide Gone;
    assert CpuOk(k, 0) && IdleOk(k, 0);
    assert Live(k, 0) == {};
    assert Live(k, 1) == if freed then {} else {1};
    assert ProcessOk(k, 0) && ProcessOk(k, 1);
  }

  /** The stages of the pass in which thread 2, told to end its process, meets thread 1 asleep. */
  ghost function KillStage(
    idle: ThreadState, marked: bool, killer: ThreadState, alive: int, reaped: bool, current: Tid,
    sleeping: seq<Bid>, dead: seq<Tid>, toFree: seq<Tid>): Kernel
  {
    Kernel(
      map[0 := Thread(0, true, idle, false, None, false, false, false),
          1 := Thread(1, false, Blocked, false, Some(2), marked, false, false),
          2 := Thread(1, false, killer, false, None, true, false, true)],
      map[1 := Blocker(1, Interruptable, 0, Unblocked, false), 2 := Blocker(1, Sleep, 0, Pending, true)],
      map[0 := Process(true, true, 0, false), 1 := Process(false, false, alive, reaped)],
      map[0 := 0], map[0 := current], [], sleeping, dead, toFree)
  }

  /** The killer is marked dead and frees the sleeper. */
  lemma SleeperFreed()
    ensures var k := KillStage(Ready, false, Running, 2, false, 2, [2], [], []);
      var k := Reaped(WithThread(k, 2, k.threads[2].(state := Dead)), 1);
      var k := WithThread(k, 1, k.threads[1].(shouldDie := true));
      HandedOver(k, 1, k.threads[1], false) == KillStage(Ready, true, Dead, 1, true, 2, [], [], [1])
  {
    assert Without([2], 2) == [];
  }

  /** Then it goes itself. */
  lemma KillerGone()
    ensures var k := KillStage(Ready, true, Dead, 1, true, 2, [], [], [1]);
      HandedOver(k, 2, k.threads[2], true) == KillStage(Ready, true, Dead, 0, true, 2, [], [2], [1])
  {
  }

  /** And the processor idles: this is the state of the race with the sleeper freed. */
  lemma RaceIsReached()
    ensures Switched(KillStage(Ready, true, Dead, 0, true, 2, [], [2], [1]), 0) == RaceKernel(Sleep, true)
  {
    var k, w := KillStage(Ready, true, Dead, 0, true, 2, [], [2], [1]), RaceKernel(Sleep, true);
    assert Switched(k, 0).threads == w.threads && Switched(k, 0).running == w.running;
  }

  /**
   An unblock of blocker 1 that comes late ends the wait on blocker 2. If that is a sleep, the sleeper is left behind
   on its list, and a thread already freed is made ready again.
   */
  lemma LateUnblockEndsOtherWait(kind: Kind, freed: bool)
    requires freed ==> kind == Sleep
    ensures var k := RaceKernel(kind, freed);
      && Inv(k, None) && (Gone(k, 1) <==> freed) && (freed <==> k.threads[1].shouldDie)
      && CanUnblock(k, 1) && Wakes(k, 1) && OwnBlocker(k, 1) == 2
      && AfterUnblock(k, 1).blockers[2].result == Unblocked
      && AfterUnblock(k, 1).threads[1].state == Ready && AfterUnblock(k, 1).ready == [1]
      && (Inv(AfterUnblock(k, 1), None) <==> kind != Sleep)
  {
    hide Threads, Blockers, Lists, Cpus, OneKiller, Counted;
    RaceLists(kind, freed);
    RaceThreads(kind, freed);
    RaceBlockers(kind, freed);
    RaceCpus(kind, freed);
    RaceGone(kind, freed, 1);
    UnblockKeepsIff(RaceKernel(kind, freed), 1);
  }

  // ---------- facts about one thread ----------

  lemma CurrentFacts(k: Kernel, hole: Option<Cpu>, c: Cpu)
    requires Inv(k, hole) && c in k.running
    ensures k.running[c] in k.threads && c in k.idle && Current(k, k.running[c])
    ensures k.threads[k.running[c]].idle <==> k.running[c] == k.idle[c]
    ensures !k.threads[k.running[c]].idle ==> ThreadOk(k, hole, k.running[c])
    ensures k.threads[k.running[c]].idle ==> IdleOk(k, c)
  {
    assert CpuOk(k, c) && IdleOk(k, c);
  }

  lemma BlockerFacts(k: Kernel, hole: Option<Cpu>, b: Bid)
    requires Inv(k, hole) && b in k.blockers
    ensures BlockerOk(k, k.blockers[b]) && ThreadOk(k, hole, k.blockers[b].thread)
  {
    assert BlockerOk(k, k.blockers[b]);
  }

  lemma SleeperFacts(k: Kernel, hole: Option<Cpu>, b: Bid)
    requires Inv(k, hole) && b in k.sleeping
    ensures SleeperOk(k, b) && ThreadOk(k, hole, k.blockers[b].thread) && !k.threads[k.blockers[b].thread].idle
  {
    assert SleeperOk(k, b) && BlockerOk(k, k.blockers[b]);
  }

  lemma StickRefl(k: Kernel)
    ensures ResultsStick(k, k)
  {
  }

  lemma StickTrans(k: Kernel, v: Kernel, w: Kernel)
    requires ResultsStick(k, v) && ResultsStick(v, w)
    ensures ResultsStick(k, w)
  {
  }

  lemma WokenSticks(k: Kernel, t: Tid, b: Bid, r: Result)
    requires t in k.threads && b in k.blockers
    ensures ResultsStick(k, Woken(k, t, b, r)) && ResultsStick(k, ResolvedIn(k, b, r))
  {
  }

  /** The first sleeper's thread can be woken, unless it is the thread being switched away from. */
  lemma FirstSleeper(k: Kernel, c: Cpu)
    requires Inv(k, Some(c)) && k.sleeping != []
    requires c in k.running && k.running[c] in k.threads && k.threads[k.running[c]].state == Running
    ensures var b := k.sleeping[0];
      && b in k.blockers && k.blockers[b].thread in k.threads && CanWake(k, Some(c), k.blockers[b].thread, b)
      && k.blockers[b].thread != k.running[c]
      && Without(k.sleeping, b) == k.sleeping[1..]
      && forall a :: a in k.sleeping ==> a in k.blockers && k.blockers[b].wakeTime <= k.blockers[a].wakeTime
  {
    SleepersInOrder(k);
    hide Inv;
    SleeperFacts(k, Some(c), k.sleeping[0]);
  }

  lemma SleepersInOrder(k: Kernel)
    requires Lists(k) && k.sleeping != []
    ensures k.sleeping[0] in k.sleeping && Without(k.sleeping, k.sleeping[0]) == k.sleeping[1..]
    ensures k.sleeping[0] in k.blockers
    ensures forall a :: a in k.sleeping ==>
      a in k.blockers && k.blockers[k.sleeping[0]].wakeTime <= k.blockers[a].wakeTime
  {
    hide SleeperOk;
    WithoutFirst(k.sleeping);
  }

  // ---------- the three ways a thread is handed over ----------

  lemma CurrentNotListed(k: Kernel, c: Cpu)
    requires Inv(k, Some(c)) && c in k.running && k.running[c] in k.threads && !k.threads[k.running[c]].idle
    requires k.threads[k.running[c]].state == Dead || k.threads[k.running[c]].state == Undefined
    ensures var t := k.running[c];
      && Without(k.ready, t) == k.ready
      && (k.threads[t].blocker.Some? ==> Without(k.sleeping, k.threads[t].blocker.value) == k.sleeping)
  {
    NotListed(k, Some(c), k.running[c]);
  }

  lemma NotListed(k: Kernel, hole: Option<Cpu>, t: Tid)
    requires Inv(k, hole) && t in k.threads && !k.threads[t].idle && k.threads[t].state != Ready
    requires k.threads[t].state != Blocked
    ensures Without(k.ready, t) == k.ready
    ensures k.threads[t].blocker.Some? ==> Without(k.sleeping, k.threads[t].blocker.value) == k.sleeping
  {
    assert ThreadOk(k, hole, t);
    WithoutAbsent(k.ready, t);
    if k.threads[t].blocker.Some? {
      var b := k.threads[t].blocker.value;
      assert b in k.sleeping ==> SleeperOk(k, b);
      WithoutAbsent(k.sleeping, b);
    }
  }

  /** The record a thread is handed over with fits the state afterwards. */
  lemma CanHandOverAs(k: Kernel, hole: Option<Cpu>, t: Tid, x: Thread, deferred: bool)
    requires t in k.threads && !k.threads[t].idle && !Gone(k, t) && ThreadOk(k, hole, t)
    requires x.owner == k.threads[t].owner && !x.idle && x.killAll == k.threads[t].killAll
    requires x.blocker == k.threads[t].blocker
    requires Current(k, t) ==> AtHole(k, hole, t)
    requires x.state == Dead || (x.state == k.threads[t].state && k.processes[x.owner].reaped &&
      (x.state == Ready || DeadSleeper(k, t)))
    ensures CanHandOver(k, hole, t, x, deferred)
  {
    WithoutElements(k.ready, t);
    var w := HandedOver(k, t, x, deferred);
    assert Gone(w, t);
  }

  /** A ready thread has no sleep to cancel, and a sleeping one is not on the ready list. */
  lemma ReadyOrAsleep(k: Kernel, hole: Option<Cpu>, u: Tid)
    requires Threads(k, hole) && u in k.threads && !k.threads[u].idle && !Gone(k, u) && !Current(k, u)
    requires k.threads[u].state == Ready || DeadSleeper(k, u)
    ensures ThreadOk(k, hole, u)
    ensures k.threads[u].state == Ready ==> k.threads[u].blocker == None
    ensures k.threads[u].state != Ready ==> Without(k.ready, u) == k.ready && k.threads[u].blocker.Some?
  {
    assert ThreadOk(k, hole, u);
    if k.threads[u].state != Ready { WithoutAbsent(k.ready, u); }
  }

  lemma InvThreads(k: Kernel, hole: Option<Cpu>)
    requires Inv(k, hole)
    ensures Threads(k, hole)
  {
  }

  lemma ThreadFacts(k: Kernel, hole: Option<Cpu>, t: Tid)
    requires Inv(k, hole) && t in k.threads && !k.threads[t].idle
    ensures ThreadOk(k, hole, t)
  {
  }

  lemma NotSleeping(k: Kernel, hole: Option<Cpu>, b: Bid)
    requires Inv(k, hole) && b in k.blockers && k.blockers[b].kind != Sleep
    ensures Without(k.sleeping, b) == k.sleeping
  {
    assert b in k.sleeping ==> SleeperOk(k, b);
    hide Inv;
    WithoutAbsent(k.sleeping, b);
  }

  ghost predicate BlockedUninterruptably(k: Kernel, t: Tid)
    requires t in k.threads
  {
    k.threads[t].blocker.Some? && k.threads[t].blocker.value in k.blockers &&
      k.blockers[k.threads[t].blocker.value].kind == Uninterruptable
  }

  /** Nothing about any thread but `u` differs between `k` and `w`. */
  ghost predicate OnlyChanged(k: Kernel, w: Kernel, u: Tid) {
    && w.threads.Keys == k.threads.Keys && w.running == k.running && w.idle == k.idle &&
      w.processes.Keys == k.processes.Keys
    && (forall v :: v in k.threads && v != u ==> w.threads[v] == k.threads[v] && (Gone(w, v) <==> Gone(k, v)))
    && (forall p :: p in k.processes ==> w.processes[p].(aliveThreads := 0) == k.processes[p].(aliveThreads := 0))
  }

  lemma HandedOnly(k: Kernel, u: Tid)
    requires u in k.threads && k.threads[u].owner in k.processes
    ensures OnlyChanged(k, HandedOver(k, u, k.threads[u], false), u)
  {
  }

  lemma MarkedOnly(k: Kernel, u: Tid, x: Thread)
    requires u in k.threads
    ensures OnlyChanged(k, WithThread(k, u, x), u) && ResultsStick(k, WithThread(k, u, x))
  {
  }

  lemma OnlyTrans(k: Kernel, v: Kernel, w: Kernel, u: Tid)
    requires OnlyChanged(k, v, u) && OnlyChanged(v, w, u)
    ensures OnlyChanged(k, w, u)
  {
  }

  /** Everything about one thread at once, for a thread that is not current. */
  lemma BlockedFacts(k: Kernel, hole: Option<Cpu>, u: Tid)
    requires Inv(k, hole) && u in k.threads && !k.threads[u].idle && k.threads[u].state == Blocked
    requires !Gone(k, u) && !AtHole(k, hole, u)
    ensures k.threads[u].blocker.Some? && CanWake(k, hole, u, k.threads[u].blocker.value)
    ensures k.blockers[k.threads[u].blocker.value].kind == Sleep ==> DeadSleeper(k, u)
    ensures k.blockers[k.threads[u].blocker.value].result == Pending
  {
    assert ThreadOk(k, hole, u);
  }

  lemma NotCurrent(k: Kernel, hole: Option<Cpu>, u: Tid)
    requires Inv(k, hole) && u in k.threads && !k.threads[u].idle && k.threads[u].state != Running
    requires !AtHole(k, hole, u)
    ensures !Current(k, u) && (Gone(k, u) && k.threads[u].state != Dead ==> k.threads[u].owner in k.processes)
  {
    assert ThreadOk(k, hole, u);
  }

  // ---------- going through a process's threads ----------

  /** Told to die, and waiting, if at all, only on something that cannot be interrupted. */
  ghost predicate Doomed(k: Kernel, u: Tid) {
    u in k.threads && k.threads[u].shouldDie &&
      (!Gone(k, u) && k.threads[u].state == Blocked ==> BlockedUninterruptably(k, u))
  }

  ghost predicate Untouched(k: Kernel, w: Kernel, u: Tid) {
    u in k.threads && u in w.threads && w.threads[u] == k.threads[u] && (Gone(w, u) <==> Gone(k, u))
  }

  /** Halfway through: `todo` is untouched, the rest of the process is doomed. */
  ghost predicate Killing(k: Kernel, w: Kernel, p: Pid, todo: set<Tid>) {
    && w.threads.Keys == k.threads.Keys && w.running == k.running && w.idle == k.idle
    && (forall u :: u in k.threads ==>
      w.threads[u].owner == k.threads[u].owner && w.threads[u].idle == k.threads[u].idle)
    && (forall u :: u in todo ==> Untouched(k, w, u) && k.threads[u].owner == p && !k.threads[u].idle)
    && (forall u :: u in k.threads && k.threads[u].owner == p && !k.threads[u].idle && u !in todo ==> Doomed(w, u))
    && p in w.processes && w.processes[p].reaped
  }

  lemma KillingStart(k: Kernel, p: Pid, todo: set<Tid>)
    requires p in k.processes && k.processes[p].reaped
    requires todo == set u | u in k.threads && k.threads[u].owner == p && !k.threads[u].idle
    ensures Killing(k, k, p, todo)
  {
  }

  lemma KillingFacts(k: Kernel, w: Kernel, p: Pid, todo: set<Tid>, u: Tid)
    requires Killing(k, w, p, todo) && u in todo
    ensures Untouched(k, w, u) && w.threads[u].owner == p && !w.threads[u].idle && w.running == k.running
    ensures p in w.processes && w.processes[p].reaped
  {
  }

  lemma AllDoomed(k: Kernel, w: Kernel, p: Pid)
    requires Killing(k, w, p, {})
    ensures forall u :: u in w.threads && !w.threads[u].idle && w.threads[u].owner == p ==> Doomed(w, u)
  {
    hide Doomed;
  }

  lemma KillingStep(k: Kernel, v: Kernel, w: Kernel, p: Pid, todo: set<Tid>, u: Tid)
    requires Killing(k, v, p, todo) && u in todo && OnlyChanged(v, w, u) && ResultsStick(v, w)
    requires u in w.threads && w.threads[u].owner == p && !w.threads[u].idle && Doomed(w, u)
    ensures Killing(k, w, p, todo - {u})
  {
    forall t | t in k.threads && k.threads[t].owner == p && !k.threads[t].idle && t !in todo - {u}
      ensures Doomed(w, t) {
      if t != u { assert Doomed(v, t); }
    }
    forall t | t in todo - {u} ensures Untouched(k, w, t) && k.threads[t].owner == p && !k.threads[t].idle {
      assert Untouched(k, v, t);
    }
  }

  lemma OnlyOthers(k: Kernel, w: Kernel, u: Tid, t: Tid)
    requires OnlyChanged(k, w, u) && t in k.threads
    ensures t in w.threads && (u != t ==> w.threads[t] == k.threads[t] && (Gone(w, t) <==> Gone(k, t)))
  {
  }

  lemma RetiredOnly(k: Kernel, w: Kernel, t: Tid)
    requires t in k.threads && k.threads[t].owner in k.processes
    requires w == WithAlive(k, k.threads[t].owner, -1).(dead := k.dead + [t])
    ensures OnlyChanged(k, w, t) && ResultsStick(k, w)
  {
  }

  lemma StickSame(k: Kernel, w: Kernel)
    requires w.blockers == k.blockers
    ensures ResultsStick(k, w)
  {
  }

  /** Until a process is reaped, its threads handed over are dead ones. */
  lemma GoneAreDead(k: Kernel, hole: Option<Cpu>, p: Pid)
    requires Inv(k, hole) && p in k.processes && !k.processes[p].reaped
    ensures forall u :: u in k.threads && !k.threads[u].idle && k.threads[u].owner == p && Gone(k, u) ==>
      k.threads[u].state == Dead
  {
    forall u | u in k.threads && !k.threads[u].idle && k.threads[u].owner == p && Gone(k, u)
      ensures k.threads[u].state == Dead {
      assert ThreadOk(k, hole, u);
    }
  }

  /** The current thread when a pass through the scheduler begins. */
  lemma EnterFacts(k: Kernel, c: Cpu)
    requires Inv(k, None) && c in k.running
    ensures k.running[c] in k.threads && k.threads[k.running[c]].state == Running
    ensures var x := k.threads[k.running[c]];
      x.idle || (x.owner in k.processes && (x.killAll ==> !k.processes[x.owner].reaped))
  {
    CurrentFacts(k, None, c);
  }

  lemma AliveNotReaped(k: Kernel, hole: Option<Cpu>, p: Pid)
    requires Inv(k, hole) && p in k.processes && k.processes[p].alive
    ensures !k.processes[p].reaped
  {
    assert ProcessOk(k, p);
  }
}
