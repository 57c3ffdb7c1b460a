/**
 What the scheduler's locked sections see: threads, blockers, processes, the processors' current threads
 and the thread lists. Threads, blockers, processes and processors are named by numbers.
 */
module SchedulerState {
  import opened Common
  import opened DistinctLists

  type Tid = nat
  type Bid = nat
  type Pid = nat
  type Cpu = nat

  datatype ThreadState = Undefined | Running | Dead | Blocked | Ready

  datatype Thread = Thread(
    owner: Pid, idle: bool, state: ThreadState, wantsBlock: bool, blocker: Option<Bid>,
    shouldDie: bool, invulnerable: bool, killAll: bool)

  datatype Kind = Sleep | Interruptable | Uninterruptable

  datatype Result = Pending | Unblocked | Interrupted

  datatype Blocker = Blocker(thread: Tid, kind: Kind, wakeTime: nat, result: Result, shouldBlock: bool)

  /** `reaped`: the process's killer has already gone through its threads. */
  datatype Process = Process(idle: bool, alive: bool, aliveThreads: int, reaped: bool)

  datatype Kernel = Kernel(
    threads: map<Tid, Thread>, blockers: map<Bid, Blocker>, processes: map<Pid, Process>,
    idle: map<Cpu, Tid>, running: map<Cpu, Tid>,
    ready: seq<Tid>, sleeping: seq<Bid>, dead: seq<Tid>, toFree: seq<Tid>)

  // ---------- lists ----------

  /** In order of wake-up time. */
  ghost predicate ByWakeTime(blockers: map<Bid, Blocker>, s: seq<Bid>) {
    s == [] || (
      && (forall b :: b in s ==> b in blockers)
      && (forall b :: b in s ==> blockers[s[0]].wakeTime <= blockers[b].wakeTime)
      && ByWakeTime(blockers, s[1..]))
  }

  /** The place in the list a new sleeper takes: after those that wake no later. */
  function Inserted(blockers: map<Bid, Blocker>, s: seq<Bid>, b: Bid): seq<Bid>
    requires b in blockers && forall c :: c in s ==> c in blockers
  {
    if s == [] || blockers[b].wakeTime < blockers[s[0]].wakeTime then [b] + s
    else [s[0]] + Inserted(blockers, s[1..], b)
  }

  lemma {:induction false} InsertedOrder(blockers: map<Bid, Blocker>, s: seq<Bid>, b: Bid)
    requires b in blockers && ByWakeTime(blockers, s) && NoDuplicates(s) && b !in s &&
      forall c :: c in s ==> c in blockers
    ensures var r := Inserted(blockers, s, b);
      ByWakeTime(blockers, r) && NoDuplicates(r) && forall c :: c in r <==> c in s || c == b
  {
    var r := Inserted(blockers, s, b);
    if s != [] && blockers[b].wakeTime >= blockers[s[0]].wakeTime {
      InsertedOrder(blockers, s[1..], b);
      assert r[1..] == Inserted(blockers, s[1..], b);
      assert s == [s[0]] + s[1..];
    } else {
      assert r[1..] == s;
    }
  }

  lemma {:induction false} WithoutOrder(blockers: map<Bid, Blocker>, s: seq<Bid>, x: Bid)
    requires ByWakeTime(blockers, s)
    ensures ByWakeTime(blockers, Without(s, x))
  {
    if s != [] {
      WithoutOrder(blockers, s[1..], x);
      WithoutElements(s, x);
      if s[0] != x { assert Without(s, x)[1..] == Without(s[1..], x); }
    }
  }

  lemma {:induction false} SameWakeTimes(blockers: map<Bid, Blocker>, other: map<Bid, Blocker>, s: seq<Bid>)
    requires ByWakeTime(blockers, s)
    requires forall b :: b in s ==> b in other && (b in blockers ==> other[b].wakeTime == blockers[b].wakeTime)
    ensures ByWakeTime(other, s)
  {
    if s != [] { SameWakeTimes(blockers, other, s[1..]); }
  }

  ghost predicate Injective(m: map<Cpu, Tid>) {
    forall c, d :: c in m && d in m && m[c] == m[d] ==> c == d
  }

  /** Handed over for freeing. */
  ghost predicate Gone(k: Kernel, t: Tid) {
    t in k.dead || t in k.toFree
  }

  ghost predicate Current(k: Kernel, t: Tid) {
    t in k.running.Values
  }

  // ---------- the invariant ----------

  ghost predicate BlockerOk(k: Kernel, b: Blocker) {
    b.thread in k.threads && !k.threads[b.thread].idle && (b.shouldBlock <==> b.result == Pending)
  }

  /** A thread has at most one blocker that nobody has resolved. */
  ghost predicate OnePending(k: Kernel) {
    forall a, b :: PendingFor(k, a) && PendingFor(k, b) && k.blockers[a].thread == k.blockers[b].thread ==> a == b
  }

  ghost predicate PendingFor(k: Kernel, b: Bid) {
    b in k.blockers && k.blockers[b].result == Pending
  }

  ghost predicate HasBlocker(k: Kernel, t: Tid, b: Bid)
    requires t in k.threads
  {
    k.threads[t].blocker == Some(b) && b in k.blockers && k.blockers[b].thread == t
  }

  /** Where a thread that is not an idle thread is, and what its fields then are. */
  ghost predicate ThreadOk(k: Kernel, hole: Option<Cpu>, t: Tid)
    requires t in k.threads
  {
    var x := k.threads[t];
    && x.owner in k.processes && !k.processes[x.owner].idle
    && (x.killAll ==> !k.processes[x.owner].alive && (!Gone(k, t) ==> x.shouldDie))
    && (x.killAll && !Gone(k, t) ==> !k.processes[x.owner].reaped || AtHole(k, hole, t))
    && (x.blocker.Some? ==> HasBlocker(k, t, x.blocker.value))
    && (x.state == Ready && !Gone(k, t) <==> t in k.ready)
    && (Gone(k, t) && x.state != Dead ==> k.processes[x.owner].reaped && (x.state == Ready || DeadSleeper(k, t)))
    && (Current(k, t) ==> x.state == Running || AtHole(k, hole, t))
    && (x.state == Running ==> Current(k, t) && !Gone(k, t))
    && (x.state == Dead ==> Gone(k, t) || AtHole(k, hole, t))
    && (x.state == Blocked && !Gone(k, t) ==> BlockedOn(k, t))
    && (x.wantsBlock && !Gone(k, t) ==> x.blocker.Some? && (x.state == Running || AtHole(k, hole, t)))
    && (!x.wantsBlock && x.state != Blocked && !Gone(k, t) ==> x.blocker == None)
  }

  /** A thread freed while asleep keeps its unresolved sleep. */
  ghost predicate DeadSleeper(k: Kernel, t: Tid)
    requires t in k.threads
  {
    && k.threads[t].state == Blocked && k.threads[t].blocker.Some?
    && HasBlocker(k, t, k.threads[t].blocker.value)
    && k.blockers[k.threads[t].blocker.value].kind == Sleep && k.blockers[k.threads[t].blocker.value].result == Pending
  }

  /** `t` is the thread a processor is in the middle of switching away from. */
  ghost predicate AtHole(k: Kernel, hole: Option<Cpu>, t: Tid) {
    hole.Some? && hole.value in k.running && k.running[hole.value] == t
  }

  /** The blocker a blocked thread waits on is unresolved, and on the sleepers' list if it is a sleep. */
  ghost predicate BlockedOn(k: Kernel, t: Tid)
    requires t in k.threads
  {
    && k.threads[t].blocker.Some?
    && var b := k.threads[t].blocker.value;
    && HasBlocker(k, t, b) && k.blockers[b].result == Pending
    && (k.blockers[b].kind == Sleep ==> b in k.sleeping)
  }

  ghost predicate SleeperOk(k: Kernel, b: Bid) {
    && b in k.blockers && k.blockers[b].kind == Sleep
    && var t := k.blockers[b].thread;
    t in k.threads && HasBlocker(k, t, b) && k.threads[t].state == Blocked && !Gone(k, t)
  }

  ghost predicate IdleOk(k: Kernel, c: Cpu)
    requires c in k.idle
  {
    && c in k.running && k.idle[c] in k.threads
    && var x := k.threads[k.idle[c]];
    && x.idle && !x.shouldDie && !x.wantsBlock && x.blocker == None
    && x.state == (if k.running[c] == k.idle[c] then Running else Ready)
    && x.owner in k.processes && k.processes[x.owner].idle
  }

  ghost predicate CpuOk(k: Kernel, c: Cpu)
    requires c in k.running
  {
    && c in k.idle && k.running[c] in k.threads
    && (k.threads[k.running[c]].idle ==> k.running[c] == k.idle[c])
  }

  /** Registered threads of `p` that have not been handed over for freeing. */
  ghost function Live(k: Kernel, p: Pid): set<Tid> {
    set t | t in k.threads && k.threads[t].owner == p && !k.threads[t].idle && k.threads[t].state != Undefined &&
      !Gone(k, t)
  }

  ghost predicate Counted(k: Kernel) {
    forall p :: p in k.processes ==> ProcessOk(k, p)
  }

  ghost predicate ProcessOk(k: Kernel, p: Pid)
    requires p in k.processes
  {
    k.processes[p].aliveThreads == |Live(k, p)| && (k.processes[p].reaped ==> !k.processes[p].alive)
  }

  ghost predicate Lists(k: Kernel) {
    && NoDuplicates(k.ready) && NoDuplicates(k.sleeping) && NoDuplicates(k.dead + k.toFree)
    && (forall t :: t in k.ready ==> t in k.threads && !k.threads[t].idle)
    && (forall t :: Gone(k, t) ==> t in k.threads && !k.threads[t].idle)
    && (forall b :: b in k.sleeping ==> SleeperOk(k, b))
    && ByWakeTime(k.blockers, k.sleeping)
  }

  ghost predicate Cpus(k: Kernel) {
    && Injective(k.running) && Injective(k.idle)
    && (forall c :: c in k.running ==> CpuOk(k, c))
    && (forall c :: c in k.idle ==> IdleOk(k, c))
  }

  /** At most one thread of a process is its killer. */
  ghost predicate OneKiller(k: Kernel) {
    forall t, u :: Killer(k, t) && Killer(k, u) && k.threads[t].owner == k.threads[u].owner ==> t == u
  }

  ghost predicate Killer(k: Kernel, t: Tid) {
    t in k.threads && !k.threads[t].idle && k.threads[t].killAll
  }

  ghost predicate Threads(k: Kernel, hole: Option<Cpu>) {
    forall t :: t in k.threads && !k.threads[t].idle ==> ThreadOk(k, hole, t)
  }

  ghost predicate Blockers(k: Kernel) {
    OnePending(k) && forall b :: b in k.blockers ==> BlockerOk(k, k.blockers[b])
  }

  /** Holds between locked sections with no hole; inside one, with the switching processor as the hole. */
  ghost predicate Inv(k: Kernel, hole: Option<Cpu>) {
    Threads(k, hole) && Blockers(k) && Lists(k) && Cpus(k) && OneKiller(k) && Counted(k)
  }

  // ---------- what the invariant says ----------

  ghost predicate RunsOnOneCpu(k: Kernel, t: Tid) {
    exists c :: c in k.running && k.running[c] == t && forall d :: d in k.running && k.running[d] == t ==> d == c
  }

  ghost predicate OnceIn(s: seq<Tid>, t: Tid) {
    exists i :: 0 <= i < |s| && s[i] == t && forall j :: 0 <= j < |s| && s[j] == t ==> j == i
  }

  ghost predicate IsRunning(k: Kernel, t: Tid)
    requires t in k.threads
  {
    k.threads[t].state == Running && RunsOnOneCpu(k, t) && t !in k.ready && !Gone(k, t)
  }

  ghost predicate IsReady(k: Kernel, t: Tid)
    requires t in k.threads
  {
    k.threads[t].state == Ready && OnceIn(k.ready, t) && !Current(k, t) && !Gone(k, t)
  }

  ghost predicate IsBlocked(k: Kernel, t: Tid)
    requires t in k.threads
  {
    k.threads[t].state == Blocked && BlockedOn(k, t) && t !in k.ready && !Current(k, t) && !Gone(k, t)
  }

  ghost predicate IsGone(k: Kernel, t: Tid)
    requires t in k.threads
  {
    OnceIn(k.dead + k.toFree, t) && t !in k.ready && !Current(k, t)
  }

  ghost function Count(b: bool): nat { if b then 1 else 0 }

  lemma OnceInList<T(!new)>(s: seq<T>, t: T)
    requires NoDuplicates(s) && t in s
    ensures exists i :: 0 <= i < |s| && s[i] == t && forall j :: 0 <= j < |s| && s[j] == t ==> j == i
  {
    var i :| 0 <= i < |s| && s[i] == t;
    forall j | 0 <= j < |s| && s[j] == t ensures j == i { PositionUnique(s, i, j); }
  }

  lemma OneCpu(k: Kernel, t: Tid)
    requires Cpus(k) && Current(k, t)
    ensures RunsOnOneCpu(k, t)
  {
    var c :| c in k.running && k.running[c] == t;
  }

  /** Between locked sections a registered thread is in exactly one place. */
  lemma ExactlyOnePlace(k: Kernel, t: Tid)
    requires Inv(k, None) && t in k.threads && !k.threads[t].idle && k.threads[t].state != Undefined
    ensures Count(IsRunning(k, t)) + Count(IsReady(k, t)) + Count(IsBlocked(k, t)) + Count(IsGone(k, t)) == 1
  {
    assert ThreadOk(k, None, t);
    var s := k.dead + k.toFree;
    assert Gone(k, t) <==> t in s;
    if t in s { OnceInList(s, t); }
    if t in k.ready { OnceInList(k.ready, t); }
    if Current(k, t) { OneCpu(k, t); }
    hide Inv;
    hide NoDuplicates;
    hide RunsOnOneCpu;
  }

  /** The alive counter counts exactly the threads in the first three places. */
  lemma AliveCount(k: Kernel, p: Pid)
    requires Inv(k, None) && p in k.processes
    ensures k.processes[p].aliveThreads
         == |set t | t in k.threads && !k.threads[t].idle && k.threads[t].owner == p
                  && (IsRunning(k, t) || IsReady(k, t) || IsBlocked(k, t))|
  {
    var s := set t | t in k.threads && !k.threads[t].idle && k.threads[t].owner == p
                  && (IsRunning(k, t) || IsReady(k, t) || IsBlocked(k, t));
    forall t ensures t in s <==> t in Live(k, p) {
      if t in k.threads && !k.threads[t].idle && k.threads[t].state != Undefined { ExactlyOnePlace(k, t); }
    }
    assert s == Live(k, p);
    assert ProcessOk(k, p);
  }
}
