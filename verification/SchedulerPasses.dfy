/** What whole passes through the scheduler do: waking sleepers, killing a process, taking the next thread. */
module SchedulerPasses {
  import opened Common
  import opened DistinctLists
  import opened SchedulerState
  import opened SchedulerSteps

  // ---------- a new process ----------

  /** From `k` to `w` the new process `p` has been given the threads `s`: all ready, behind the others, in order. */
  ghost predicate Registered(k: Kernel, w: Kernel, p: Pid, s: seq<Tid>) {
    && w == k.(threads := w.threads, processes := k.processes[p := Process(false, true, |s|, false)],
      ready := k.ready + s)
    && (forall t :: t in w.threads <==> t in k.threads || t in s)
    && (forall t :: t in k.threads && t !in s ==> w.threads[t] == k.threads[t])
    && (forall t :: t in s ==> w.threads[t] == Thread(p, false, Ready, false, None, false, false, false))
  }

  lemma RegisteredNone(k: Kernel, p: Pid)
    ensures Registered(k, k.(processes := k.processes[p := NEW_PROCESS]), p, [])
  {
    assert k.ready + [] == k.ready;
  }

  lemma RegisteredFacts(k: Kernel, v: Kernel, p: Pid, created: seq<Tid>, i: nat)
    requires i < |created| && Registered(k, v, p, created[..i]) && NoDuplicates(created)
    requires created[i] !in k.threads
    ensures created[i] !in v.threads && p in v.processes && !v.processes[p].idle
  {
    forall j | 0 <= j < i ensures created[j] != created[i] {
      if created[j] == created[i] { PositionUnique(created, i, j); }
    }
  }

  lemma RegisteredNext(k: Kernel, v: Kernel, p: Pid, s: seq<Tid>, t: Tid)
    requires Registered(k, v, p, s) && t !in v.threads
    ensures p in v.processes && Registered(k, Enrolled(WithThread(v, t, NewThread(p)), t), p, s + [t])
  {
    assert k.ready + s + [t] == k.ready + (s + [t]);
  }

  // ---------- waking sleepers ----------

  /** The sleepers whose time has come, in the order of the list. */
  ghost function DueOf(blockers: map<Bid, Blocker>, s: seq<Bid>, now: nat): seq<Bid> {
    if s == [] then []
    else (if s[0] in blockers && blockers[s[0]].wakeTime <= now then [s[0]] else []) + DueOf(blockers, s[1..], now)
  }

  ghost function ThreadsOf(blockers: map<Bid, Blocker>, s: seq<Bid>): seq<Tid> {
    if s == [] then []
    else (if s[0] in blockers then [blockers[s[0]].thread] else []) + ThreadsOf(blockers, s[1..])
  }

  lemma {:induction false} DueIff(blockers: map<Bid, Blocker>, s: seq<Bid>, now: nat, b: Bid)
    ensures b in DueOf(blockers, s, now) <==> b in s && b in blockers && blockers[b].wakeTime <= now
  {
    if s != [] { DueIff(blockers, s[1..], now, b); }
  }

  lemma DueStep(blockers: map<Bid, Blocker>, s: seq<Bid>, now: nat)
    ensures s == [] ==> DueOf(blockers, s, now) == []
    ensures s != [] ==>
      DueOf(blockers, s, now) ==
        (if s[0] in blockers && blockers[s[0]].wakeTime <= now then [s[0]] else []) + DueOf(blockers, s[1..], now)
  {
  }

  /** A list of due sleepers followed by later ones. */
  lemma {:induction false} DueFirst(blockers: map<Bid, Blocker>, due: seq<Bid>, later: seq<Bid>, now: nat)
    requires forall b :: b in due ==> b in blockers && blockers[b].wakeTime <= now
    requires forall b :: b in later ==> b in blockers && blockers[b].wakeTime > now
    ensures DueOf(blockers, due + later, now) == due
  {
    hide DueOf;
    DueStep(blockers, due + later, now);
    if due != [] {
      DueFirst(blockers, due[1..], later, now);
      assert (due + later)[1..] == due[1..] + later;
    } else if later != [] {
      DueFirst(blockers, [], later[1..], now);
      assert due + later == later && [] + later[1..] == later[1..];
    }
  }

  lemma {:induction false} ThreadsOfMore(blockers: map<Bid, Blocker>, s: seq<Bid>, b: Bid)
    requires b in blockers
    ensures ThreadsOf(blockers, s + [b]) == ThreadsOf(blockers, s) + [blockers[b].thread]
  {
    if s != [] {
      ThreadsOfMore(blockers, s[1..], b);
      assert (s + [b])[1..] == s[1..] + [b];
    }
  }

  lemma {:induction false} ThreadOfListed(blockers: map<Bid, Blocker>, s: seq<Bid>, b: Bid)
    requires b in s && b in blockers
    ensures blockers[b].thread in ThreadsOf(blockers, s)
  {
    if s[0] != b { ThreadOfListed(blockers, s[1..], b); }
  }

  lemma {:induction false} ListedThread(blockers: map<Bid, Blocker>, s: seq<Bid>, t: Tid) returns (b: Bid)
    requires t in ThreadsOf(blockers, s)
    ensures b in s && b in blockers && blockers[b].thread == t
  {
    if s[0] in blockers && blockers[s[0]].thread == t {
      b := s[0];
    } else {
      b := ListedThread(blockers, s[1..], t);
    }
  }

  /**
   From `k` to `w` exactly the sleepers `s` at the head of the list have been woken: their sleeps are over, their
   threads stand behind the ready ones in the same order, and nothing else has changed.
   */
  ghost predicate Woke(k: Kernel, w: Kernel, s: seq<Bid>) {
    && w.processes == k.processes && w.idle == k.idle && w.running == k.running && w.dead == k.dead
    && w.toFree == k.toFree && k.sleeping == s + w.sleeping && w.ready == k.ready + ThreadsOf(k.blockers, s)
    && WokeBlockers(k, w, s) && WokeThreads(k, w, s)
  }

  ghost predicate WokeBlockers(k: Kernel, w: Kernel, s: seq<Bid>) {
    w.blockers.Keys == k.blockers.Keys && forall b :: b in k.blockers ==>
      w.blockers[b] == if b in s then k.blockers[b].(result := Unblocked, shouldBlock := false) else k.blockers[b]
  }

  ghost predicate WokeThreads(k: Kernel, w: Kernel, s: seq<Bid>) {
    w.threads.Keys == k.threads.Keys && forall t :: t in k.threads ==>
      w.threads[t] ==
        if t in ThreadsOf(k.blockers, s) then k.threads[t].(blocker := None, state := Ready) else k.threads[t]
  }

  lemma WokeNobody(k: Kernel)
    ensures Woke(k, k, [])
  {
  }

  lemma WokeNext(k: Kernel, v: Kernel, s: seq<Bid>, b: Bid)
    requires Woke(k, v, s) && v.sleeping != [] && v.sleeping[0] == b && Without(v.sleeping, b) == v.sleeping[1..]
    requires b in v.blockers && v.blockers[b].result == Pending
    requires v.blockers[b].thread in v.threads && v.threads[v.blockers[b].thread].state == Blocked
    ensures Woke(k, Woken(v, v.blockers[b].thread, b, Unblocked), s + [b])
  {
    hide ThreadsOf, Without, WokeBlockers, WokeThreads;
    var w := Woken(v, v.blockers[b].thread, b, Unblocked);
    assert s + v.sleeping == s + [b] + v.sleeping[1..];
    WokeNextBlockers(k, v, s, b);
    WokeNextThreads(k, v, s, b);
    ThreadsOfMore(k.blockers, s, b);
    assert k.ready + ThreadsOf(k.blockers, s) + [v.blockers[b].thread]
        == k.ready + (ThreadsOf(k.blockers, s) + [v.blockers[b].thread]);
  }

  lemma WokeNextBlockers(k: Kernel, v: Kernel, s: seq<Bid>, b: Bid)
    requires WokeBlockers(k, v, s) && b in v.blockers && v.blockers[b].result == Pending
    requires v.blockers[b].thread in v.threads
    ensures WokeBlockers(k, Woken(v, v.blockers[b].thread, b, Unblocked), s + [b])
    ensures b in k.blockers && v.blockers[b] == k.blockers[b]
  {
    hide Without;
  }

  lemma WokeNextThreads(k: Kernel, v: Kernel, s: seq<Bid>, b: Bid)
    requires WokeThreads(k, v, s) && b in k.blockers && b in v.blockers && v.blockers[b] == k.blockers[b]
    requires v.blockers[b].thread in v.threads && v.threads[v.blockers[b].thread].state == Blocked
    ensures WokeThreads(k, Woken(v, v.blockers[b].thread, b, Unblocked), s + [b])
  {
    hide ThreadsOf, Without;
    ThreadsOfMore(k.blockers, s, b);
    var t := v.blockers[b].thread;
    assert v.threads[t] == k.threads[t];
  }

  /** The sleepers woken from the head of the list are all that are due if those left are not. */
  lemma WokeAllDue(k: Kernel, w: Kernel, s: seq<Bid>, now: nat)
    requires Woke(k, w, s) && (forall b :: b in s ==> b in w.blockers && w.blockers[b].wakeTime <= now)
    requires forall b :: b in w.sleeping ==> b in w.blockers && w.blockers[b].wakeTime > now
    ensures DueOf(k.blockers, k.sleeping, now) == s
  {
    DueFirst(k.blockers, s, w.sleeping, now);
  }

  // ---------- killing the threads of a process ----------

  /** Waiting on something that an exit of its process interrupts. */
  ghost predicate Interruptible(k: Kernel, u: Tid) {
    WaitsOn(k, u, Interruptable)
  }

  ghost predicate Asleep(k: Kernel, u: Tid) {
    WaitsOn(k, u, Sleep)
  }

  ghost predicate WaitsOn(k: Kernel, u: Tid, kind: Kind) {
    && u in k.threads && k.threads[u].state == Blocked && k.threads[u].blocker.Some?
    && k.threads[u].blocker.value in k.blockers && k.blockers[k.threads[u].blocker.value].kind == kind
  }

  /** The wait an exit of its thread's process ends. */
  ghost predicate EndsWait(k: Kernel, b: Bid, killed: set<Tid>) {
    && b in k.blockers && k.blockers[b].thread in killed && Interruptible(k, k.blockers[b].thread)
    && k.threads[k.blockers[b].thread].blocker == Some(b)
  }

  ghost function KilledRecord(k: Kernel, u: Tid): Thread
    requires u in k.threads
  {
    var x := k.threads[u].(shouldDie := true);
    if Interruptible(k, u) then x.(blocker := None, state := Ready) else x
  }

  ghost function Dropped(s: seq<Tid>, out: set<Tid>): seq<Tid> {
    if s == [] then [] else (if s[0] in out then [] else [s[0]]) + Dropped(s[1..], out)
  }

  /**
   From `k` to `w` exactly the threads `killed` have been told to die. Those ready or asleep are handed over for
   freeing; those in an interruptable wait are interrupted and stand, in any order, behind the ready ones left.
   */
  ghost predicate Killed(k: Kernel, w: Kernel, killed: set<Tid>, tail: seq<Tid>) {
    && w.idle == k.idle && w.running == k.running && KilledThreads(k, w, killed) && KilledBlockers(k, w, killed)
    && w.ready == Dropped(k.ready, killed) + tail && (forall u :: u in tail <==> u in killed && Interruptible(k, u))
    && (forall b :: b in w.sleeping <==> b in k.sleeping && (b in k.blockers ==> k.blockers[b].thread !in killed))
    && k.toFree <= w.toFree
  }

  ghost predicate KilledThreads(k: Kernel, w: Kernel, killed: set<Tid>) {
    && w.threads.Keys == k.threads.Keys
    && (forall u :: u in k.threads ==> w.threads[u] == if u in killed then KilledRecord(k, u) else k.threads[u])
    && (forall u :: u in k.threads && !Current(k, u) ==>
      (Gone(w, u) <==> Gone(k, u) || (u in killed && (k.threads[u].state == Ready || Asleep(k, u)))))
  }

  ghost predicate KilledBlockers(k: Kernel, w: Kernel, killed: set<Tid>) {
    w.blockers.Keys == k.blockers.Keys && forall b :: b in k.blockers ==>
      w.blockers[b] ==
        if EndsWait(k, b, killed) then k.blockers[b].(result := Interrupted, shouldBlock := false) else k.blockers[b]
  }

  /** What the killer does to one other thread. */
  ghost function AfterKill(k: Kernel, u: Tid): Kernel
    requires u in k.threads && k.threads[u].owner in k.processes
  {
    var m := WithThread(k, u, k.threads[u].(shouldDie := true));
    if k.threads[u].state == Ready || Asleep(k, u) then HandedOver(m, u, m.threads[u], false)
    else if Interruptible(k, u) then Woken(m, u, k.threads[u].blocker.value, Interrupted)
    else m
  }

  lemma {:induction false} WithoutConcat<T>(a: seq<T>, b: seq<T>, x: T)
    ensures Without(a + b, x) == Without(a, x) + Without(b, x)
  {
    if a == [] {
      assert a + b == b;
    } else {
      assert (a + b)[1..] == a[1..] + b;
      WithoutConcat(a[1..], b, x);
    }
  }

  lemma {:induction false} DroppedOne(s: seq<Tid>, out: set<Tid>, u: Tid)
    ensures Dropped(s, out + {u}) == Without(Dropped(s, out), u)
  {
    if s != [] {
      DroppedOne(s[1..], out, u);
      if s[0] in out {
        assert Dropped(s, out) == Dropped(s[1..], out);
      } else {
        assert Dropped(s, out)[1..] == Dropped(s[1..], out);
      }
    }
  }

  lemma {:induction false} DroppedIff(s: seq<Tid>, out: set<Tid>, t: Tid)
    ensures t in Dropped(s, out) <==> t in s && t !in out
  {
    if s != [] { DroppedIff(s[1..], out, t); }
  }

  lemma {:induction false} DroppedNone(s: seq<Tid>)
    ensures Dropped(s, {}) == s
  {
    if s != [] { DroppedNone(s[1..]); }
  }

  lemma KilledNobody(k: Kernel)
    ensures Killed(k, k, {}, [])
  {
    DroppedNone(k.ready);
    assert k.ready + [] == k.ready;
  }

  /** What the invariant says of a thread that is not running on the killer's processor. */
  ghost predicate Killable(k: Kernel, u: Tid) {
    && u in k.threads && k.threads[u].owner in k.processes
    && (k.threads[u].blocker.Some? ==> HasBlocker(k, u, k.threads[u].blocker.value))
    && (u in k.ready <==> k.threads[u].state == Ready) && (k.threads[u].state == Ready ==> k.threads[u].blocker == None)
    && (Interruptible(k, u) ==> k.blockers[k.threads[u].blocker.value].result == Pending)
    && (forall a :: a in k.sleeping && a in k.blockers && k.blockers[a].thread == u ==>
      Asleep(k, u) && k.threads[u].blocker == Some(a))
    && (Interruptible(k, u) ==> Without(k.sleeping, k.threads[u].blocker.value) == k.sleeping)
  }

  lemma KillableFacts(k: Kernel, u: Tid)
    requires Killable(k, u)
    ensures u in k.threads && k.threads[u].owner in k.processes && (u in k.ready <==> k.threads[u].state == Ready)
    ensures Asleep(k, u) || Interruptible(k, u) ==>
      k.threads[u].state == Blocked && k.threads[u].blocker.Some? && k.threads[u].blocker.value in k.blockers
    ensures !(Asleep(k, u) && Interruptible(k, u))
    ensures k.threads[u].state == Ready ==> k.threads[u].blocker == None
    ensures Interruptible(k, u) ==> Without(k.sleeping, k.threads[u].blocker.value) == k.sleeping
    ensures Asleep(k, u) ==> Without(k.ready, u) == k.ready
  {
    hide Without;
    if Asleep(k, u) { WithoutAbsent(k.ready, u); }
  }

  lemma AfterKillParts(k: Kernel, u: Tid)
    requires Killable(k, u)
    ensures var w, freed := AfterKill(k, u), k.threads[u].state == Ready || Asleep(k, u);
      && w.idle == k.idle && w.running == k.running && w.threads == k.threads[u := KilledRecord(k, u)]
      && w.dead == k.dead && w.toFree == (if freed then k.toFree + [u] else k.toFree)
      && w.ready ==
        (if freed then Without(k.ready, u) else if Interruptible(k, u) then k.ready + [u] else k.ready)
      && w.sleeping == (if Asleep(k, u) then Without(k.sleeping, k.threads[u].blocker.value) else k.sleeping)
      && w.blockers == if Interruptible(k, u)
        then k.blockers[k.threads[u].blocker.value := Resolved(k.blockers[k.threads[u].blocker.value], Interrupted)]
        else k.blockers
  {
    hide Without, WaitsOn, Killable, NoDuplicates;
    KillableFacts(k, u);
  }

  /** A thread not yet killed waits as it did at the beginning. */
  lemma StillWaits(k: Kernel, v: Kernel, killed: set<Tid>, u: Tid, kind: Kind)
    requires KilledThreads(k, v, killed) && KilledBlockers(k, v, killed) && u in k.threads && u !in killed
    ensures WaitsOn(v, u, kind) <==> WaitsOn(k, u, kind)
  {
  }

  lemma KilledNextThreads(k: Kernel, v: Kernel, w: Kernel, killed: set<Tid>, u: Tid)
    requires KilledThreads(k, v, killed) && u in k.threads && u !in killed
    requires forall kind :: WaitsOn(v, u, kind) <==> WaitsOn(k, u, kind)
    requires w.threads == v.threads[u := KilledRecord(v, u)] && w.dead == v.dead
    requires w.toFree == if v.threads[u].state == Ready || Asleep(v, u) then v.toFree + [u] else v.toFree
    ensures KilledThreads(k, w, killed + {u})
  {
    hide WaitsOn;
  }

  lemma KilledNextBlockers(k: Kernel, v: Kernel, w: Kernel, killed: set<Tid>, u: Tid)
    requires KilledThreads(k, v, killed) && KilledBlockers(k, v, killed) && Killable(v, u) && u !in killed
    requires Interruptible(v, u) <==> Interruptible(k, u)
    requires w.blockers == if Interruptible(v, u)
      then v.blockers[v.threads[u].blocker.value := Resolved(v.blockers[v.threads[u].blocker.value], Interrupted)]
      else v.blockers
    ensures KilledBlockers(k, w, killed + {u})
  {
  }

  /** The ready list loses a ready thread, or gains an interrupted one at the end. */
  lemma KilledNextReady(k: Kernel, v: Kernel, killed: set<Tid>, tail: seq<Tid>, u: Tid)
    requires v.ready == Dropped(k.ready, killed) + tail && u !in killed && u !in tail
    ensures Without(v.ready, u) == Dropped(k.ready, killed + {u}) + tail
    ensures u !in v.ready ==> v.ready == Dropped(k.ready, killed + {u}) + tail
  {
    DroppedOne(k.ready, killed, u);
    WithoutConcat(Dropped(k.ready, killed), tail, u);
    WithoutAbsent(tail, u);
    if u !in v.ready { WithoutAbsent(v.ready, u); }
  }

  lemma KilledNextSleeping(k: Kernel, v: Kernel, w: Kernel, killed: set<Tid>, u: Tid)
    requires KilledBlockers(k, v, killed) && Killable(v, u)
    requires forall b :: b in v.sleeping <==> b in k.sleeping && (b in k.blockers ==> k.blockers[b].thread !in killed)
    requires w.sleeping == if Asleep(v, u) then Without(v.sleeping, v.threads[u].blocker.value) else v.sleeping
    ensures forall b :: b in w.sleeping <==>
      b in k.sleeping && (b in k.blockers ==> k.blockers[b].thread !in killed + {u})
  {
    if Asleep(v, u) { WithoutElements(v.sleeping, v.threads[u].blocker.value); }
  }

  lemma KilledNext(k: Kernel, v: Kernel, killed: set<Tid>, tail: seq<Tid>, u: Tid)
    requires Killed(k, v, killed, tail) && Killable(v, u) && u !in killed
    ensures Killed(k, AfterKill(v, u), killed + {u}, if Interruptible(v, u) then tail + [u] else tail)
  {
    hide Killable, WaitsOn, KilledThreads, KilledBlockers, AfterKill, Dropped, Without, KilledRecord, Gone;
    KillableFacts(v, u);
    AfterKillParts(v, u);
    assert u in k.threads by { SameThreads(k, v, killed); }
    var w := AfterKill(v, u);
    forall kind ensures WaitsOn(v, u, kind) <==> WaitsOn(k, u, kind) { StillWaits(k, v, killed, u, kind); }
    KilledNextThreads(k, v, w, killed, u);
    KilledNextBlockers(k, v, w, killed, u);
    KilledNextReady(k, v, killed, tail, u);
    KilledNextSleeping(k, v, w, killed, u);
    assert Dropped(k.ready, killed + {u}) + tail + [u] == Dropped(k.ready, killed + {u}) + (tail + [u]);
  }

  lemma SameThreads(k: Kernel, w: Kernel, killed: set<Tid>)
    requires KilledThreads(k, w, killed)
    ensures w.threads.Keys == k.threads.Keys
  {
  }

  lemma InvKillable(k: Kernel, c: Cpu, u: Tid)
    requires Inv(k, Some(c)) && c in k.running && u != k.running[c] && u in k.threads && !k.threads[u].idle
    requires Gone(k, u) ==> k.threads[u].state == Dead
    ensures Killable(k, u)
  {
    hide Inv;
    ThreadFacts(k, Some(c), u);
    SleepersOf(k, Some(c), u);
    if Interruptible(k, u) { NotSleeping(k, Some(c), k.threads[u].blocker.value); }
  }

  lemma SleepersOf(k: Kernel, hole: Option<Cpu>, u: Tid)
    requires Inv(k, hole)
    ensures forall a :: a in k.sleeping && a in k.blockers && k.blockers[a].thread == u ==>
      Asleep(k, u) && k.threads[u].blocker == Some(a)
  {
    forall a | a in k.sleeping && a in k.blockers && k.blockers[a].thread == u
      ensures Asleep(k, u) && k.threads[u].blocker == Some(a)
    {
      SleeperFacts(k, hole, a);
    }
  }

  /** The killer handing itself over makes no difference to the others. */
  lemma KilledRetired(k: Kernel, v: Kernel, w: Kernel, killed: set<Tid>, tail: seq<Tid>, t: Tid)
    requires Killed(k, v, killed, tail) && Current(k, t) && w == v.(processes := w.processes, dead := v.dead + [t])
    ensures Killed(k, w, killed, tail)
  {
    assert KilledThreads(k, w, killed) by {
      forall u | u in k.threads && !Current(k, u) ensures Gone(w, u) <==> Gone(v, u) {}
    }
  }

  /** Nor do the process records. */
  lemma KilledProcesses(k: Kernel, processes: map<Pid, Process>, w: Kernel, killed: set<Tid>, tail: seq<Tid>)
    requires Killed(k.(processes := processes), w, killed, tail)
    ensures Killed(k, w, killed, tail)
  {
    var v := k.(processes := processes);
    forall u, kind ensures WaitsOn(v, u, kind) <==> WaitsOn(k, u, kind) {}
    hide WaitsOn;
    assert KilledThreads(k, w, killed) && KilledBlockers(k, w, killed);
  }

  /** The threads the killer goes through are its siblings and itself. */
  lemma SiblingsAre(k: Kernel, t: Tid, todo: set<Tid>)
    requires t in k.threads && !k.threads[t].idle
    requires todo == set u | u in k.threads && k.threads[u].owner == k.threads[t].owner && !k.threads[u].idle
    ensures todo == Siblings(k, t) + {t} && t !in Siblings(k, t) && Siblings(k, t) - todo == {}
  {
  }

  lemma KilledOne(
      k: Kernel, v: Kernel, w: Kernel, others: set<Tid>, todo: set<Tid>, tail: seq<Tid>, t: Tid, u: Tid)
    requires Killed(k, v, others - todo, tail) && u in todo && todo <= others + {t} && t !in others && Current(k, t)
    requires u != t ==> Killable(v, u) && w == AfterKill(v, u)
    requires u == t ==> w == v.(processes := w.processes, dead := v.dead + [t])
    ensures Killed(k, w, others - (todo - {u}), if u != t && Interruptible(v, u) then tail + [u] else tail)
  {
    hide Killed, Killable, AfterKill, Interruptible;
    if u == t {
      assert others - (todo - {u}) == others - todo;
      KilledRetired(k, v, w, others - todo, tail, t);
    } else {
      assert others - (todo - {u}) == others - todo + {u};
      KilledNext(k, v, others - todo, tail, u);
    }
  }

  lemma SiblingsSame(k: Kernel, w: Kernel, t: Tid)
    requires t in k.threads && t in w.threads && w.threads == k.threads[t := w.threads[t]]
    requires w.threads[t].owner == k.threads[t].owner && w.threads[t].idle == k.threads[t].idle
    ensures Siblings(w, t) == Siblings(k, t)
  {
  }

  lemma {:induction false} InsertedIff(blockers: map<Bid, Blocker>, s: seq<Bid>, b: Bid)
    requires b in blockers && forall a :: a in s ==> a in blockers
    ensures forall a :: a in Inserted(blockers, s, b) <==> a in s || a == b
  {
    if s != [] { InsertedIff(blockers, s[1..], b); }
  }

  // ---------- the current thread ----------

  ghost predicate Dying(x: Thread) {
    x.shouldDie && !x.invulnerable
  }

  /** Asks to wait on something that has not happened yet. */
  ghost predicate MustWait(k: Kernel, x: Thread) {
    x.wantsBlock && x.blocker.Some? && x.blocker.value in k.blockers && k.blockers[x.blocker.value].result == Pending
  }

  /** The other threads of a thread's process. */
  ghost function Siblings(k: Kernel, t: Tid): set<Tid>
    requires t in k.threads
  {
    set u | u in k.threads && k.threads[u].owner == k.threads[t].owner && !k.threads[u].idle && u != t
  }

  /** A dying thread is dead, one that must wait is blocked, and one whose wait is over already goes on without it. */
  ghost function SettledRecord(k: Kernel, x: Thread): Thread {
    if Dying(x) then x.(state := Dead)
    else if MustWait(k, x) then x.(state := Blocked, wantsBlock := false)
    else if x.wantsBlock then x.(blocker := None, wantsBlock := false)
    else x
  }

  /** From `k` to `w` the current thread of `c` is killed, with its process or alone, or blocked, or left running. */
  ghost predicate Settles(k: Kernel, w: Kernel, c: Cpu, tail: seq<Tid>) {
    && c in k.running && k.running[c] in k.threads
    && var t := k.running[c];
    var x := k.threads[t];
    && t in w.threads && w.threads[t] == SettledRecord(k, x)
    && if Dying(x) && x.killAll then Killed(WithThread(k, t, x.(state := Dead)), w, Siblings(k, t), tail)
       else SettlesAlone(k, w, t)
  }

  ghost predicate SettlesAlone(k: Kernel, w: Kernel, t: Tid) {
    && t in k.threads && t in w.threads && w.threads == k.threads[t := w.threads[t]] && w.blockers == k.blockers
    && w.idle == k.idle && w.running == k.running && w.ready == k.ready && w.toFree == k.toFree
    && (forall b :: b in k.sleeping ==> b in w.sleeping)
    && (forall b :: b in w.sleeping && b !in k.sleeping ==> k.threads[t].blocker == Some(b))
  }

  /** Process records that differ at most in their counts of threads. */
  ghost predicate SameButCounts(before: map<Pid, Process>, after: map<Pid, Process>) {
    && after.Keys == before.Keys
    && forall p :: p in before ==> after[p].(aliveThreads := 0) == before[p].(aliveThreads := 0)
  }

  lemma CountsRefl(m: map<Pid, Process>)
    ensures SameButCounts(m, m)
  {
  }

  lemma OnlyCounts(k: Kernel, v: Kernel, w: Kernel, u: Tid)
    requires SameButCounts(k.processes, v.processes) && OnlyChanged(v, w, u)
    ensures SameButCounts(k.processes, w.processes)
  {
  }

  /** The killer `t` of process `p` on its way through the threads of the process: `todo` are still to come. */
  ghost predicate KillsOn(k: Kernel, w: Kernel, p: Pid, t: Tid, todo: set<Tid>, tail: seq<Tid>)
    requires t in k.threads
  {
    && ResultsStick(k, w) && Killing(k, w, p, todo) && SameButCounts(k.processes, w.processes)
    && Killed(k, w, Siblings(k, t) - todo, tail) && todo <= Siblings(k, t) + {t}
    && t in w.threads && w.threads[t] == k.threads[t] && (t in todo || Gone(w, t))
    && w.dead == if t in todo then k.dead else k.dead + [t]
  }

  lemma KillsBegin(k: Kernel, p: Pid, t: Tid, todo: set<Tid>)
    requires t in k.threads && !k.threads[t].idle && k.threads[t].owner == p
    requires p in k.processes && k.processes[p].reaped
    requires todo == set u | u in k.threads && k.threads[u].owner == p && !k.threads[u].idle
    ensures KillsOn(k, k, p, t, todo, [])
  {
    hide ResultsStick, Killing, SameButCounts, Killed, Siblings;
    CountsRefl(k.processes);
    KilledNobody(k);
    StickRefl(k);
    SiblingsAre(k, t, todo);
    KillingStart(k, p, todo);
  }

  lemma KillsFacts(k: Kernel, w: Kernel, p: Pid, t: Tid, todo: set<Tid>, tail: seq<Tid>, u: Tid)
    requires t in k.threads && KillsOn(k, w, p, t, todo, tail) && u in todo
    ensures u in k.threads && u in w.threads && w.threads[u] == k.threads[u] && (Gone(w, u) <==> Gone(k, u))
    ensures w.threads[u].owner == p && !w.threads[u].idle && w.running == k.running
    ensures p in w.processes && w.processes[p].reaped
  {
    hide ResultsStick, Killing, SameButCounts, Killed, Siblings;
    KillingFacts(k, w, p, todo, u);
  }

  lemma KillsTurn(k: Kernel, v: Kernel, w: Kernel, p: Pid, t: Tid, todo: set<Tid>, tail: seq<Tid>, u: Tid)
    requires t in k.threads && KillsOn(k, v, p, t, todo, tail) && u in todo && Current(k, t)
    requires OnlyChanged(v, w, u) && ResultsStick(v, w)
    requires u in w.threads && w.threads[u].owner == p && !w.threads[u].idle && Doomed(w, u)
    requires u != t ==> Killable(v, u) && w == AfterKill(v, u) && w.dead == v.dead
    requires u == t ==>
      w == v.(processes := w.processes, dead := v.dead + [t]) && w.threads[u] == v.threads[u] && Gone(w, u)
    ensures KillsOn(k, w, p, t, todo - {u}, if u != t && Interruptible(v, u) then tail + [u] else tail)
  {
    hide ResultsStick, Killing, SameButCounts, Killed, OnlyChanged, Killable, AfterKill, Interruptible, Doomed;
    KilledOne(k, v, w, Siblings(k, t), todo, tail, t, u);
    StickTrans(k, v, w);
    OnlyCounts(k, v, w, u);
    KillingStep(k, v, w, p, todo, u);
    OnlyOthers(v, w, u, t);
  }

  lemma KillsEnd(k: Kernel, w: Kernel, p: Pid, t: Tid, tail: seq<Tid>)
    requires t in k.threads && KillsOn(k, w, p, t, {}, tail)
    ensures ResultsStick(k, w) && SameButCounts(k.processes, w.processes) && Killed(k, w, Siblings(k, t), tail)
    ensures DoomedAll(w, p)
    ensures t in w.threads && w.threads[t] == k.threads[t] && Gone(w, t) && w.dead == k.dead + [t]
  {
    hide ResultsStick, Killing, SameButCounts, Killed, Siblings, Doomed;
    assert Siblings(k, t) - {} == Siblings(k, t);
    AllDoomed(k, w, p);
  }

  /** A process ends with its last thread, or its killer has gone through it; other processes live on as they were. */
  ghost predicate ThreadEnded(before: map<Pid, Process>, after: map<Pid, Process>, p: Pid, killAll: bool) {
    && p in before && p in after
    && SameButCounts(
      before[p := if killAll then before[p].(reaped := true)
        else before[p].(alive := before[p].alive && after[p].aliveThreads > 0)],
      after)
  }

  /** The current thread `t` has ended, alone or with its process. */
  ghost predicate Ended(k: Kernel, w: Kernel, t: Tid, tail: seq<Tid>) {
    && t in k.threads && t in w.threads && w.threads[t] == k.threads[t].(state := Dead)
    && Gone(w, t) && w.dead == k.dead + [t]
    && ThreadEnded(k.processes, w.processes, k.threads[t].owner, k.threads[t].killAll)
    && if k.threads[t].killAll then
         Killed(WithThread(k, t, k.threads[t].(state := Dead)), w, Siblings(k, t), tail)
         && DoomedAll(w, k.threads[t].owner)
       else SettlesAlone(k, w, t)
  }

  ghost predicate DoomedAll(k: Kernel, p: Pid) {
    forall u :: u in k.threads && !k.threads[u].idle && k.threads[u].owner == p ==> Doomed(k, u)
  }

  ghost predicate ProcessesSettle(k: Kernel, w: Kernel, c: Cpu) {
    && c in k.running && k.running[c] in k.threads
    && var x := k.threads[k.running[c]];
    if Dying(x) then ThreadEnded(k.processes, w.processes, x.owner, x.killAll) else w.processes == k.processes
  }

  // ---------- a whole pass ----------

  ghost predicate KillsProcess(k: Kernel, c: Cpu)
    requires c in k.running && k.running[c] in k.threads
  {
    Dying(k.threads[k.running[c]]) && k.threads[k.running[c]].killAll
  }

  /** The threads a pass at `now` wakes from their sleep. */
  ghost function WokenBy(k: Kernel, now: nat): seq<Tid> {
    ThreadsOf(k.blockers, DueOf(k.blockers, k.sleeping, now))
  }

  /**
   `queue` is the ready list the next thread is taken from: the ready threads, then the woken ones, then the current
   one if it goes on. If the current thread ends its process, the others of the process are out, except that those
   interrupted stand at the end.
   */
  ghost predicate QueuedAs(k: Kernel, c: Cpu, now: nat, queue: seq<Tid>)
    requires c in k.running && k.running[c] in k.threads
  {
    var t := k.running[c];
    var x, all := k.threads[t], k.ready + WokenBy(k, now);
    if KillsProcess(k, c) then
      var left := Dropped(all, Siblings(k, t));
      left <= queue && forall u :: u in queue[|left|..] <==> u in Siblings(k, t) && Interruptible(k, u)
    else
      queue == all + if x.idle || Dying(x) || MustWait(k, x) then [] else [t]
  }

  /** What a pass makes of a thread other than the current and the next one. */
  ghost function PassRecord(k: Kernel, c: Cpu, now: nat, u: Tid): Thread
    requires c in k.running && k.running[c] in k.threads && u in k.threads
  {
    var x := if u in WokenBy(k, now) then k.threads[u].(blocker := None, state := Ready) else k.threads[u];
    if !KillsProcess(k, c) || u !in Siblings(k, k.running[c]) then x
    else if Interruptible(k, u) then x.(shouldDie := true, blocker := None, state := Ready)
    else x.(shouldDie := true)
  }

  /** In the middle of a pass on `c`: from `k` to `v` the sleepers due have been woken. */
  ghost predicate WokenUp(k: Kernel, v: Kernel, c: Cpu, now: nat) {
    && Inv(k, Some(c)) && Inv(v, Some(c)) && c in k.running && k.running[c] in k.threads
    && k.threads[k.running[c]].state == Running && Woke(k, v, DueOf(k.blockers, k.sleeping, now))
    && k.running[c] in v.threads && v.threads[k.running[c]] == k.threads[k.running[c]]
  }

  lemma SleeperIs(k: Kernel, hole: Option<Cpu>, b: Bid)
    requires Inv(k, hole) && b in k.sleeping
    ensures b in k.blockers && k.blockers[b].kind == Sleep && k.blockers[b].result == Pending
    ensures var t := k.blockers[b].thread; t in k.threads && k.threads[t].state == Blocked
  {
    hide Inv;
    SleeperFacts(k, hole, b);
  }

  lemma CurrentsBlocker(k: Kernel, c: Cpu, b: Bid)
    requires Inv(k, Some(c)) && c in k.running && k.running[c] in k.threads
    ensures k.threads[k.running[c]].blocker == Some(b) ==> b in k.blockers && k.blockers[b].thread == k.running[c]
  {
    hide Inv;
    CurrentFacts(k, Some(c), c);
  }

  /** What has become of a sleep by the middle of a pass. */
  lemma SleepWoken(k: Kernel, v: Kernel, c: Cpu, now: nat, b: Bid)
    requires WokenUp(k, v, c, now) && b in k.sleeping
    ensures b in k.blockers && b in v.blockers && k.blockers[b].kind == Sleep && k.blockers[b].result == Pending
    ensures k.blockers[b].thread in v.threads && k.blockers[b].thread != k.running[c]
    ensures v.blockers[b].thread == k.blockers[b].thread && v.blockers[b].kind == Sleep
    ensures if k.blockers[b].wakeTime <= now then
              && b !in v.sleeping && v.blockers[b].result == Unblocked
              && v.threads[k.blockers[b].thread].state == Ready && v.threads[k.blockers[b].thread].blocker == None
            else b in v.sleeping && v.blockers[b] == k.blockers[b]
  {
    hide Inv, DueOf, ThreadsOf;
    SleeperIs(k, Some(c), b);
    DueIff(k.blockers, k.sleeping, now, b);
    if k.blockers[b].wakeTime <= now {
      ThreadOfListed(k.blockers, DueOf(k.blockers, k.sleeping, now), b);
      if b in v.sleeping { SleeperIs(v, Some(c), b); }
    }
  }

  /** Settling the current thread leaves every sleep as it is, except that the killed no longer sleep. */
  lemma SleepSettled(v: Kernel, m: Kernel, c: Cpu, tail: seq<Tid>, b: Bid)
    requires Inv(v, Some(c)) && c in v.running && v.running[c] in v.threads && Settles(v, m, c, tail)
    requires b in v.blockers && v.blockers[b].kind == Sleep && v.blockers[b].thread != v.running[c]
    ensures b in m.blockers && m.blockers[b] == v.blockers[b]
    ensures b in m.sleeping <==>
      b in v.sleeping && !(KillsProcess(v, c) && v.blockers[b].thread in Siblings(v, v.running[c]))
    ensures v.blockers[b].thread in v.threads && v.blockers[b].thread in m.threads
    ensures v.threads[v.blockers[b].thread].state == Ready ==> m.threads[v.blockers[b].thread].state == Ready
  {
    hide Inv, Dropped, Killed;
    CurrentsBlocker(v, c, b);
    BlockerThread(v, Some(c), b);
    if KillsProcess(v, c) {
      var t := v.running[c];
      SleepKilled(WithThread(v, t, v.threads[t].(state := Dead)), m, Siblings(v, t), tail, b);
    }
  }

  lemma BlockerThread(k: Kernel, hole: Option<Cpu>, b: Bid)
    requires Inv(k, hole) && b in k.blockers
    ensures k.blockers[b].thread in k.threads
  {
    hide Inv;
    BlockerFacts(k, hole, b);
  }

  lemma SleepKilled(k: Kernel, w: Kernel, killed: set<Tid>, tail: seq<Tid>, b: Bid)
    requires Killed(k, w, killed, tail) && b in k.blockers && k.blockers[b].kind == Sleep
    requires k.blockers[b].thread in k.threads
    ensures b in w.blockers && w.blockers[b] == k.blockers[b]
    ensures b in w.sleeping <==> b in k.sleeping && k.blockers[b].thread !in killed
    ensures k.blockers[b].thread in w.threads
    ensures k.threads[k.blockers[b].thread].state == Ready ==> w.threads[k.blockers[b].thread].state == Ready
  {
    hide Dropped;
  }

  lemma SleepSwitched(m: Kernel, c: Cpu, u: Tid)
    requires c in m.running && m.running[c] in m.threads && c in m.idle && NextThread(m, c) in m.threads
    requires u in m.threads && m.threads[u].state == Ready
    ensures u in Switched(m, c).threads && Switched(m, c).threads[u].state != Blocked
  {
  }

  /** Waking sleepers interrupts nobody. */
  lemma InterruptibleSame(k: Kernel, v: Kernel, c: Cpu, now: nat, u: Tid)
    requires WokenUp(k, v, c, now) && u in k.threads
    ensures u in v.threads && (Interruptible(v, u) <==> Interruptible(k, u))
    ensures u in WokenBy(k, now) ==> Asleep(k, u)
  {
    hide Inv, DueOf, ThreadsOf;
    var due := DueOf(k.blockers, k.sleeping, now);
    if u in ThreadsOf(k.blockers, due) {
      var b := ListedThread(k.blockers, due, u);
      DueIff(k.blockers, k.sleeping, now, b);
      SleepersOf(k, Some(c), u);
    }
  }

  lemma SiblingsWoken(k: Kernel, v: Kernel, c: Cpu, now: nat)
    requires WokenUp(k, v, c, now)
    ensures Siblings(v, k.running[c]) == Siblings(k, k.running[c])
  {
    hide Inv, DueOf, ThreadsOf;
  }

  lemma MustWaitSame(k: Kernel, v: Kernel, c: Cpu, now: nat)
    requires WokenUp(k, v, c, now)
    ensures var x := k.threads[k.running[c]]; MustWait(v, x) <==> MustWait(k, x)
  {
    hide Inv, DueOf, ThreadsOf;
    var x := k.threads[k.running[c]];
    if x.blocker.Some? {
      var b := x.blocker.value;
      CurrentsBlocker(k, c, b);
      DueIff(k.blockers, k.sleeping, now, b);
      if b in k.sleeping { SleeperIs(k, Some(c), b); }
    }
  }

  /** The list the next thread is taken from. */
  lemma QueueOf(k: Kernel, v: Kernel, m: Kernel, c: Cpu, now: nat, tail: seq<Tid>)
    requires WokenUp(k, v, c, now) && Settles(v, m, c, tail)
    ensures c in m.running && m.running[c] in m.threads && QueuedAs(k, c, now, Requeued(m, c))
  {
    hide Inv, DueOf, ThreadsOf, Dropped, MustWait, Siblings, Interruptible, KilledThreads, KilledBlockers, WokeThreads,
      WokeBlockers;
    var t := k.running[c];
    SiblingsWoken(k, v, c, now);
    MustWaitSame(k, v, c, now);
    if KillsProcess(k, c) {
      QueueKilled(k, v, m, c, now, tail);
    }
  }

  lemma QueueKilled(k: Kernel, v: Kernel, m: Kernel, c: Cpu, now: nat, tail: seq<Tid>)
    requires WokenUp(k, v, c, now) && KillsProcess(k, c)
    requires var t := k.running[c]; Killed(WithThread(v, t, v.threads[t].(state := Dead)), m, Siblings(v, t), tail)
    ensures QueuedAs(k, c, now, m.ready)
  {
    hide Inv, DueOf, ThreadsOf, Dropped, Interruptible, KilledThreads, KilledBlockers, WokeThreads, WokeBlockers;
    var t := k.running[c];
    var w := WithThread(v, t, v.threads[t].(state := Dead));
    SiblingsWoken(k, v, c, now);
    forall u | u in Siblings(k, t) ensures Interruptible(w, u) <==> Interruptible(k, u) {
      InterruptibleSame(k, v, c, now, u);
      InterruptibleElse(v, t, w.threads[t], u);
    }
    var left := Dropped(k.ready + WokenBy(k, now), Siblings(k, t));
    assert m.ready == left + tail;
    assert m.ready[|left|..] == tail;
  }

  lemma InterruptibleElse(k: Kernel, t: Tid, x: Thread, u: Tid)
    requires u in k.threads && u != t
    ensures Interruptible(WithThread(k, t, x), u) <==> Interruptible(k, u)
  {
  }

  /** The record of a thread that is not current when the next one is taken. */
  lemma RecordOf(k: Kernel, v: Kernel, m: Kernel, c: Cpu, now: nat, tail: seq<Tid>, u: Tid)
    requires WokenUp(k, v, c, now) && Settles(v, m, c, tail) && u in k.threads && u != k.running[c]
    ensures u in m.threads && m.threads[u] == PassRecord(k, c, now, u)
  {
    hide Inv, DueOf, ThreadsOf, Dropped, MustWait, Siblings, WaitsOn, KilledBlockers, WokeBlockers;
    var t := k.running[c];
    SiblingsWoken(k, v, c, now);
    InterruptibleSame(k, v, c, now, u);
    InterruptibleElse(v, t, v.threads[t].(state := Dead), u);
  }

  lemma TakesFirst(m: Kernel, c: Cpu)
    requires c in m.running && m.running[c] in m.threads && c in m.idle && NextThread(m, c) in m.threads
    ensures var w, q := Switched(m, c), Requeued(m, c);
      && w.running == m.running[c := if q == [] then m.idle[c] else q[0]] && w.ready == (if q == [] then [] else q[1..])
      && w.blockers == m.blockers && w.sleeping == m.sleeping && w.toFree == m.toFree
      && forall u :: u in m.threads && u != m.running[c] ==>
        u in w.threads && w.threads[u] == if u == w.running[c] then m.threads[u].(state := Running) else m.threads[u]
  {
  }

  /** Threads already handed over play no part in a pass. */
  lemma PassIgnoresDead(k: Kernel, j: Kernel, c: Cpu, now: nat, queue: seq<Tid>)
    requires c in k.running && k.running[c] in k.threads && j == k.(dead := j.dead, toFree := j.toFree)
    requires QueuedAs(j, c, now, queue)
    ensures QueuedAs(k, c, now, queue)
    ensures forall u :: u in k.threads ==> PassRecord(j, c, now, u) == PassRecord(k, c, now, u)
  {
    forall u ensures Interruptible(j, u) <==> Interruptible(k, u) {}
    assert Siblings(j, k.running[c]) == Siblings(k, k.running[c]);
    hide WaitsOn, Dropped, Siblings;
  }

  /** A sleeper that is due is awake after the pass; any other sleep goes on, unless its thread's process is ended. */
  ghost predicate SleepPassed(k: Kernel, w: Kernel, c: Cpu, now: nat, b: Bid)
    requires c in k.running && k.running[c] in k.threads
  {
    && b in k.blockers && b in w.blockers && k.blockers[b].thread in k.threads && k.blockers[b].thread in w.threads
    && if k.blockers[b].wakeTime <= now then
         b !in w.sleeping && w.blockers[b].result == Unblocked && w.threads[k.blockers[b].thread].state != Blocked
       else
         && w.blockers[b] == k.blockers[b] && w.blockers[b].result == Pending
         && (b in w.sleeping <==> !(KillsProcess(k, c) && k.blockers[b].thread in Siblings(k, k.running[c])))
  }

  lemma SleepIs(k: Kernel, v: Kernel, m: Kernel, c: Cpu, now: nat, tail: seq<Tid>, b: Bid)
    requires WokenUp(k, v, c, now) && Settles(v, m, c, tail) && b in k.sleeping
    requires c in m.running && m.running[c] in m.threads && c in m.idle && NextThread(m, c) in m.threads
    ensures SleepPassed(k, Switched(m, c), c, now, b)
  {
    hide Inv, DueOf, ThreadsOf, Dropped, MustWait, Siblings, WaitsOn, Killed, Switched, NextThread, SettlesAlone;
    SleepWoken(k, v, c, now, b);
    SiblingsWoken(k, v, c, now);
    SleepSettled(v, m, c, tail, b);
    SleepKeptBySwitch(m, c);
    var u := k.blockers[b].thread;
    if m.threads[u].state == Ready { SleepSwitched(m, c, u); }
    BlockerThread(k, Some(c), b);
    assert u in Switched(m, c).threads by { SwitchedKeys(m, c); }
  }

  lemma SleepKeptBySwitch(m: Kernel, c: Cpu)
    requires c in m.running && m.running[c] in m.threads && c in m.idle && NextThread(m, c) in m.threads
    ensures Switched(m, c).blockers == m.blockers && Switched(m, c).sleeping == m.sleeping
  {
  }

  lemma CurrentSwitched(m: Kernel, c: Cpu)
    requires c in m.running && m.running[c] in m.threads && c in m.idle && NextThread(m, c) in m.threads
    ensures var w, t := Switched(m, c), m.running[c];
      && w.running.Keys == m.running.Keys && w.idle == m.idle && t in w.threads && w.blockers == m.blockers
      && w.dead == m.dead && w.toFree == m.toFree
      && w.threads[t] ==
        (if m.threads[t].state == Running && w.running[c] != t then m.threads[t].(state := Ready) else m.threads[t])
  {
  }

  lemma SwitchedKeys(m: Kernel, c: Cpu)
    requires c in m.running && m.running[c] in m.threads && c in m.idle && NextThread(m, c) in m.threads
    ensures Switched(m, c).threads.Keys == m.threads.Keys
  {
  }

  /**
   A pass as a whole: what becomes of the sleepers, which thread runs next and from which list it is taken, and the
   records of all threads.
   */
  ghost predicate Passed(k: Kernel, w: Kernel, c: Cpu, now: nat, queue: seq<Tid>)
    requires c in k.running && k.running[c] in k.threads
  {
    && (forall b :: b in k.sleeping ==> SleepPassed(k, w, c, now, b))
    && QueuedAs(k, c, now, queue) && c in k.idle
    && w.running == k.running[c := if queue == [] then k.idle[c] else queue[0]]
    && w.ready == (if queue == [] then [] else queue[1..])
    && (forall u :: u in k.threads && u != k.running[c] ==>
      && u in w.threads
      && w.threads[u] ==
        (if u == w.running[c] then PassRecord(k, c, now, u).(state := Running) else PassRecord(k, c, now, u)))
    && (var t := k.running[c]; var x := SettledRecord(k, k.threads[t]);
      t in w.threads && w.threads[t] == if x.state == Running && w.running[c] != t then x.(state := Ready) else x)
    && k.toFree <= w.toFree
  }

  lemma PassIs(k: Kernel, v: Kernel, m: Kernel, c: Cpu, now: nat, tail: seq<Tid>)
    requires WokenUp(k, v, c, now) && Settles(v, m, c, tail)
    requires c in m.running && m.running[c] in m.threads && c in m.idle && NextThread(m, c) in m.threads
    ensures Passed(k, Switched(m, c), c, now, Requeued(m, c))
  {
    hide Inv, DueOf, ThreadsOf, Dropped, MustWait, Siblings, WaitsOn, Switched, NextThread, SleepPassed, QueuedAs,
      PassRecord, Requeued, KilledThreads, KilledBlockers, WokeThreads, WokeBlockers;
    var w := Switched(m, c);
    forall b | b in k.sleeping ensures SleepPassed(k, w, c, now, b) { SleepIs(k, v, m, c, now, tail, b); }
    QueueOf(k, v, m, c, now, tail);
    TakesFirst(m, c);
    CurrentSwitched(m, c);
    MustWaitSame(k, v, c, now);
    forall u | u in k.threads && u != k.running[c] ensures u in m.threads && m.threads[u] == PassRecord(k, c, now, u) {
      RecordOf(k, v, m, c, now, tail, u);
    }
  }

  lemma PassFrees(k: Kernel, w: Kernel, c: Cpu, now: nat, queue: seq<Tid>)
    requires c in k.running && k.running[c] in k.threads && Passed(k, w, c, now, queue)
    ensures k.toFree <= w.toFree
  {
  }

  /** A pass begins by handing the dead over; that is no different from their having been handed over before. */
  lemma PassAfterFreeing(k: Kernel, j: Kernel, w: Kernel, c: Cpu, now: nat, queue: seq<Tid>)
    requires c in k.running && k.running[c] in k.threads && j == k.(dead := j.dead, toFree := j.toFree)
    requires Passed(j, w, c, now, queue) && k.toFree <= j.toFree
    ensures Passed(k, w, c, now, queue)
  {
    PassIgnoresDead(k, j, c, now, queue);
    assert Siblings(j, k.running[c]) == Siblings(k, k.running[c]);
    hide QueuedAs, PassRecord, Siblings;
    forall b | b in k.sleeping ensures SleepPassed(k, w, c, now, b) { assert SleepPassed(j, w, c, now, b); }
  }

  // ---------- nobody ready is passed over ----------

  lemma {:induction false} DroppedIndex(s: seq<Tid>, out: set<Tid>, i: nat) returns (j: nat)
    requires i < |s| && s[i] !in out
    ensures j <= i && j < |Dropped(s, out)| && Dropped(s, out)[j] == s[i]
  {
    if i == 0 {
      j := 0;
    } else {
      j := DroppedIndex(s[1..], out, i - 1);
      if s[0] !in out { j := j + 1; }
    }
  }

  lemma QueuedIndex(k: Kernel, c: Cpu, now: nat, queue: seq<Tid>, i: nat) returns (j: nat)
    requires c in k.running && k.running[c] in k.threads && QueuedAs(k, c, now, queue) && i < |k.ready|
    requires !(KillsProcess(k, c) && k.ready[i] in Siblings(k, k.running[c]))
    ensures j <= i && j < |queue| && queue[j] == k.ready[i]
  {
    hide Siblings, Interruptible, WokenBy, MustWait;
    var all := k.ready + WokenBy(k, now);
    if KillsProcess(k, c) {
      j := DroppedIndex(all, Siblings(k, k.running[c]), i);
    } else {
      j := i;
    }
  }

  /** With every pass, on any processor, a ready thread runs or stands nearer the head, unless its process is ended. */
  lemma MovesUp(k: Kernel, w: Kernel, c: Cpu, now: nat, queue: seq<Tid>, i: nat)
    requires c in k.running && k.running[c] in k.threads && Passed(k, w, c, now, queue) && i < |k.ready|
    requires !(KillsProcess(k, c) && k.ready[i] in Siblings(k, k.running[c]))
    ensures c in w.running
    ensures w.running[c] == k.ready[i] || exists j: nat :: j < i && j < |w.ready| && w.ready[j] == k.ready[i]
  {
    hide QueuedAs, SleepPassed, PassRecord, SettledRecord, Siblings, KillsProcess;
    var j := QueuedIndex(k, c, now, queue, i);
    if j > 0 { assert w.ready[j - 1] == k.ready[i]; }
  }
}
