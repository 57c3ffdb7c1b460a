/** The scheduler's locked sections as methods over its fields. */
module Schedulers {
  import opened Common
  import opened DistinctLists
  import opened SchedulerState
  import opened SchedulerSteps
  import opened SchedulerPasses

  class Scheduler {
    var threads: map<Tid, Thread>
    var blockers: map<Bid, Blocker>
    var processes: map<Pid, Process>
    var idle: map<Cpu, Tid>
    var running: map<Cpu, Tid>
    var ready: seq<Tid>
    var sleeping: seq<Bid>
    var dead: seq<Tid>
    var toFree: seq<Tid>

    ghost function K(): Kernel
      reads this
    {
      Kernel(threads, blockers, processes, idle, running, ready, sleeping, dead, toFree)
    }

    /** No two dead threads ever wait to be freed: every pass frees the last one before it may add another. */
    ghost predicate Valid()
      reads this
    {
      Inv(K(), None) && |dead| <= 1
    }

    /** A machine whose processors each run their own idle thread. */
    constructor (cpus: set<Cpu>)
      ensures Valid() && ready == [] && sleeping == [] && dead == [] && toFree == [] && blockers == map[]
      ensures running.Keys == cpus && idle == running && threads.Keys == running.Values
      ensures forall t :: t in threads ==> threads[t] == Thread(0, true, Running, false, None, false, false, false)
      ensures processes == map[0 := Process(true, true, 0, false)]
    {
      var home: map<Cpu, Tid> := map c | c in cpus :: c;
      threads := map t | t in cpus :: Thread(0, true, Running, false, None, false, false, false);
      blockers, processes := map[], map[0 := Process(true, true, 0, false)];
      idle, running := home, home;
      ready, sleeping, dead, toFree := [], [], [], [];
      new;
      assert Live(K(), 0) == {};
      assert ProcessOk(K(), 0);
    }

    // ---------- processes and threads ----------

    /** A new thread of `p` enters the ready list and the count. */
    method Enroll(t: Tid)
      requires Valid() && t in threads && !threads[t].idle && threads[t].state == Undefined
      requires threads[t].owner in processes
      modifies `threads, `processes, `ready
      ensures Valid() && K() == Enrolled(old(K()), t)
    {
      hide Inv;
      var p := threads[t].owner;
      EnrollKeeps(K(), None, t);
      threads := threads[t := threads[t].(state := Ready)];
      processes := processes[p := processes[p].(aliveThreads := processes[p].aliveThreads + 1)];
      ready := ready + [t];
    }

    /** Process::create_thread up to the registration: the thread exists but is in no list. */
    method CreateThread(t: Tid, p: Pid)
      requires Valid() && t !in threads && p in processes && !processes[p].idle
      modifies `threads
      ensures Valid() && threads == old(threads)[t := Thread(p, false, Undefined, false, None, false, false, false)]
    {
      hide Inv;
      AddThreadKeeps(K(), None, t, p);
      threads := threads[t := NewThread(p)];
    }

    /** All threads of the new process become ready, in order, and are counted. */
    method RegisterProcess(p: Pid, created: seq<Tid>)
      requires Valid() && p !in processes && NoDuplicates(created) && forall t :: t in created ==> t !in threads
      modifies `threads, `processes, `ready
      ensures Valid() && Registered(old(K()), K(), p, created)
    {
      hide Inv, Registered;
      ghost var k := K();
      AddProcessKeeps(K(), None, p);
      processes := processes[p := NEW_PROCESS];
      RegisteredNone(k, p);
      var i := 0;
      while i < |created|
        invariant 0 <= i <= |created| && Valid() && Registered(k, K(), p, created[..i])
      {
        ghost var v := K();
        RegisteredFacts(k, v, p, created, i);
        CreateThread(created[i], p);
        Enroll(created[i]);
        RegisteredNext(k, v, p, created[..i], created[i]);
        assert created[..i + 1] == created[..i] + [created[i]];
        i := i + 1;
      }
      assert created[..i] == created;
    }

    /** A thread of a process that has begun to exit is freed at once and never counted. */
    method RegisterThread(t: Tid) returns (registered: bool)
      requires Valid() && t in threads && !threads[t].idle && threads[t].state == Undefined
      requires threads[t].owner in processes
      modifies `threads, `processes, `ready, `toFree
      ensures Valid() && registered == old(processes)[old(threads)[t].owner].alive
      ensures registered ==> K() == Enrolled(old(K()), t)
      ensures !registered ==> ready == old(ready) && processes == old(processes) && toFree == old(toFree) + [t]
      ensures !registered ==> threads == old(threads)[t := old(threads)[t].(shouldDie := true, state := Dead)]
    {
      hide Inv;
      if !processes[threads[t].owner].alive {
        var x := threads[t].(shouldDie := true, state := Dead);
        ghost var k := K();
        ThreadFacts(k, None, t);
        NotListed(k, None, t);
        CanHandOverAs(k, None, t, x, false);
        HandOverKeeps(k, None, t, x, false);
        assert processes[x.owner := processes[x.owner]] == processes;
        threads := threads[t := x];
        toFree := toFree + [t];
        assert K() == HandedOver(k, t, x, false);
        return false;
      }
      Enroll(t);
      return true;
    }

    /** The running thread asks to end. */
    method ExitThread(c: Cpu)
      requires Valid() && c in running && running[c] in threads && !threads[running[c]].idle
      modifies `threads
      ensures Valid() && threads == old(threads)[running[c] := old(threads)[running[c]].(shouldDie := true)]
    {
      hide Inv;
      MarkForDeath(running[c], None);
    }

    /** The running thread asks to end its process: only the first to ask becomes the killer. */
    method ExitProcess(c: Cpu)
      requires Valid() && c in running && running[c] in threads && !threads[running[c]].idle
      requires threads[running[c]].owner in processes
      modifies `threads, `processes
      ensures Valid()
      ensures running[c] in threads && threads[running[c]].shouldDie && threads[running[c]].owner in processes
      ensures !processes[threads[running[c]].owner].alive
      ensures threads == old(threads)[running[c] := old(threads)[running[c]].(shouldDie := true,
        killAll := old(threads[running[c]].killAll || processes[threads[running[c]].owner].alive))]
      ensures var p := threads[running[c]].owner; processes == old(processes)[p := old(processes)[p].(alive := false)]
    {
      hide Inv;
      var t := running[c];
      var p := threads[t].owner;
      if processes[p].alive {
        CurrentFacts(K(), None, c);
        AliveNotReaped(K(), None, p);
        KillerKeeps(K(), None, t);
        processes := processes[p := processes[p].(alive := false)];
        threads := threads[t := threads[t].(killAll := true, shouldDie := true)];
      } else {
        MarkForDeath(t, None);
      }
    }

    method SetInvulnerable(c: Cpu, value: bool)
      requires Valid() && c in running && running[c] in threads && !threads[running[c]].idle
      modifies `threads
      ensures Valid() && threads == old(threads)[running[c] := old(threads)[running[c]].(invulnerable := value)]
    {
      hide Inv;
      var x := threads[running[c]].(invulnerable := value);
      CurrentFacts(K(), None, c);
      RecordKeeps(K(), None, running[c], x);
      threads := threads[running[c] := x];
    }

    // ---------- blocking and unblocking ----------

    /** The running thread of processor `c` makes a blocker; it has no other unresolved one. */
    method NewBlocker(c: Cpu, b: Bid, kind: Kind, wakeTime: nat)
      requires c in running && running[c] in threads && !threads[running[c]].idle && b !in blockers
      requires forall a :: PendingFor(K(), a) ==> blockers[a].thread != running[c]
      requires Valid()
      modifies `blockers
      ensures Valid() && ResultsStick(old(K()), K())
      ensures blockers == old(blockers)[b := Blocker(running[c], kind, wakeTime, Pending, true)]
    {
      hide Inv;
      AddBlockerKeeps(K(), None, b, running[c], kind, wakeTime);
      blockers := blockers[b := Blocker(running[c], kind, wakeTime, Pending, true)];
    }

    /** Thread::block: the thread has no blocker yet, as the kernel asserts. */
    method BeginBlock(c: Cpu, b: Bid)
      requires Valid() && c in running && running[c] in threads && b in blockers && blockers[b].thread == running[c]
      requires !threads[running[c]].wantsBlock
      modifies `threads
      ensures Valid() && threads[running[c]].blocker == Some(b) && threads[running[c]].wantsBlock
      ensures K() == WithThread(old(K()), running[c], threads[running[c]])
    {
      hide Inv;
      var t := running[c];
      BlockerFacts(K(), None, b);
      CurrentFacts(K(), None, c);
      assert threads[t].blocker == None;
      var x := threads[t].(blocker := Some(b), wantsBlock := true);
      RecordKeeps(K(), None, t, x);
      threads := threads[t := x];
    }

    /** Scheduler::unblock_unchecked and Thread::unblock: the thread is woken from whatever it waits on. */
    method UnblockUnchecked(b: Bid)
      requires CanUnblock(K(), b)
      modifies `threads, `blockers, `ready
      ensures K() == AfterUnblock(old(K()), b)
    {
      var t := blockers[b].thread;
      if threads[t].state != Blocked {
        blockers := blockers[b := Resolved(blockers[b], Unblocked)];
        return;
      }
      var own := threads[t].blocker.value;
      blockers := blockers[own := Resolved(blockers[own], Unblocked)];
      threads := threads[t := threads[t].(blocker := None, state := Ready)];
      ready := ready + [t];
    }

    /**
     The locked part of Blocker::unblock, whatever happened since the caller saw the blocker unresolved.
     Afterwards the blocker is resolved and its thread waits on nothing. The invariant survives unless this ended
     a sleep, which takes an unblock of a sleep or a late unblock of a blocker already resolved.
     */
    method Unblock(b: Bid)
      requires Valid() && b in blockers
      modifies `threads, `blockers, `ready
      ensures CanUnblock(old(K()), b) && K() == AfterUnblock(old(K()), b) && ResultsStick(old(K()), K())
      ensures b in blockers && blockers[b].result != Pending
      ensures var t := old(blockers)[b].thread; t in threads && threads[t].state != Blocked
      ensures Valid() <==> !(Wakes(old(K()), b) && old(blockers)[OwnBlocker(old(K()), b)].kind == Sleep)
      ensures Wakes(old(K()), b) ==> (OwnBlocker(old(K()), b) == b <==> old(blockers)[b].result == Pending)
    {
      hide Inv, ResultsStick;
      UnblockFacts(K(), b);
      UnblockResolves(K(), b);
      UnblockKeepsIff(K(), b);
      if Wakes(K(), b) { UnblockHitsOwnIff(K(), b); }
      UnblockUnchecked(b);
    }

    // ---------- picking the next thread ----------

    /**
     The loop advances its iterator twice a turn over a circular list, so of two dead threads it would leave one;
     of at most one it leaves none.
     */
    method FreeDeferredThreads(ghost hole: Option<Cpu>)
      requires Inv(K(), hole)
      modifies `dead, `toFree
      ensures Inv(K(), hole) && |toFree| + |dead| == old(|toFree| + |dead|)
      ensures old(|dead|) <= 1 ==> dead == [] && toFree == old(toFree) + old(dead)
      ensures old(|dead|) == 2 ==> dead == [old(dead)[1]] && toFree == old(toFree) + [old(dead)[0]]
    {
      hide Inv;
      var i := 0;
      while i < |dead|
        invariant 0 <= i <= |dead| && Inv(K(), hole) && |toFree| + |dead| == old(|toFree| + |dead|)
        invariant dead == old(dead) ==> i == 0 && toFree == old(toFree)
        invariant |dead| + 1 == old(|dead|) ==> i == (if dead == [] then 0 else 1)
        invariant |dead| + 1 == old(|dead|) ==> toFree == old(toFree) + [old(dead)[0]] && dead == old(dead)[1..]
        invariant old(|dead|) <= 2 ==> |dead| + 1 >= old(|dead|)
        invariant |dead| < old(|dead|) || dead == old(dead)
        decreases |dead|
      {
        ReleaseKeeps(K(), hole, i);
        toFree := toFree + [dead[i]];
        dead := dead[..i] + dead[i + 1..];
        i := if i == |dead| then 0 else i + 1;
      }
    }

    /** Wakes every sleeper whose time has come; stopping at the first later one misses none. */
    method WakeReadyThreads(c: Cpu, now: nat)
      requires Inv(K(), Some(c)) && c in running && running[c] in threads && threads[running[c]].state == Running
      modifies `threads, `blockers, `ready, `sleeping
      ensures Inv(K(), Some(c)) && ResultsStick(old(K()), K())
      ensures running[c] in threads && threads[running[c]] == old(threads)[running[c]]
      ensures forall b :: b in sleeping ==> b in blockers && blockers[b].wakeTime > now
      ensures Woke(old(K()), K(), DueOf(old(blockers), old(sleeping), now))
    {
      hide Inv, ResultsStick, Woke, DueOf;
      ghost var due: seq<Bid> := [];
      StickRefl(K());
      WokeNobody(K());
      while sleeping != [] && IsDue(now)
        invariant Inv(K(), Some(c)) && ResultsStick(old(K()), K())
        invariant running[c] in threads && threads[running[c]] == old(threads)[running[c]]
        invariant Woke(old(K()), K(), due) && forall b :: b in due ==> b in blockers && blockers[b].wakeTime <= now
        decreases |sleeping|
      {
        FirstSleeper(K(), c);
        ghost var k := K();
        var b := sleeping[0];
        WokenSticks(k, blockers[b].thread, b, Unblocked);
        WakeKeeps(k, Some(c), blockers[b].thread, b, Unblocked);
        WokeNext(old(K()), k, due, b);
        sleeping := sleeping[1..];
        UnblockUnchecked(b);
        StickTrans(old(K()), k, K());
        due := due + [b];
      }
      if sleeping != [] {
        FirstSleeper(K(), c);
      }
      WokeAllDue(old(K()), K(), due, now);
    }

    predicate IsDue(now: nat)
      requires sleeping != []
      reads this
    {
      sleeping[0] in blockers && blockers[sleeping[0]].wakeTime <= now
    }

    /** What the current thread asked for: to block, unless its blocker has been resolved already. */
    method HandleRequest(c: Cpu)
      requires Inv(K(), Some(c)) && c in running && running[c] in threads && threads[running[c]].state == Running
      requires threads[running[c]].wantsBlock && !threads[running[c]].idle
      modifies `threads, `sleeping
      ensures Inv(K(), Some(c)) && running[c] in threads && !threads[running[c]].wantsBlock
      ensures var x := old(threads)[running[c]];
        && x.blocker.Some? && x.blocker.value in blockers
        && threads == old(threads)[running[c] :=
          if blockers[x.blocker.value].result == Pending then x.(state := Blocked, wantsBlock := false)
          else x.(blocker := None, wantsBlock := false)]
        && (forall b :: b in old(sleeping) ==> b in sleeping)
        && (forall b :: b in sleeping && b !in old(sleeping) ==> x.blocker == Some(b))
    {
      hide Inv;
      var t := running[c];
      CurrentFacts(K(), Some(c), c);
      var b := threads[t].blocker.value;
      BlockerFacts(K(), Some(c), b);
      if blockers[b].shouldBlock {
        BlockKeeps(K(), c, t, b);
        threads := threads[t := threads[t].(state := Blocked, wantsBlock := false)];
        if blockers[b].kind == Sleep {
          InsertedIff(blockers, sleeping, b);
          sleeping := Inserted(blockers, sleeping, b);
        }
      } else {
        var x := threads[t].(blocker := None, wantsBlock := false);
        RecordKeeps(K(), Some(c), t, x);
        threads := threads[t := x];
      }
    }

    /** Leaves the current thread for the next one; the next one is ready whenever it differs. */
    method Dispatch(c: Cpu)
      requires Inv(K(), Some(c)) && Settled(K(), c)
      modifies `threads, `ready, `running
      ensures Inv(K(), None) && NextThread(old(K()), c) in old(threads) && K() == Switched(old(K()), c)
    {
      hide Inv;
      var t := running[c];
      SwitchKeeps(K(), c);
      CurrentFacts(K(), Some(c), c);
      assert threads[t := threads[t]] == threads;
      if threads[t].state == Running && t != idle[c] {
        ready := ready + [t];
      }
      var next;
      if ready == [] {
        next := idle[c];
      } else {
        next := ready[0];
        ready := ready[1..];
      }
      if t != next {
        if threads[t].state == Running {
          threads := threads[t := threads[t].(state := Ready)];
        }
        assert threads[next].state == Ready;
        threads := threads[next := threads[next].(state := Running)];
        running := running[c := next];
      }
    }

    // ---------- killing ----------

    /** The dying current thread goes to the dead list; its process ends with its last thread. */
    method RetireCurrent(c: Cpu)
      requires Inv(K(), Some(c)) && c in running && running[c] in threads && !threads[running[c]].idle
      requires threads[running[c]].state == Dead && !Gone(K(), running[c]) && threads[running[c]].owner in processes
      modifies `processes, `dead
      ensures Inv(K(), Some(c)) && dead == old(dead) + [running[c]]
      ensures old(processes)[threads[running[c]].owner].aliveThreads > 0
      ensures processes == WithAlive(old(K()), threads[running[c]].owner, -1).processes
    {
      hide Inv;
      var t := running[c];
      var p := threads[t].owner;
      CurrentFacts(K(), Some(c), c);
      CurrentNotListed(K(), c);
      AliveIsCounted(K(), Some(c), t);
      CanHandOverAs(K(), Some(c), t, threads[t], true);
      HandOverKeeps(K(), Some(c), t, threads[t], true);
      assert threads[t := threads[t]] == threads;
      processes := processes[p := processes[p].(aliveThreads := processes[p].aliveThreads - 1)];
      dead := dead + [t];
    }

    /** A thread that can never run again, asleep or ready, goes straight to the freeing list. */
    method FreeThread(c: Cpu, u: Tid)
      requires Inv(K(), Some(c)) && u in threads && !threads[u].idle && !Gone(K(), u) && threads[u].owner in processes
      requires !Current(K(), u) && processes[threads[u].owner].reaped
      requires (threads[u].state == Ready || DeadSleeper(K(), u))
      modifies `processes, `ready, `sleeping, `toFree
      ensures Inv(K(), Some(c)) && OnlyChanged(old(K()), K(), u)
      ensures K() == HandedOver(old(K()), u, old(threads)[u], false)
    {
      hide Inv, Threads, ThreadOk, CanHandOver, OnlyChanged;
      var p := threads[u].owner;
      ghost var k := K();
      AliveIsCounted(k, Some(c), u);
      assert Threads(k, Some(c)) by { InvThreads(k, Some(c)); }
      ReadyOrAsleep(k, Some(c), u);
      CanHandOverAs(k, Some(c), u, threads[u], false);
      HandOverKeeps(k, Some(c), u, threads[u], false);
      HandedOnly(k, u);
      assert threads[u := threads[u]] == threads;
      processes := processes[p := processes[p].(aliveThreads := processes[p].aliveThreads - 1)];
      if threads[u].state == Ready {
        ready := Without(ready, u);
      } else {
        sleeping := Without(sleeping, threads[u].blocker.value);
      }
      toFree := toFree + [u];
      assert K() == HandedOver(k, u, threads[u], false);
    }

    method MarkForDeath(u: Tid, ghost hole: Option<Cpu>)
      requires Inv(K(), hole) && u in threads && !threads[u].idle
      modifies `threads
      ensures Inv(K(), hole) && threads == old(threads)[u := old(threads)[u].(shouldDie := true)]
    {
      hide Inv;
      ThreadFacts(K(), hole, u);
      var x := threads[u].(shouldDie := true);
      RecordKeeps(K(), hole, u, x);
      threads := threads[u := x];
    }

    /** Thread::interrupt on an interruptable blocker, and the thread back on the ready list. */
    method InterruptThread(u: Tid, b: Bid, ghost hole: Option<Cpu>)
      requires Inv(K(), hole) && CanWake(K(), hole, u, b) && blockers[b].kind == Interruptable
      modifies `threads, `blockers, `ready
      ensures Inv(K(), hole) && ResultsStick(old(K()), K()) && OnlyChanged(old(K()), K(), u)
      ensures K() == Woken(old(K()), u, b, Interrupted)
    {
      hide Inv;
      NotSleeping(K(), hole, b);
      WakeKeeps(K(), hole, u, b, Interrupted);
      WokenSticks(K(), u, b, Interrupted);
      blockers := blockers[b := Resolved(blockers[b], Interrupted)];
      threads := threads[u := threads[u].(blocker := None, state := Ready)];
      ready := ready + [u];
    }

    /** The process killer's treatment of another thread of its process. */
    method KillOther(c: Cpu, u: Tid)
      requires Inv(K(), Some(c)) && c in running && u != running[c] && u in threads && !threads[u].idle
      requires threads[u].owner in processes && processes[threads[u].owner].reaped
      requires Gone(K(), u) ==> threads[u].state == Dead
      modifies `threads, `blockers, `processes, `ready, `sleeping, `toFree
      ensures Inv(K(), Some(c)) && ResultsStick(old(K()), K()) && OnlyChanged(old(K()), K(), u)
      ensures Doomed(K(), u) && threads[u].owner == old(threads)[u].owner && !threads[u].idle
      ensures K() == AfterKill(old(K()), u)
    {
      hide Inv, ThreadOk, OnlyChanged, ResultsStick, Without;
      MarkedOnly(K(), u, threads[u].(shouldDie := true));
      MarkForDeath(u, Some(c));
      ghost var k := K();
      if threads[u].state == Blocked {
        BlockedFacts(k, Some(c), u);
        var b := threads[u].blocker.value;
        if blockers[b].kind == Sleep {
          FreeThread(c, u);
          StickSame(k, K());
          OnlyTrans(old(K()), k, K(), u);
          StickTrans(old(K()), k, K());
        } else if blockers[b].kind == Interruptable {
          InterruptThread(u, b, Some(c));
          OnlyTrans(old(K()), k, K(), u);
          StickTrans(old(K()), k, K());
        }
      } else if threads[u].state == Ready {
        NotCurrent(k, Some(c), u);
        FreeThread(c, u);
        StickSame(k, K());
        OnlyTrans(old(K()), k, K(), u);
        StickTrans(old(K()), k, K());
      }
    }

    /** One thread of the killer's process: the killer itself, or another one. */
    method KillOne(c: Cpu, u: Tid)
      requires Inv(K(), Some(c)) && c in running && u in threads && !threads[u].idle
      requires threads[u].owner in processes && processes[threads[u].owner].reaped
      requires u != running[c] && Gone(K(), u) ==> threads[u].state == Dead
      requires u == running[c] ==> threads[u].state == Dead && threads[u].shouldDie && !Gone(K(), u)
      modifies `threads, `blockers, `processes, `ready, `sleeping, `dead, `toFree
      ensures Inv(K(), Some(c)) && ResultsStick(old(K()), K()) && OnlyChanged(old(K()), K(), u)
      ensures u in threads && Doomed(K(), u) && threads[u].owner == old(threads)[u].owner && !threads[u].idle
      ensures u == running[c] ==> threads[u] == old(threads)[u] && Gone(K(), u)
      ensures dead == if u == running[c] then old(dead) + [u] else old(dead)
      ensures K() == if u == running[c] then old(K()).(processes := processes, dead := dead) else AfterKill(old(K()), u)
    {
      hide Inv, ThreadOk, ResultsStick, OnlyChanged;
      ghost var k := K();
      if u == running[c] {
        RetireCurrent(c);
        RetiredOnly(k, K(), u);
      } else {
        KillOther(c, u);
      }
    }

    /** The killer goes through all threads of its process, itself included, in any order. */
    method KillProcess(c: Cpu, p: Pid) returns (ghost tail: seq<Tid>)
      requires c in running && running[c] in threads && !threads[running[c]].idle
      requires var x := threads[running[c]]; x.owner == p && x.state == Dead && x.shouldDie
      requires p in processes && !Gone(K(), running[c]) && processes[p].reaped
      requires forall u :: u in threads && !threads[u].idle && threads[u].owner == p && Gone(K(), u) ==>
        threads[u].state == Dead
      requires Inv(K(), Some(c))
      modifies `threads, `blockers, `processes, `ready, `sleeping, `dead, `toFree
      ensures Inv(K(), Some(c)) && ResultsStick(old(K()), K())
      ensures DoomedAll(K(), p)
      ensures running[c] in threads && threads[running[c]] == old(threads)[running[c]] && Gone(K(), running[c])
      ensures dead == old(dead) + [running[c]]
      ensures Killed(old(K()), K(), Siblings(old(K()), running[c]), tail)
      ensures SameButCounts(old(processes), processes)
    {
      hide Inv, ThreadOk, ResultsStick, OnlyChanged, Doomed, Killed, AfterKill, Siblings, SameButCounts, KillsOn;
      ghost var k := K();
      var t := running[c];
      tail := [];
      var todo := set u | u in threads && threads[u].owner == p && !threads[u].idle;
      KillsBegin(k, p, t, todo);
      while todo != {}
        invariant Inv(K(), Some(c)) && running == k.running && KillsOn(k, K(), p, t, todo, tail)
        decreases |todo|
      {
        var u :| u in todo;
        ghost var v := K();
        KillsFacts(k, v, p, t, todo, tail, u);
        if u != t { InvKillable(v, c, u); }
        KillOne(c, u);
        KillsTurn(k, v, K(), p, t, todo, tail, u);
        tail := if u != t && Interruptible(v, u) then tail + [u] else tail;
        todo := todo - {u};
      }
      KillsEnd(k, K(), p, t, tail);
    }

    /** The dying thread itself: marked dead while its processor is still on it. */
    method MarkDead(c: Cpu)
      requires Inv(K(), Some(c)) && c in running && running[c] in threads && !threads[running[c]].idle
      requires threads[running[c]].state == Running
      modifies `threads
      ensures Inv(K(), Some(c)) && threads == old(threads)[running[c] := old(threads)[running[c]].(state := Dead)]
      ensures !Gone(K(), running[c]) && threads[running[c]].owner in processes
      ensures threads[running[c]].killAll ==> threads[running[c]].shouldDie
    {
      hide Inv;
      CurrentFacts(K(), Some(c), c);
      var x := threads[running[c]].(state := Dead);
      RecordKeeps(K(), Some(c), running[c], x);
      threads := threads[running[c] := x];
    }

    /** The current thread ends; with it its process, if it is the process's killer or its last thread. */
    method KillCurrentThread(c: Cpu) returns (ghost tail: seq<Tid>)
      requires c in running && running[c] in threads && !threads[running[c]].idle
      requires threads[running[c]].state == Running
      requires threads[running[c]].owner in processes
      requires threads[running[c]].killAll ==> !processes[threads[running[c]].owner].reaped
      requires Inv(K(), Some(c))
      modifies `threads, `blockers, `processes, `ready, `sleeping, `dead, `toFree
      ensures Inv(K(), Some(c)) && ResultsStick(old(K()), K())
      ensures Ended(old(K()), K(), running[c], tail)
    {
      hide Inv, ThreadOk, ResultsStick, DoomedAll, Killed, Siblings, Killing;
      tail := [];
      var t := running[c];
      var p := threads[t].owner;
      ghost var k := K();
      MarkDead(c);
      StickSame(k, K());
      if !threads[t].killAll {
        RetireCurrent(c);
        if processes[p].aliveThreads == 0 {
          ExitKeeps(K(), Some(c), p);
          processes := processes[p := processes[p].(alive := false)];
        }
        StickSame(k, K());
      } else {
        GoneAreDead(K(), Some(c), p);
        ReapKeeps(K(), c, t);
        processes := processes[p := processes[p].(reaped := true)];
        ghost var v := K();
        StickSame(k, v);
        tail := KillProcess(c, p);
        KilledProcesses(WithThread(k, t, threads[t]), v.processes, K(), Siblings(v, t), tail);
        SiblingsSame(k, v, t);
        StickTrans(k, v, K());
      }
    }

    /** What becomes of the current thread `t`, whose record was `x`, in a pass through the scheduler. */
    ghost predicate Outcome(t: Tid, x: Thread)
      reads this
    {
      && t in threads
      && (x.shouldDie && !x.invulnerable ==> Gone(K(), t) && threads[t].state == Dead)
      && (!(x.shouldDie && !x.invulnerable) && x.wantsBlock ==>
            x.blocker.Some? && x.blocker.value in blockers &&
              (threads[t].state == Blocked <==> blockers[x.blocker.value].result == Pending))
    }

    /** Kills or blocks the current thread if that is due, and leaves it as it is otherwise. */
    method SettleCurrent(c: Cpu) returns (ghost tail: seq<Tid>)
      requires c in running && running[c] in threads && threads[running[c]].state == Running
      requires var x := threads[running[c]];
        x.idle || (x.owner in processes && (x.killAll ==> !processes[x.owner].reaped))
      requires Inv(K(), Some(c))
      modifies `threads, `blockers, `processes, `ready, `sleeping, `dead, `toFree
      ensures Inv(K(), Some(c)) && ResultsStick(old(K()), K()) && Settled(K(), c)
      ensures Outcome(running[c], old(threads)[running[c]]) && |dead| <= |old(dead)| + 1
      ensures Settles(old(K()), K(), c, tail) && ProcessesSettle(old(K()), K(), c)
    {
      hide Inv, ResultsStick, Killed, Siblings, DoomedAll;
      tail := [];
      ghost var k := K();
      CurrentFacts(k, Some(c), c);
      StickSame(k, k);
      if threads[running[c]].shouldDie && !threads[running[c]].invulnerable {
        tail := KillCurrentThread(c);
      } else if threads[running[c]].wantsBlock {
        HandleRequest(c);
        StickSame(k, K());
      }
      CurrentFacts(K(), Some(c), c);
    }

    /**
     One pass through the scheduler on processor `c`.
     A thread told to die is handed over, unless invulnerable; a thread that asked to block is blocked exactly when
     nobody has resolved its blocker. Every sleeper due is woken and no other, and the next thread is the first of
     the ready ones, the woken ones and, last, the current one. The assertions of the kernel on the way all hold.
     */
    method PickNext(c: Cpu, now: nat) returns (ghost queue: seq<Tid>)
      requires Valid() && c in running && running[c] in threads
      modifies this
      ensures Valid() && ResultsStick(old(K()), K()) && idle == old(idle) && running.Keys == old(running.Keys)
      ensures Outcome(old(running)[c], old(threads)[old(running)[c]])
      ensures Passed(old(K()), K(), c, now, queue) && ProcessesSettle(old(K()), K(), c)
      ensures old(toFree) + old(dead) <= toFree
    {
      hide Inv, ResultsStick, ThreadOk, Woke, Settles, Switched, Passed, Requeued, NextThread, DueOf;
      ghost var k := K();
      OpenHole(k, c);
      EnterFacts(k, c);
      FreeDeferredThreads(Some(c));
      StickSame(k, K());
      ghost var j := K();
      WakeReadyThreads(c, now);
      StickTrans(k, j, K());
      ghost var v := K();
      assert Current(v, running[c]);
      ghost var tail := SettleCurrent(c);
      StickTrans(k, v, K());
      ghost var m := K();
      Dispatch(c);
      queue := Requeued(m, c);
      PassIs(j, v, m, c, now, tail);
      PassFrees(j, K(), c, now, queue);
      PassAfterFreeing(k, j, K(), c, now, queue);
      CurrentSwitched(m, c);
      StickSame(m, K());
      StickTrans(k, m, K());
    }
  }
}
