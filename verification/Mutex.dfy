/**
 The sleeping mutexes. Each method is one section under the state lock; threads run them in any order,
 so what holds between methods holds over every interleaving.
 */
module Mutexes {
  import opened Common
  import opened DistinctLists

  type Tid = nat

  /** Where a thread is with respect to one mutex. `Woken`: taken off the list and unblocked, yet to try again. */
  datatype Phase = Outside | Waiting | Woken | Holding

  class Mutex {
    var owner: Option<Tid>
    var waiters: seq<Tid>
    ghost var phase: map<Tid, Phase>

    ghost predicate Valid()
      reads this
    {
      && NoDuplicates(waiters)
      && (forall t :: t in waiters <==> t in phase && phase[t] == Waiting)
      && (forall t :: t in phase && phase[t] == Holding <==> owner == Some(t))
      && (owner == None && waiters != [] ==> exists t :: t in phase && phase[t] == Woken)
    }

    constructor (threads: set<Tid>)
      ensures Valid() && owner == None && phase == map t | t in threads :: Outside
    {
      owner, waiters := None, [];
      phase := map t | t in threads :: Outside;
    }

    /** At most one thread holds the mutex. */
    lemma MutualExclusion(t: Tid, u: Tid)
      requires Valid() && t in phase && u in phase && phase[t] == Holding && phase[u] == Holding
      ensures t == u
    {
    }

    /** One turn of the loop in lock(): takes the free mutex or joins the waiters. The owner never comes here. */
    method TryLock(t: Tid) returns (acquired: bool)
      requires Valid() && t in phase && (phase[t] == Outside || phase[t] == Woken)
      modifies this
      ensures Valid() && acquired == (old(owner) == None)
      ensures phase == old(phase)[t := if acquired then Holding else Waiting]
      ensures acquired ==> owner == Some(t) && waiters == old(waiters)
      ensures !acquired ==> owner == old(owner) && waiters == old(waiters) + [t]
    {
      assert owner != Some(t);
      if owner == None {
        owner := Some(t);
        phase := phase[t := Holding];
        return true;
      }
      AppendDistinct(waiters, t);
      waiters := waiters + [t];
      phase := phase[t := Waiting];
      return false;
    }

    /** Frees the mutex and wakes the thread that has waited longest. */
    method Unlock(t: Tid)
      requires Valid() && t in phase && phase[t] == Holding
      modifies this
      ensures Valid() && owner == None
      ensures if old(waiters) == [] then waiters == [] && phase == old(phase)[t := Outside]
              else waiters == old(waiters)[1..] && phase == old(phase)[t := Outside][old(waiters)[0] := Woken]
    {
      assert owner == Some(t);
      owner := None;
      phase := phase[t := Outside];
      if waiters == [] {
        return;
      }
      var first := waiters[0];
      assert waiters == [first] + waiters[1..];
      waiters := waiters[1..];
      phase := phase[first := Woken];
      assert first in phase && phase[first] == Woken;
    }
  }

  const EXCLUSIVE_MODE := -1
  const FREE_MODE := 0

  datatype Mode = Shared | Exclusive

  /** Where a thread is with respect to one shared mutex; `Running` if it is in no lock call. */
  datatype SharedPhase = Running | Parked(mode: Mode) | Roused(mode: Mode)

  ghost function RousedAll(phase: map<Tid, SharedPhase>, s: seq<Tid>): map<Tid, SharedPhase> {
    map t | t in phase :: if t in s then Roused(Shared) else phase[t]
  }

  lemma RousedOneMore(phase: map<Tid, SharedPhase>, s: seq<Tid>, t: Tid)
    requires t in phase
    ensures RousedAll(phase, s + [t]) == RousedAll(phase, s)[t := Roused(Shared)]
  {
  }

  class SharedMutex {
    var refcount: int
    var sharedWaiters: seq<Tid>
    var exclusiveWaiters: seq<Tid>
    /** Who holds it; a thread may hold it shared more than once. */
    ghost var readers: multiset<Tid>
    ghost var writers: set<Tid>
    ghost var phase: map<Tid, SharedPhase>

    /** A thread is on a list exactly while it is parked, and then on one list, once. */
    ghost predicate ListsOk()
      reads this
    {
      && NoDuplicates(sharedWaiters) && NoDuplicates(exclusiveWaiters)
      && (forall t :: t in sharedWaiters <==> t in phase && phase[t] == Parked(Shared))
      && (forall t :: t in exclusiveWaiters <==> t in phase && phase[t] == Parked(Exclusive))
    }

    ghost predicate SomeoneRoused()
      reads this
    {
      exists t :: t in phase && phase[t].Roused?
    }

    /** One writer or only readers; shared waiters only behind a writer; never free and forgotten. */
    ghost predicate Valid()
      reads this
    {
      && refcount >= EXCLUSIVE_MODE && ListsOk()
      && (refcount == EXCLUSIVE_MODE ==> |writers| == 1 && readers == multiset{})
      && (refcount != EXCLUSIVE_MODE ==> writers == {} && |readers| == refcount)
      && (sharedWaiters != [] ==> refcount == EXCLUSIVE_MODE)
      && (refcount == FREE_MODE && exclusiveWaiters != [] ==> SomeoneRoused())
    }

    constructor (threads: set<Tid>)
      ensures Valid() && refcount == FREE_MODE && sharedWaiters == [] && exclusiveWaiters == []
      ensures readers == multiset{} && writers == {} && phase == map t | t in threads :: Running
    {
      refcount, sharedWaiters, exclusiveWaiters := FREE_MODE, [], [];
      readers, writers, phase := multiset{}, {}, map t | t in threads :: Running;
    }

    /** A writer excludes every other holder. */
    lemma WriterExcludes(t: Tid, u: Tid)
      requires Valid() && t in writers
      ensures u !in readers && (u in writers ==> u == t)
    {
      assert |writers - {t}| == |writers| - 1;
      assert u in writers && u != t ==> u in writers - {t};
    }

    /** While a thread waits for a mutex nobody holds, another one has been woken and is on no list. */
    lemma NeverForgotten(t: Tid)
      requires Valid() && readers == multiset{} && writers == {} && t in phase && phase[t].Parked?
      ensures exists u :: u in phase && phase[u].Roused? && u !in sharedWaiters && u !in exclusiveWaiters
    {
      assert phase[t] == Parked(phase[t].mode);
      assert if phase[t].mode == Shared then t in sharedWaiters else t in exclusiveWaiters;
      assert refcount == FREE_MODE;
      var u :| u in phase && phase[u].Roused?;
    }

    /** One turn of the loop in exclusive_lock(). */
    method TryExclusive(t: Tid) returns (acquired: bool)
      requires Valid() && t in phase && (phase[t] == Running || phase[t] == Roused(Exclusive))
      modifies this
      ensures Valid() && acquired == (old(readers) == multiset{} && old(writers) == {}) && readers == old(readers)
      ensures phase == old(phase)[t := if acquired then Running else Parked(Exclusive)]
      ensures acquired ==> writers == {t} && exclusiveWaiters == old(exclusiveWaiters)
      ensures !acquired ==> writers == old(writers) && exclusiveWaiters == old(exclusiveWaiters) + [t]
      ensures sharedWaiters == old(sharedWaiters)
    {
      if refcount == FREE_MODE {
        refcount := EXCLUSIVE_MODE;
        writers := {t};
        phase := phase[t := Running];
        return true;
      }
      AppendDistinct(exclusiveWaiters, t);
      exclusiveWaiters := exclusiveWaiters + [t];
      phase := phase[t := Parked(Exclusive)];
      return false;
    }

    /** One turn of the loop in shared_lock(). */
    method TryShared(t: Tid) returns (acquired: bool)
      requires Valid() && t in phase && (phase[t] == Running || phase[t] == Roused(Shared))
      modifies this
      ensures Valid() && acquired == (old(writers) == {}) && writers == old(writers)
      ensures phase == old(phase)[t := if acquired then Running else Parked(Shared)]
      ensures acquired ==> readers == old(readers) + multiset{t} && sharedWaiters == old(sharedWaiters)
      ensures !acquired ==> readers == old(readers) && sharedWaiters == old(sharedWaiters) + [t]
      ensures exclusiveWaiters == old(exclusiveWaiters)
    {
      if refcount >= FREE_MODE {
        refcount := refcount + 1;
        readers := readers + multiset{t};
        phase := phase[t := Running];
        return true;
      }
      AppendDistinct(sharedWaiters, t);
      sharedWaiters := sharedWaiters + [t];
      phase := phase[t := Parked(Shared)];
      return false;
    }

    /** Takes the first shared waiter off its list and wakes it. */
    method RouseFirst()
      requires ListsOk() && sharedWaiters != []
      modifies `sharedWaiters, `phase
      ensures ListsOk() && SomeoneRoused() && sharedWaiters == old(sharedWaiters)[1..]
      ensures old(sharedWaiters)[0] in old(phase) && phase == old(phase)[old(sharedWaiters)[0] := Roused(Shared)]
    {
      var first := sharedWaiters[0];
      assert sharedWaiters == [first] + sharedWaiters[1..];
      sharedWaiters := sharedWaiters[1..];
      phase := phase[first := Roused(Shared)];
      assert first in phase && phase[first].Roused?;
    }

    /** Takes every shared waiter off its list and wakes it. */
    method RouseShared() returns (wokeOne: bool)
      requires ListsOk()
      modifies `sharedWaiters, `phase
      ensures ListsOk() && sharedWaiters == [] && wokeOne == (old(sharedWaiters) != [])
      ensures phase == RousedAll(old(phase), old(sharedWaiters)) && (wokeOne ==> SomeoneRoused())
    {
      hide ListsOk, SomeoneRoused;
      wokeOne := false;
      ghost var done: seq<Tid> := [];
      while sharedWaiters != []
        invariant ListsOk() && old(sharedWaiters) == done + sharedWaiters && wokeOne == (done != [])
        invariant phase == RousedAll(old(phase), done) && (wokeOne ==> SomeoneRoused())
        decreases |sharedWaiters|
      {
        ghost var first := sharedWaiters[0];
        assert done + sharedWaiters == (done + [first]) + sharedWaiters[1..];
        wokeOne := true;
        RouseFirst();
        RousedOneMore(old(phase), done, first);
        done := done + [first];
      }
      assert done + [] == done;
    }

    /** Takes the first exclusive waiter off its list and wakes it. */
    method RouseExclusive()
      requires ListsOk() && exclusiveWaiters != []
      modifies `exclusiveWaiters, `phase
      ensures ListsOk() && SomeoneRoused() && exclusiveWaiters == old(exclusiveWaiters)[1..]
      ensures phase == old(phase)[old(exclusiveWaiters)[0] := Roused(Exclusive)]
    {
      var first := exclusiveWaiters[0];
      assert exclusiveWaiters == [first] + exclusiveWaiters[1..];
      exclusiveWaiters := exclusiveWaiters[1..];
      phase := phase[first := Roused(Exclusive)];
      assert first in phase && phase[first].Roused?;
    }

    /** Wakes all shared waiters, or, if there is none, the first exclusive one. */
    method ExclusiveUnlock(t: Tid)
      requires Valid() && t in writers
      modifies this
      ensures Valid() && writers == {} && readers == multiset{} && sharedWaiters == []
      ensures if old(sharedWaiters) == [] && old(exclusiveWaiters) != []
              then exclusiveWaiters == old(exclusiveWaiters)[1..]
                && phase == old(phase)[old(exclusiveWaiters)[0] := Roused(Exclusive)]
              else exclusiveWaiters == old(exclusiveWaiters) && phase == RousedAll(old(phase), old(sharedWaiters))
    {
      assert refcount == EXCLUSIVE_MODE;
      refcount := FREE_MODE;
      writers := {};
      var wokeOne := RouseShared();
      if wokeOne {
        return;
      }
      assert phase == old(phase);
      if exclusiveWaiters != [] {
        RouseExclusive();
      }
    }

    /** The last reader out wakes the first exclusive waiter. */
    method SharedUnlock(t: Tid)
      requires Valid() && t in readers
      modifies this
      ensures Valid() && readers == old(readers) - multiset{t} && writers == {}
      ensures sharedWaiters == old(sharedWaiters) == []
      ensures if readers == multiset{} && old(exclusiveWaiters) != []
              then exclusiveWaiters == old(exclusiveWaiters)[1..]
                && phase == old(phase)[old(exclusiveWaiters)[0] := Roused(Exclusive)]
              else exclusiveWaiters == old(exclusiveWaiters) && phase == old(phase)
    {
      assert |readers - multiset{t}| == |readers| - 1;
      refcount := refcount - 1;
      readers := readers - multiset{t};
      if refcount == FREE_MODE && exclusiveWaiters != [] {
        RouseExclusive();
      }
    }
  }
}
