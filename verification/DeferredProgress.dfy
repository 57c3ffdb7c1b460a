/**
 Progress of the deferred interrupt work: the thread and the invokers never wait for each other, their steps come to an
 end unless new work arrives, and what was pending when the thread published its blocker is run before it blocks.
 */
module DeferredProgress {
  import opened DeferredIrq

  /** Steps that finish work already there; the others bring new work or new handlers. */
  predicate IsWork(a: Action) {
    !a.Register? && !a.Increment?
  }

  /** The thread sleeps, nobody is about to wake it, and nothing is pending. */
  ghost predicate AtRest(s: State) {
    s.stage == Blocked && !s.resolved && s.between == {} && forall h :: h in s.pending ==> s.pending[h] == 0
  }

  lemma SomeoneWakes(s: State, h: Handler)
    requires Inv(s) && s.stage == Blocked && !s.resolved && h in s.pending && s.pending[h] > 0
    ensures s.between != {}
  {
    assert HandlerOk(s, h);
  }

  /** Unless all is at rest there is a step to take. */
  lemma WorkIsOpen(s: State) returns (a: Action)
    requires Inv(s) && !AtRest(s)
    ensures IsWork(a) && Enabled(s, a)
  {
    match s.stage
    case Fresh => a := Publish;
    case Draining(todo) =>
      if todo == {} {
        a := Finish;
      } else {
        var h :| h in todo;
        a := Look(h);
      }
    case Invoking(_, _) => a := Invoke;
    case BeforeBlock => a := Block;
    case Unblocked => a := Retract;
    case Blocked =>
      if s.resolved {
        a := Resume;
      } else {
        forall h | h in s.pending && s.pending[h] > 0 ensures s.between != {} { SomeoneWakes(s, h); }
        var i :| i in s.between;
        a := Request(i);
      }
  }

  // ---------- the steps left ----------

  ghost function Total(m: map<Handler, nat>): nat {
    if m == map[] then 0 else var h :| h in m; m[h] + Total(m - {h})
  }

  lemma {:induction false} TotalSplit(m: map<Handler, nat>, h: Handler)
    requires h in m
    ensures Total(m) == m[h] + Total(m - {h})
    decreases |m|
  {
    var g :| g in m && Total(m) == m[g] + Total(m - {g});
    if g != h {
      TotalSplit(m - {g}, h);
      TotalSplit(m - {h}, g);
      assert m - {g} - {h} == m - {h} - {g};
    }
  }

  lemma TotalLess(m: map<Handler, nat>, h: Handler)
    requires h in m && m[h] > 0
    ensures Total(m[h := m[h] - 1]) == Total(m) - 1
  {
    var n := m[h := m[h] - 1];
    TotalSplit(m, h);
    TotalSplit(n, h);
    assert n - {h} == m - {h};
  }

  /** Steps to the end of the thread's round, and of the next one if it has been woken already. */
  ghost function RoundLeft(s: State): nat {
    var n := |s.pending|;
    match s.stage
    case Fresh => if s.resolved then n + 5 else n + 4
    case Draining(todo) => |todo| + 3 + (if s.resolved then n + 7 else 0)
    case Invoking(todo, _) => |todo| + 2 + (if s.resolved then n + 7 else 0)
    case BeforeBlock => if s.resolved then n + 7 else 2
    case Blocked => if s.resolved then n + 7 else 1
    case Unblocked => n + 6
  }

  /** Every pending invocation takes two steps, and every invoker yet to wake the thread at most one more round. */
  ghost function WorkLeft(s: State): nat {
    2 * Total(s.pending) + |s.between| * (|s.pending| + 8) + RoundLeft(s)
  }

  lemma OneFewer<T>(s: set<T>, x: T)
    requires x in s
    ensures |s - {x}| == |s| - 1
  {
  }

  lemma SameSize(m: map<Handler, nat>, h: Handler, n: nat)
    requires h in m
    ensures |m[h := n]| == |m| && m[h := n].Keys == m.Keys
  {
    assert m[h := n].Keys == m.Keys;
  }

  lemma RequestFalls(s: State, i: Invoker)
    requires Shapes(s) && Enabled(s, Request(i))
    ensures WorkLeft(Next(s, Request(i))) < WorkLeft(s)
  {
    hide Total;
    OneFewer(s.between, i);
    var n, before := |s.pending|, |s.between|;
    assert (before - 1) * (n + 8) == before * (n + 8) - (n + 8);
  }

  lemma InvokeFalls(s: State)
    requires Shapes(s) && Enabled(s, Invoke)
    ensures WorkLeft(Next(s, Invoke)) < WorkLeft(s)
  {
    hide Total;
    var h := s.stage.handler;
    TotalLess(s.pending, h);
    SameSize(s.pending, h, s.pending[h] - 1);
  }

  lemma LookFalls(s: State, h: Handler)
    requires Enabled(s, Look(h))
    ensures RoundLeft(Next(s, Look(h))) < RoundLeft(s)
  {
    OneFewer(s.stage.todo, h);
  }

  /** A step of the thread that runs no handler takes its round further and touches nothing else. */
  lemma RoundFalls(s: State, a: Action)
    requires (s.stage == Unblocked ==> s.resolved) && Enabled(s, a) && IsWork(a) && !a.Request? && !a.Invoke?
    ensures RoundLeft(Next(s, a)) < RoundLeft(s)
    ensures Next(s, a).pending == s.pending && Next(s, a).between == s.between
  {
    match a
    case Look(h) => LookFalls(s, h);
    case Publish => assert |s.pending.Keys| == |s.pending|;
    case _ =>
  }

  /** Every step that finishes work leaves less of it. */
  lemma WorkFalls(s: State, a: Action)
    requires Inv(s) && Enabled(s, a) && IsWork(a)
    ensures WorkLeft(Next(s, a)) < WorkLeft(s)
  {
    hide Total, RoundLeft, Next, HandlerOk;
    match a
    case Request(i) => RequestFalls(s, i);
    case Invoke => InvokeFalls(s);
    case _ => RoundFalls(s, a);
  }

  lemma RunStep(states: seq<State>, actions: seq<Action>, k: nat)
    requires Run(states, actions) && k < |actions|
    ensures |states| == |actions| + 1 && Enabled(states[k], actions[k])
    ensures states[k + 1] == Next(states[k], actions[k]) && Inv(states[k])
  {
    RunKeeps(states, actions, k);
  }

  /** Without new work, at most so many steps follow before all is at rest. */
  lemma {:induction false} WorkEnds(states: seq<State>, actions: seq<Action>, i: nat, j: nat)
    requires Run(states, actions) && i <= j < |states| && |states| == |actions| + 1
    requires forall k :: i <= k < j ==> IsWork(actions[k])
    ensures WorkLeft(states[j]) + (j - i) <= WorkLeft(states[i])
    decreases j - i
  {
    hide Run, Inv, WorkLeft, Next, Enabled, IsWork;
    if i < j {
      WorkEnds(states, actions, i, j - 1);
      RunStep(states, actions, j - 1);
      WorkFalls(states[j - 1], actions[j - 1]);
    }
  }

  // ---------- what is pending is run before the thread blocks ----------

  ghost predicate InTodo(s: State, h: Handler) {
    (s.stage.Draining? || s.stage.Invoking?) && h in s.stage.todo
  }

  lemma CountsGrow(s: State, a: Action, h: Handler)
    requires Inv(s) && Enabled(s, a) && h in s.pending
    ensures h in s.runs && h in s.invocations
    ensures var w := Next(s, a);
      && h in w.pending && h in w.runs && h in w.invocations
      && s.runs[h] <= w.runs[h] && s.invocations[h] <= w.invocations[h]
  {
  }

  /** A handler leaves the list of those to look at only when all its invocations have been run. */
  lemma LooksAtAll(s: State, a: Action, h: Handler)
    requires Inv(s) && Enabled(s, a) && h in s.pending && InTodo(s, h)
    ensures InTodo(Next(s, a), h) || s.runs[h] == s.invocations[h]
  {
    assert HandlerOk(s, h);
  }

  lemma {:induction false} RunOrAhead(states: seq<State>, actions: seq<Action>, i: nat, k: nat, h: Handler)
    requires Run(states, actions) && |states| == |actions| + 1 && i < k < |states| && actions[i] == Publish
    requires h in states[i].pending && h in states[i].invocations
    ensures h in states[k].pending && h in states[k].runs && h in states[k].invocations
    ensures states[i].invocations[h] <= states[k].invocations[h]
    ensures InTodo(states[k], h) || states[k].runs[h] >= states[i].invocations[h]
  {
    hide Run, Inv, Next, Enabled, InTodo;
    var s, a := states[k - 1], actions[k - 1];
    RunStep(states, actions, k - 1);
    if k == i + 1 {
      PublishLists(s, h);
    } else {
      RunOrAhead(states, actions, i, k - 1, h);
      if InTodo(s, h) { LooksAtAll(s, a, h); }
    }
    CountsGrow(s, a, h);
  }

  lemma PublishLists(s: State, h: Handler)
    requires Inv(s) && Enabled(s, Publish) && h in s.pending
    ensures InTodo(Next(s, Publish), h)
  {
  }

  /** When the thread is done looking, every invocation counted when it published its blocker has been run. */
  lemma PendingIsRun(states: seq<State>, actions: seq<Action>, i: nat, j: nat, h: Handler)
    requires Run(states, actions) && i < j < |actions| && actions[i] == Publish && actions[j] == Finish
    requires h in states[i].pending && h in states[i].invocations
    ensures h in states[j].runs && states[j].runs[h] >= states[i].invocations[h]
  {
    hide Inv, Next;
    RunOrAhead(states, actions, i, j, h);
  }
}
