/**
 Deferred interrupt work: interrupt handlers count work up and wake the one thread that does it.
 Every atomic step of the thread and of the invokers is an action; a run is any sequence of them.
 */
module DeferredIrq {
  type Handler = nat
  type Invoker = nat

  /** Where the working thread is in its endless loop. */
  datatype Stage =
    | Fresh
    | Draining(todo: set<Handler>)
    | Invoking(todo: set<Handler>, handler: Handler)
    | BeforeBlock
    | Blocked
    | Unblocked

  /**
   `published`: the thread's blocker is the one invokers see; `resolved`: it has been unblocked.
   `between`: invokers past their increment that have yet to wake the thread.
   */
  datatype State = State(
    pending: map<Handler, nat>, runs: map<Handler, nat>, invocations: map<Handler, nat>,
    stage: Stage, published: bool, resolved: bool, between: set<Invoker>)

  datatype Action =
    | Register(handler: Handler)
    | Increment(invoker: Invoker, handler: Handler)
    | Request(invoker: Invoker)
    | Publish
    | Look(handler: Handler)
    | Invoke
    | Finish
    | Block
    | Resume
    | Retract

  predicate Enabled(s: State, a: Action) {
    match a
    case Register(h) => h !in s.pending && h !in s.runs && h !in s.invocations && !s.stage.Draining? &&
      !s.stage.Invoking?
    case Increment(i, h) => h in s.pending && h in s.invocations && i !in s.between
    case Request(i) => i in s.between
    case Publish => s.stage == Fresh
    case Look(h) => s.stage.Draining? && h in s.stage.todo && h in s.pending
    case Invoke => s.stage.Invoking? && s.stage.handler in s.pending && s.stage.handler in s.runs
    case Finish => s.stage == Draining({})
    case Block => s.stage == BeforeBlock
    case Resume => s.stage == Blocked && s.resolved
    case Retract => s.stage == Unblocked
  }

  /** The outcome of a step; the kernel asserts that a counted invocation is there when it is taken off. */
  function Next(s: State, a: Action): State
    requires Enabled(s, a)
  {
    match a
    case Register(h) => s.(pending := s.pending[h := 0], runs := s.runs[h := 0], invocations := s.invocations[h := 0])
    case Increment(i, h) =>
      s.(pending := s.pending[h := s.pending[h] + 1], invocations := s.invocations[h := s.invocations[h] + 1],
        between := s.between + {i})
    case Request(i) => s.(resolved := s.resolved || s.published, between := s.between - {i})
    case Publish => s.(stage := Draining(s.pending.Keys), published := true, resolved := false)
    case Look(h) => s.(stage := if s.pending[h] > 0 then Invoking(s.stage.todo, h) else Draining(s.stage.todo - {h}))
    case Invoke =>
      var h := s.stage.handler;
      s.(pending := s.pending[h := if s.pending[h] > 0 then s.pending[h] - 1 else 0],
        runs := s.runs[h := s.runs[h] + 1], stage := Draining(s.stage.todo))
    case Finish => s.(stage := BeforeBlock)
    case Block => s.(stage := if s.resolved then Unblocked else Blocked)
    case Resume => s.(stage := Unblocked)
    case Retract => s.(stage := Fresh, published := false)
  }

  /** Handlers the thread has yet to look at before it blocks. */
  ghost function Ahead(s: State): set<Handler> {
    match s.stage
    case Fresh => s.pending.Keys
    case Draining(todo) => todo
    case Invoking(todo, _) => todo
    case _ => {}
  }

  ghost predicate HandlerOk(s: State, h: Handler)
    requires h in s.pending && h in s.runs && h in s.invocations
  {
    && s.runs[h] + s.pending[h] == s.invocations[h]
    && (s.stage != Unblocked && s.pending[h] > 0 && h !in Ahead(s) ==> s.resolved || s.between != {})
  }

  /** The counters have the same handlers, and the thread's stage is one it can be in. */
  ghost predicate Shapes(s: State) {
    && s.pending.Keys == s.runs.Keys == s.invocations.Keys
    && (s.published <==> s.stage != Fresh)
    && (s.stage.Draining? ==> s.stage.todo <= s.pending.Keys)
    && (s.stage.Invoking? ==>
      s.stage.todo <= s.pending.Keys && s.stage.handler in s.stage.todo && s.pending[s.stage.handler] > 0)
    && (s.stage == Unblocked ==> s.resolved)
  }

  ghost predicate Inv(s: State) {
    Shapes(s) && forall h :: h in s.pending ==> HandlerOk(s, h)
  }

  ghost predicate Initial(s: State) {
    s == State(map[], map[], map[], Fresh, false, false, {})
  }

  lemma StepShapes(s: State, a: Action)
    requires Shapes(s) && Enabled(s, a)
    ensures Shapes(Next(s, a))
  {
  }

  lemma StepHandler(s: State, a: Action, h: Handler)
    requires Shapes(s) && Enabled(s, a) && Shapes(Next(s, a)) && h in Next(s, a).pending
    requires h in s.pending ==> HandlerOk(s, h)
    ensures HandlerOk(Next(s, a), h)
  {
  }

  lemma StepKeeps(s: State, a: Action)
    requires Inv(s) && Enabled(s, a)
    ensures Inv(Next(s, a))
  {
    StepShapes(s, a);
    var w := Next(s, a);
    forall h | h in w.pending ensures HandlerOk(w, h) { StepHandler(s, a, h); }
    hide Next, HandlerOk, Shapes;
  }

  ghost predicate Run(states: seq<State>, actions: seq<Action>) {
    && |states| == |actions| + 1 && Initial(states[0])
    && forall i :: 0 <= i < |actions| ==> Enabled(states[i], actions[i]) && states[i + 1] == Next(states[i], actions[i])
  }

  lemma {:induction false} RunKeeps(states: seq<State>, actions: seq<Action>, i: nat)
    requires Run(states, actions) && i < |states|
    ensures Inv(states[i])
  {
    if i > 0 {
      RunKeeps(states, actions, i - 1);
      StepKeeps(states[i - 1], actions[i - 1]);
    }
  }

  /** While the thread is blocked and nobody has woken it, pending work means that an invoker is about to wake it. */
  lemma NoForgottenWork(states: seq<State>, actions: seq<Action>, i: nat, h: Handler)
    requires Run(states, actions) && i < |states| && h in states[i].pending && states[i].pending[h] > 0
    requires states[i].stage == Blocked && !states[i].resolved
    ensures states[i].between != {}
  {
    RunKeeps(states, actions, i);
    assert HandlerOk(states[i], h);
  }

  /** Every invocation has been run or is still counted as pending. */
  lemma NoInvocationLost(states: seq<State>, actions: seq<Action>, i: nat, h: Handler)
    requires Run(states, actions) && i < |states| && h in states[i].pending
    ensures var s := states[i]; h in s.runs && h in s.invocations && s.runs[h] + s.pending[h] == s.invocations[h]
  {
    RunKeeps(states, actions, i);
    assert HandlerOk(states[i], h);
  }

  /** The assertion on the counter holds whenever an invocation is taken off it. */
  lemma CountedWhenTaken(states: seq<State>, actions: seq<Action>, i: nat)
    requires Run(states, actions) && i < |actions| && actions[i] == Invoke
    ensures states[i].pending[states[i].stage.handler] > 0
  {
    RunKeeps(states, actions, i);
  }
}
