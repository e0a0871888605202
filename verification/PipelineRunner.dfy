/** Running a sorted pipeline: gate, audit, handler and publication, with bounded retries. */
module PipelineRunner {
  import opened Common
  import opened ApprovalGate
  import Graphs
  import opened TopologicalSort

  datatype Operation = Handler(position: nat) | StepPublish(position: nat) | CompletionPublish

  datatype Event =
    | Evaluated(position: nat, risk: Risk, result: Evaluation)
    | Audited(position: nat, declared: Risk, decision: Decision)
    | Attempted(op: Operation, ok: bool)
    | BackedOff(op: Operation, delay: real)

  const MAX_ATTEMPTS: int := 3

  // ----- retries

  function Pow2(n: nat): nat {
    if n == 0 then 1 else 2 * Pow2(n - 1)
  }

  predicate Succeeds(outcomes: seq<bool>, attempt: int) {
    1 <= attempt <= |outcomes| && outcomes[attempt - 1]
  }

  /** The events from the given attempt on. */
  function Tries(op: Operation, outcomes: seq<bool>, attempt: nat, max: int): seq<Event>
    requires attempt >= 1
    decreases max - attempt, |outcomes|
  {
    if Succeeds(outcomes, attempt) then [Attempted(op, true)]
    else if attempt >= max then [Attempted(op, false)]
    else [Attempted(op, false), BackedOff(op, 0.25 * Pow2(attempt - 1) as real)] + Tries(op, outcomes, attempt + 1, max)
  }

  /** Calls of handlers, or of the bus. */
  function Attempts(log: seq<Event>, handler: bool): nat {
    if log == [] then 0
    else (if log[0].Attempted? && log[0].op.Handler? == handler then 1 else 0) + Attempts(log[1..], handler)
  }

  function Backoff(log: seq<Event>): real {
    if log == [] then 0.0 else (if log[0].BackedOff? then log[0].delay else 0.0) + Backoff(log[1..])
  }

  /** The attempt the retries end with, from a given one on. */
  function LastAttempt(outcomes: seq<bool>, attempt: nat, max: int): nat
    decreases max - attempt, |outcomes|
  {
    if Succeeds(outcomes, attempt) || attempt >= max then attempt else LastAttempt(outcomes, attempt + 1, max)
  }

  lemma {:induction false} LastAttemptHolds(outcomes: seq<bool>, attempt: nat, max: int)
    ensures var last := LastAttempt(outcomes, attempt, max);
      && last >= attempt && (last == attempt || last <= max)
      && (forall a :: attempt <= a < last ==> !Succeeds(outcomes, a))
      && (!Succeeds(outcomes, last) ==> last >= max)
    decreases max - attempt
  {
    if !Succeeds(outcomes, attempt) && attempt < max {
      LastAttemptHolds(outcomes, attempt + 1, max);
    }
  }

  lemma {:induction false} TriesCount(op: Operation, outcomes: seq<bool>, attempt: nat, max: int, h: bool)
    requires attempt >= 1
    ensures Attempts(Tries(op, outcomes, attempt, max), h) ==
      if op.Handler? == h then LastAttempt(outcomes, attempt, max) - attempt + 1 else 0
    decreases max - attempt
  {
    if Succeeds(outcomes, attempt) || attempt >= max {
    } else {
      TriesCount(op, outcomes, attempt + 1, max, h);
    }
  }

  lemma {:induction false} TriesWait(op: Operation, outcomes: seq<bool>, attempt: nat, max: int)
    requires attempt >= 1
    ensures LastAttempt(outcomes, attempt, max) >= 1
    ensures Backoff(Tries(op, outcomes, attempt, max)) ==
      0.25 * (Pow2(LastAttempt(outcomes, attempt, max) - 1) - Pow2(attempt - 1)) as real
    decreases max - attempt
  {
    if Succeeds(outcomes, attempt) || attempt >= max {
    } else {
      TriesWait(op, outcomes, attempt + 1, max);
    }
  }

  /** The first success ends the retries; without one they end after the allowed attempts. The waits
      after `failures` failed attempts add up to a quarter second times one less than a power of two. */
  lemma RetryBounds(op: Operation, outcomes: seq<bool>, max: int) returns (failures: nat)
    ensures var log := Tries(op, outcomes, 1, max);
      && failures + 1 <= (if max > 1 then max else 1)
      && (forall h :: Attempts(log, h) == if op.Handler? == h then failures + 1 else 0)
      && Backoff(log) == 0.25 * (Pow2(failures) - 1) as real
      && (forall a :: 1 <= a <= failures ==> !Succeeds(outcomes, a))
      && (!Succeeds(outcomes, failures + 1) ==> failures + 1 == if max > 1 then max else 1)
  {
    LastAttemptHolds(outcomes, 1, max);
    failures := LastAttempt(outcomes, 1, max) - 1;
    TriesCount(op, outcomes, 1, max, true);
    TriesCount(op, outcomes, 1, max, false);
    TriesWait(op, outcomes, 1, max);
    assert Pow2(0) == 1;
  }

  lemma {:induction false} TriesAreOf(op: Operation, outcomes: seq<bool>, attempt: nat, max: int)
    requires attempt >= 1
    ensures var log := Tries(op, outcomes, attempt, max);
      log != [] && log[0].Attempted? && log[0].op == op &&
      forall k :: 0 <= k < |log| ==> (log[k].Attempted? || log[k].BackedOff?) && log[k].op == op
    decreases max - attempt
  {
    if !Succeeds(outcomes, attempt) && attempt < max {
      TriesAreOf(op, outcomes, attempt + 1, max);
    }
  }

  // ----- one step

  /** What stays fixed during a run: declared risks, registered handlers, the audit pool, the human channel. */
  datatype Context = Context(registry: map<string, Risk>, handlers: set<string>, hasPool: bool, hasCallback: bool)

  /** What the surroundings do at a step: overrides set before it, the human, handler and bus. */
  datatype Script = Script(changes: seq<Change>, answer: Answer, handler: seq<bool>, publish: seq<bool>)

  function RequestFor(c: Context, step: Step): Request
    requires step.tool in c.registry
  {
    Request(step.agent, step.tool, c.registry[step.tool])
  }

  function AfterGate(c: Context, p: nat, step: Step, s: Script, e: Evaluation): seq<Event>
    requires step.tool in c.registry
  {
    if !e.Decided? then []
    else
      (if c.hasPool then [Audited(p, c.registry[step.tool], e.decision)] else [])
      + (if e.decision.approved && step.tool in c.handlers then Tries(Handler(p), s.handler, 1, MAX_ATTEMPTS) else [])
      + Tries(StepPublish(p), s.publish, 1, MAX_ATTEMPTS)
  }

  function StepEvents(c: Context, o: Overrides, p: nat, step: Step, s: Script): seq<Event> {
    if step.tool !in c.registry then []
    else
      var r := RequestFor(c, step);
      var e := EvaluationOf(o, c.hasCallback, r, s.answer);
      [Evaluated(p, EffectiveRisk(o, r), e)] + AfterGate(c, p, step, s, e)
  }

  /** The step waits for ever on a silent human, and the run with it. */
  predicate Hangs(c: Context, o: Overrides, step: Step, s: Script) {
    step.tool in c.registry && EvaluationOf(o, c.hasCallback, RequestFor(c, step), s.answer) == Waiting
  }

  predicate RunsHandler(c: Context, o: Overrides, step: Step, s: Script) {
    step.tool in c.registry && step.tool in c.handlers &&
    Permitted(EffectiveRisk(o, RequestFor(c, step)), c.hasCallback, s.answer)
  }

  // ----- the whole run

  function OverridesAt(o: Overrides, scripts: seq<Script>, n: nat): Overrides
    requires n <= |scripts|
  {
    if n == 0 then o else ApplyChanges(OverridesAt(o, scripts, n - 1), scripts[n - 1].changes)
  }

  /** The overrides in force when step `p` is evaluated. */
  function InForce(o: Overrides, scripts: seq<Script>, p: nat): Overrides
    requires p < |scripts|
  {
    OverridesAt(o, scripts, p + 1)
  }

  predicate HungBefore(c: Context, o: Overrides, order: seq<Step>, scripts: seq<Script>, n: nat)
    requires n <= |order| == |scripts|
  {
    n > 0 && (HungBefore(c, o, order, scripts, n - 1) ||
      Hangs(c, InForce(o, scripts, n - 1), order[n - 1], scripts[n - 1]))
  }

  /** The events of the first `n` steps. */
  function RunEvents(c: Context, o: Overrides, order: seq<Step>, scripts: seq<Script>, n: nat): seq<Event>
    requires n <= |order| == |scripts|
  {
    if n == 0 then []
    else if HungBefore(c, o, order, scripts, n - 1) then RunEvents(c, o, order, scripts, n - 1)
    else
      RunEvents(c, o, order, scripts, n - 1) +
      StepEvents(c, InForce(o, scripts, n - 1), n - 1, order[n - 1], scripts[n - 1])
  }

  function FullRun(c: Context, o: Overrides, order: seq<Step>, scripts: seq<Script>, completion: seq<bool>): seq<Event>
    requires |order| == |scripts|
  {
    RunEvents(c, o, order, scripts, |order|)
      + if HungBefore(c, o, order, scripts, |order|) then [] else Tries(CompletionPublish, completion, 1, MAX_ATTEMPTS)
  }

  lemma NextStep(c: Context, o: Overrides, order: seq<Step>, scripts: seq<Script>, p: nat,
                 before: seq<Event>)
    requires p < |order| == |scripts| && !HungBefore(c, o, order, scripts, p)
    ensures InForce(o, scripts, p) == ApplyChanges(OverridesAt(o, scripts, p), scripts[p].changes)
    ensures before + RunEvents(c, o, order, scripts, p + 1) ==
      before + RunEvents(c, o, order, scripts, p) + StepEvents(c, InForce(o, scripts, p), p, order[p], scripts[p])
    ensures HungBefore(c, o, order, scripts, p + 1) == Hangs(c, InForce(o, scripts, p), order[p], scripts[p])
  {
    Regroup(before, RunEvents(c, o, order, scripts, p), StepEvents(c, InForce(o, scripts, p), p, order[p], scripts[p]));
  }

  lemma Regroup(a: seq<Event>, b: seq<Event>, c: seq<Event>)
    ensures a + (b + c) == a + b + c
  {
  }

  lemma {:induction false} HungStays(c: Context, o: Overrides, order: seq<Step>, scripts: seq<Script>, p: nat, n: nat)
    requires p <= n <= |order| == |scripts| && (p < n ==> HungBefore(c, o, order, scripts, p))
    ensures HungBefore(c, o, order, scripts, n) == HungBefore(c, o, order, scripts, p)
    ensures RunEvents(c, o, order, scripts, n) == RunEvents(c, o, order, scripts, p)
  {
    if p < n {
      HungStays(c, o, order, scripts, p, n - 1);
    }
  }

  lemma StepSplits(c: Context, o: Overrides, p: nat, step: Step, s: Script, before: seq<Event>)
    requires step.tool in c.registry
    ensures var r := RequestFor(c, step); var e := EvaluationOf(o, c.hasCallback, r, s.answer);
      before + StepEvents(c, o, p, step, s) == before + [Evaluated(p, EffectiveRisk(o, r), e)]
        + AfterGate(c, p, step, s, e)
  {
  }

  lemma RunSplits(c: Context, o: Overrides, order: seq<Step>, scripts: seq<Script>, completion: seq<bool>,
                  before: seq<Event>)
    requires |order| == |scripts|
    ensures var steps := before + RunEvents(c, o, order, scripts, |order|);
      before + FullRun(c, o, order, scripts, completion) ==
        if HungBefore(c, o, order, scripts, |order|) then steps
          else steps + Tries(CompletionPublish, completion, 1, MAX_ATTEMPTS)
  {
  }

  class Runner {
    const context: Context
    const gate: Gate
    var log: seq<Event>

    constructor (context: Context, gate: Gate)
      requires gate.hasCallback == context.hasCallback
      ensures this.context == context && this.gate == gate && log == []
    {
      this.context, this.gate, log := context, gate, [];
    }

    method RunWithRetries(op: Operation, outcomes: seq<bool>, maxAttempts: int) returns (ok: bool)
      modifies this
      ensures log == old(log) + Tries(op, outcomes, 1, maxAttempts)
      ensures ok <==> exists a :: 1 <= a && (a == 1 || a <= maxAttempts) && Succeeds(outcomes, a)
    {
      var attempt := 1;
      while true
        invariant attempt >= 1 && (attempt == 1 || attempt <= maxAttempts)
        invariant log + Tries(op, outcomes, attempt, maxAttempts) == old(log) + Tries(op, outcomes, 1, maxAttempts)
        invariant forall a :: 1 <= a < attempt ==> !Succeeds(outcomes, a)
        decreases maxAttempts - attempt
      {
        ok := Succeeds(outcomes, attempt);
        log := log + [Attempted(op, ok)];
        if ok || attempt >= maxAttempts {
          return;
        }
        log := log + [BackedOff(op, 0.25 * Pow2(attempt - 1) as real)];
        attempt := attempt + 1;
      }
    }

    method ExecuteStep(p: nat, step: Step, s: Script) returns (hangs: bool)
      requires step.tool in context.registry && gate.hasCallback == context.hasCallback
      modifies this
      ensures log == old(log) + StepEvents(context, gate.overrides, p, step, s)
      ensures hangs == Hangs(context, gate.overrides, step, s)
    {
      StepSplits(context, gate.overrides, p, step, s, log);
      var request := RequestFor(context, step);
      var e := gate.Evaluate(request, s.answer);
      log := log + [Evaluated(p, EffectiveRisk(gate.overrides, request), e)];
      FinishStep(p, step, s, e);
      hangs := e == Waiting;
    }

    /** What follows the gate: an error or an endless wait ends the step, a decision is audited and published. */
    method FinishStep(p: nat, step: Step, s: Script, e: Evaluation)
      requires step.tool in context.registry
      modifies this
      ensures log == old(log) + AfterGate(context, p, step, s, e)
    {
      if !e.Decided? {
        return;
      }
      if context.hasPool {
        log := log + [Audited(p, context.registry[step.tool], e.decision)];
      }
      if e.decision.approved && step.tool in context.handlers {
        var handled := RunWithRetries(Handler(p), s.handler, MAX_ATTEMPTS);
      }
      var published := RunWithRetries(StepPublish(p), s.publish, MAX_ATTEMPTS);
    }

    method TakeTurn(p: nat, step: Step, s: Script) returns (hangs: bool)
      requires gate.hasCallback == context.hasCallback
      modifies this, gate
      ensures gate.overrides == ApplyChanges(old(gate.overrides), s.changes)
      ensures log == old(log) + StepEvents(context, gate.overrides, p, step, s)
      ensures hangs == Hangs(context, gate.overrides, step, s)
    {
      gate.Change(s.changes);
      hangs := false;
      if step.tool in context.registry {
        hangs := ExecuteStep(p, step, s);
      }
    }

    method RunSteps(order: seq<Step>, scripts: seq<Script>) returns (hung: bool)
      requires |order| == |scripts| && gate.hasCallback == context.hasCallback
      modifies this, gate
      ensures log == old(log) + RunEvents(context, old(gate.overrides), order, scripts, |order|)
      ensures hung == HungBefore(context, old(gate.overrides), order, scripts, |order|)
    {
      hung := false;
      ghost var before, o := log, gate.overrides;
      var p := 0;
      while p < |order| && !hung
        invariant p <= |order|
        invariant !hung ==> gate.overrides == OverridesAt(o, scripts, p)
        invariant hung == HungBefore(context, o, order, scripts, p)
        invariant log == before + RunEvents(context, o, order, scripts, p)
      {
        NextStep(context, o, order, scripts, p, before);
        hung := TakeTurn(p, order[p], scripts[p]);
        p := p + 1;
      }
      HungStays(context, o, order, scripts, p, |order|);
    }

    /** Nothing runs when the steps cannot be ordered. */
    method ExecutePipeline(steps: seq<Step>, scripts: seq<Script>, completion: seq<bool>)
      returns (plan: Result<seq<Step>, PlanError>)
      requires |scripts| == |steps| && gate.hasCallback == context.hasCallback
      modifies this, gate
      ensures plan.Failure? ==> log == old(log) && gate.overrides == old(gate.overrides)
      ensures plan.Success? ==> |plan.value| == |scripts|
      ensures plan.Success? ==> log == old(log) + FullRun(context, old(gate.overrides), plan.value, scripts, completion)
      ensures plan.Success? <==>
        KnownDependencies(steps) && !RepeatedDependent(steps) && !exists left :: Starved(steps, left)
      ensures KnownDependencies(steps) && Graphs.Acyclic(DependencyGraph(steps)) ==>
        (plan.Success? <==> !RepeatedDependent(steps))
      ensures plan.Success? && !SharedDependency(steps) ==>
        Graphs.Acyclic(DependencyGraph(steps)) && RespectsDependencies(plan.value)
      ensures DistinctTools(steps) ==>
        (plan.Success? <==> KnownDependencies(steps) && Graphs.Acyclic(DependencyGraph(steps)))
      ensures DistinctTools(steps) && plan.Success? ==> FaithfulOrder(steps, plan.value)
    {
      plan := Sort(steps);
      if plan.Failure? {
        return;
      }
      SameLength(steps, plan.value);
      RunSplits(context, gate.overrides, plan.value, scripts, completion, log);
      var hung := RunSteps(plan.value, scripts);
      if !hung {
        var completed := RunWithRetries(CompletionPublish, completion, MAX_ATTEMPTS);
      }
    }
  }

  lemma SameLength(a: seq<Step>, b: seq<Step>)
    requires multiset(Tools(b)) == multiset(Tools(a))
    ensures |a| == |b|
  {
    assert |multiset(Tools(a))| == |a| && |multiset(Tools(b))| == |b|;
  }

  // ----- what holds of every run

  /** The step an event belongs to; the completion comes after all `n` steps. */
  function Place(e: Event, n: nat): nat {
    match e
    case Evaluated(p, _, _) => p
    case Audited(p, _, _) => p
    case Attempted(op, _) => PlaceOf(op, n)
    case BackedOff(op, _) => PlaceOf(op, n)
  }

  function PlaceOf(op: Operation, n: nat): nat {
    match op
    case Handler(p) => p
    case StepPublish(p) => p
    case CompletionPublish => n
  }

  ghost predicate Calls(log: seq<Event>, op: Operation) {
    exists k :: 0 <= k < |log| && log[k].Attempted? && log[k].op == op
  }

  lemma CallsConcat(a: seq<Event>, b: seq<Event>, op: Operation)
    ensures Calls(a + b, op) <==> Calls(a, op) || Calls(b, op)
  {
    if Calls(b, op) {
      var k :| 0 <= k < |b| && b[k].Attempted? && b[k].op == op;
      assert (a + b)[|a| + k] == b[k];
    }
    if Calls(a, op) {
      var k :| 0 <= k < |a| && a[k].Attempted? && a[k].op == op;
      assert (a + b)[k] == a[k];
    }
  }

  lemma TriesCall(op: Operation, outcomes: seq<bool>, other: Operation)
    ensures Calls(Tries(op, outcomes, 1, MAX_ATTEMPTS), other) <==> other == op
  {
    TriesAreOf(op, outcomes, 1, MAX_ATTEMPTS);
  }

  lemma AfterGateCalls(c: Context, p: nat, step: Step, s: Script, e: Evaluation, op: Operation)
    requires step.tool in c.registry
    ensures Calls(AfterGate(c, p, step, s, e), op) <==>
      e.Decided? && (op == StepPublish(p) || (op == Handler(p) && Admits(e) && step.tool in c.handlers))
  {
    if e.Decided? {
      var audit := if c.hasPool then [Audited(p, c.registry[step.tool], e.decision)] else [];
      var calls := if e.decision.approved && step.tool in c.handlers
        then Tries(Handler(p), s.handler, 1, MAX_ATTEMPTS) else [];
      var publish := Tries(StepPublish(p), s.publish, 1, MAX_ATTEMPTS);
      TriesCall(Handler(p), s.handler, op);
      TriesCall(StepPublish(p), s.publish, op);
      CallsConcat(audit, calls, op);
      CallsConcat(audit + calls, publish, op);
    }
  }

  lemma StepCalls(c: Context, o: Overrides, p: nat, step: Step, s: Script, q: nat)
    ensures Calls(StepEvents(c, o, p, step, s), Handler(q)) <==> q == p && RunsHandler(c, o, step, s)
  {
    if step.tool in c.registry {
      var r := RequestFor(c, step);
      var e := EvaluationOf(o, c.hasCallback, r, s.answer);
      AfterGateCalls(c, p, step, s, e, Handler(q));
      CallsConcat([Evaluated(p, EffectiveRisk(o, r), e)], AfterGate(c, p, step, s, e), Handler(q));
    }
  }

  /** No earlier step hangs, and the step's handler is to run under the overrides in force. */
  predicate Due(c: Context, o: Overrides, order: seq<Step>, scripts: seq<Script>, q: nat)
    requires q < |order| == |scripts|
  {
    !HungBefore(c, o, order, scripts, q) && RunsHandler(c, InForce(o, scripts, q), order[q], scripts[q])
  }

  lemma TurnCalls(c: Context, o: Overrides, order: seq<Step>, scripts: seq<Script>, n: nat, q: nat)
    requires n < |order| == |scripts|
    ensures Calls(RunEvents(c, o, order, scripts, n + 1), Handler(q)) <==>
      Calls(RunEvents(c, o, order, scripts, n), Handler(q)) || (q == n && Due(c, o, order, scripts, n))
  {
    if !HungBefore(c, o, order, scripts, n) {
      StepCalls(c, InForce(o, scripts, n), n, order[n], scripts[n], q);
      CallsConcat(RunEvents(c, o, order, scripts, n),
                  StepEvents(c, InForce(o, scripts, n), n, order[n], scripts[n]), Handler(q));
    }
  }

  lemma {:induction false} RunCalls(c: Context, o: Overrides, order: seq<Step>, scripts: seq<Script>, n: nat, q: nat)
    requires n <= |order| == |scripts|
    ensures Calls(RunEvents(c, o, order, scripts, n), Handler(q)) <==> q < n && Due(c, o, order, scripts, q)
  {
    if n > 0 {
      RunCalls(c, o, order, scripts, n - 1, q);
      TurnCalls(c, o, order, scripts, n - 1, q);
    }
  }

  /** The handler of a step is called exactly when no earlier step hangs, its tool is declared and
      has a handler, and the gate permits it under the overrides in force at that step. What
      happened to the steps it depends on does not enter. */
  lemma CalledIff(c: Context, o: Overrides, order: seq<Step>, scripts: seq<Script>, completion: seq<bool>, q: nat)
    requires |order| == |scripts|
    ensures Calls(FullRun(c, o, order, scripts, completion), Handler(q)) <==>
      q < |order| && Due(c, o, order, scripts, q)
  {
    RunCalls(c, o, order, scripts, |order|, q);
    TriesCall(CompletionPublish, completion, Handler(q));
    CallsConcat(RunEvents(c, o, order, scripts, |order|), Tries(CompletionPublish, completion, 1, MAX_ATTEMPTS),
      Handler(q));
    if HungBefore(c, o, order, scripts, |order|) {
      assert FullRun(c, o, order, scripts, completion) == RunEvents(c, o, order, scripts, |order|);
    }
  }

  /** Without a human channel nothing above medium risk is ever called. */
  lemma NoCallbackNoCall(c: Context, o: Overrides, order: seq<Step>, scripts: seq<Script>, completion: seq<bool>,
                         q: nat)
    requires |order| == |scripts| && !c.hasCallback
    requires q < |order| && order[q].tool in c.registry
    requires EffectiveRisk(InForce(o, scripts, q), RequestFor(c, order[q])) in {High, Critical}
    ensures !Calls(FullRun(c, o, order, scripts, completion), Handler(q))
  {
    CalledIff(c, o, order, scripts, completion, q);
  }

  /** A step runs although the gate denied the step it depends on: dependencies order, they do not guard. */
  lemma DeniedDependencyDoesNotGuard(c: Context, o: Overrides, order: seq<Step>, scripts: seq<Script>,
                                     completion: seq<bool>, d: nat, q: nat)
    requires |order| == |scripts| && d < q < |order| && order[d].tool in order[q].dependsOn
    requires !RunsHandler(c, InForce(o, scripts, d), order[d], scripts[d]) && Due(c, o, order, scripts, q)
    ensures !Calls(FullRun(c, o, order, scripts, completion), Handler(d))
    ensures Calls(FullRun(c, o, order, scripts, completion), Handler(q))
  {
    CalledIff(c, o, order, scripts, completion, d);
    CalledIff(c, o, order, scripts, completion, q);
  }

  /** Such a run: without a human channel `a` is denied for its high risk, and `b`, which depends on
      it, is called all the same. */
  lemma DeniedDependencyRuns(s: Script, completion: seq<bool>)
    requires s.changes == []
    ensures var c := Context(map["a" := High, "b" := Low], {"a", "b"}, true, false);
      var order := [Step("x", "a", []), Step("x", "b", ["a"])];
      && RespectsDependencies(order) && Distinct(Tools(order))
      && !Calls(FullRun(c, map[], order, [s, s], completion), Handler(0))
      && Calls(FullRun(c, map[], order, [s, s], completion), Handler(1))
  {
    var c := Context(map["a" := High, "b" := Low], {"a", "b"}, true, false);
    var order := [Step("x", "a", []), Step("x", "b", ["a"])];
    assert Tools(order[..1]) == ["a"] && Tools(order[..1])[0] == "a";
    assert Tools(order) == ["a", "b"];
    JudgedByLastWord(c, [s, s], order[0], 0);
    JudgedByLastWord(c, [s, s], order[1], 1);
    NothingChanges([s, s], 2);
    NothingChanges([s, s], 1);
    assert HungBefore(c, map[], order, [s, s], 0) == false;
    assert HungBefore(c, map[], order, [s, s], 1) == false;
    DeniedDependencyDoesNotGuard(c, map[], order, [s, s], completion, 0, 1);
  }

  lemma {:induction false} NothingChanges(scripts: seq<Script>, n: nat)
    requires n <= |scripts| && forall i :: 0 <= i < n ==> scripts[i].changes == []
    ensures AllChanges(scripts, n) == []
  {
    if n > 0 {
      NothingChanges(scripts, n - 1);
    }
  }

  function AllChanges(scripts: seq<Script>, n: nat): seq<Change>
    requires n <= |scripts|
  {
    if n == 0 then [] else AllChanges(scripts, n - 1) + scripts[n - 1].changes
  }

  lemma {:induction false} OverridesAreAllChanges(o: Overrides, scripts: seq<Script>, n: nat)
    requires n <= |scripts|
    ensures OverridesAt(o, scripts, n) == ApplyChanges(o, AllChanges(scripts, n))
  {
    if n > 0 {
      OverridesAreAllChanges(o, scripts, n - 1);
      ChangesAppend(o, AllChanges(scripts, n - 1), scripts[n - 1].changes);
    }
  }

  /** The risk a step is judged by is the last one set for it up to its turn, else the declared one. */
  lemma JudgedByLastWord(c: Context, scripts: seq<Script>, step: Step, q: nat)
    requires q < |scripts| && step.tool in c.registry
    ensures EffectiveRisk(InForce(map[], scripts, q), RequestFor(c, step)) ==
      LastSet(AllChanges(scripts, q + 1), RequestFor(c, step))
  {
    OverridesAreAllChanges(map[], scripts, q + 1);
    LastWordCounts(AllChanges(scripts, q + 1), RequestFor(c, step));
  }

  // ----- order

  ghost predicate InOrder(log: seq<Event>, n: nat) {
    forall j, k :: 0 <= j < k < |log| ==> Place(log[j], n) <= Place(log[k], n)
  }

  ghost predicate AllAt(log: seq<Event>, n: nat, p: nat) {
    forall k :: 0 <= k < |log| ==> Place(log[k], n) == p
  }

  lemma TriesAt(op: Operation, outcomes: seq<bool>, n: nat)
    ensures AllAt(Tries(op, outcomes, 1, MAX_ATTEMPTS), n, PlaceOf(op, n))
  {
    TriesAreOf(op, outcomes, 1, MAX_ATTEMPTS);
  }

  lemma StepAt(c: Context, o: Overrides, p: nat, step: Step, s: Script, n: nat)
    ensures AllAt(StepEvents(c, o, p, step, s), n, p)
  {
    TriesAt(Handler(p), s.handler, n);
    TriesAt(StepPublish(p), s.publish, n);
  }

  lemma InOrderConcat(a: seq<Event>, b: seq<Event>, n: nat, p: nat)
    requires InOrder(a, n) && AllAt(b, n, p) && forall k :: 0 <= k < |a| ==> Place(a[k], n) <= p
    ensures InOrder(a + b, n) && forall k :: 0 <= k < |a + b| ==> Place((a + b)[k], n) <= p
  {
  }

  lemma {:induction false} StepsInOrder(c: Context, o: Overrides, order: seq<Step>, scripts: seq<Script>, n: nat)
    requires n <= |order| == |scripts|
    ensures InOrder(RunEvents(c, o, order, scripts, n), |order|)
    ensures forall k :: 0 <= k < |RunEvents(c, o, order, scripts, n)| ==>
      Place(RunEvents(c, o, order, scripts, n)[k], |order|) < n
  {
    if n > 0 {
      StepsInOrder(c, o, order, scripts, n - 1);
      if !HungBefore(c, o, order, scripts, n - 1) {
        var b := StepEvents(c, InForce(o, scripts, n - 1), n - 1, order[n - 1], scripts[n - 1]);
        StepAt(c, InForce(o, scripts, n - 1), n - 1, order[n - 1], scripts[n - 1], |order|);
        InOrderConcat(RunEvents(c, o, order, scripts, n - 1), b, |order|, n - 1);
      }
    }
  }

  /** All that happens for a step happens before anything for a later one, and the completion comes last. */
  lemma RunInOrder(c: Context, o: Overrides, order: seq<Step>, scripts: seq<Script>, completion: seq<bool>)
    requires |order| == |scripts|
    ensures InOrder(FullRun(c, o, order, scripts, completion), |order|)
  {
    StepsInOrder(c, o, order, scripts, |order|);
    TriesAt(CompletionPublish, completion, |order|);
    if !HungBefore(c, o, order, scripts, |order|) {
      InOrderConcat(RunEvents(c, o, order, scripts, |order|), Tries(CompletionPublish, completion, 1, MAX_ATTEMPTS),
        |order|, |order|);
    } else {
      assert FullRun(c, o, order, scripts, completion) == RunEvents(c, o, order, scripts, |order|);
    }
  }

  /** Everything that happens for a step comes after everything that happened for a step it depends on. */
  lemma DependenciesComeFirst(c: Context, o: Overrides, order: seq<Step>, scripts: seq<Script>, completion: seq<bool>,
                              j: nat, k: nat)
    requires |order| == |scripts| && RespectsDependencies(order) && Distinct(Tools(order))
    requires j < |FullRun(c, o, order, scripts, completion)| && k < |FullRun(c, o, order, scripts, completion)|
    requires var log := FullRun(c, o, order, scripts, completion);
      var d, q := Place(log[j], |order|), Place(log[k], |order|);
      d < |order| && q < |order| && order[d].tool in order[q].dependsOn
    ensures j < k
  {
    var log := FullRun(c, o, order, scripts, completion);
    RunInOrder(c, o, order, scripts, completion);
    DependencyIsEarlier(order, Place(log[j], |order|), Place(log[k], |order|));
  }

  lemma DependencyIsEarlier(order: seq<Step>, d: nat, q: nat)
    requires RespectsDependencies(order) && Distinct(Tools(order)) && d < |order| && q < |order|
    requires order[d].tool in order[q].dependsOn
    ensures d < q
  {
    var m :| 0 <= m < |order[q].dependsOn| && order[q].dependsOn[m] == order[d].tool;
    var e :| 0 <= e < q && Tools(order[..q])[e] == order[d].tool;
    assert Tools(order)[e] == Tools(order)[d];
  }

  /** A handler call comes after the evaluation that admitted it. */
  ghost predicate Admitted(log: seq<Event>, k: nat, p: nat, risk: Risk) {
    exists j :: 0 <= j < k && j < |log| && log[j].Evaluated? && log[j].position == p && log[j].risk == risk &&
      Admits(log[j].result)
  }

  lemma StepAdmits(c: Context, o: Overrides, p: nat, step: Step, s: Script, k: nat)
    requires k < |StepEvents(c, o, p, step, s)| && StepEvents(c, o, p, step, s)[k].Attempted? &&
      StepEvents(c, o, p, step, s)[k].op == Handler(p)
    ensures step.tool in c.registry &&
      Admitted(StepEvents(c, o, p, step, s), k, p, EffectiveRisk(o, RequestFor(c, step)))
  {
    var log := StepEvents(c, o, p, step, s);
    assert Calls(log, Handler(p));
    StepCalls(c, o, p, step, s, p);
    assert log[0].Evaluated? && Admits(log[0].result);
  }

  /** If event `k` calls a handler, the gate admitted that step before, at the risk in force. */
  ghost predicate Vouched(c: Context, o: Overrides, order: seq<Step>, scripts: seq<Script>, log: seq<Event>, k: nat)
    requires |order| == |scripts| && k < |log|
  {
    log[k].Attempted? && log[k].op.Handler? ==>
      var p := log[k].op.position;
      p < |order| && order[p].tool in c.registry &&
      Admitted(log, k, p, EffectiveRisk(InForce(o, scripts, p), RequestFor(c, order[p])))
  }

  lemma VouchedLeft(c: Context, o: Overrides, order: seq<Step>, scripts: seq<Script>, a: seq<Event>, b: seq<Event>,
                    k: nat)
    requires |order| == |scripts| && k < |a| && Vouched(c, o, order, scripts, a, k)
    ensures Vouched(c, o, order, scripts, a + b, k)
  {
    if a[k].Attempted? && a[k].op.Handler? {
      var p := a[k].op.position;
      var risk := EffectiveRisk(InForce(o, scripts, p), RequestFor(c, order[p]));
      var j :| 0 <= j < k && j < |a| && a[j].Evaluated? && a[j].position == p && a[j].risk == risk &&
        Admits(a[j].result);
      assert (a + b)[j] == a[j];
      assert Admitted(a + b, k, p, risk);
    }
  }

  lemma VouchedRight(c: Context, o: Overrides, order: seq<Step>, scripts: seq<Script>, a: seq<Event>, q: nat, k: nat)
    requires q < |order| == |scripts|
    requires k < |StepEvents(c, InForce(o, scripts, q), q, order[q], scripts[q])|
    ensures Vouched(c, o, order, scripts, a + StepEvents(c, InForce(o, scripts, q), q, order[q], scripts[q]), |a| + k)
  {
    var b := StepEvents(c, InForce(o, scripts, q), q, order[q], scripts[q]);
    assert (a + b)[|a| + k] == b[k];
    if b[k].Attempted? && b[k].op.Handler? {
      StepAt(c, InForce(o, scripts, q), q, order[q], scripts[q], |order|);
      assert Place(b[k], |order|) == q;
      StepAdmits(c, InForce(o, scripts, q), q, order[q], scripts[q], k);
      Shift(a, b, k, q, EffectiveRisk(InForce(o, scripts, q), RequestFor(c, order[q])));
    }
  }

  ghost predicate AllVouched(c: Context, o: Overrides, order: seq<Step>, scripts: seq<Script>, log: seq<Event>)
    requires |order| == |scripts|
  {
    forall k {:trigger Vouched(c, o, order, scripts, log, k)} :: 0 <= k < |log| ==>
      Vouched(c, o, order, scripts, log, k)
  }

  lemma VouchedConcat(c: Context, o: Overrides, order: seq<Step>, scripts: seq<Script>, a: seq<Event>, q: nat)
    requires q < |order| == |scripts| && AllVouched(c, o, order, scripts, a)
    ensures AllVouched(c, o, order, scripts, a + StepEvents(c, InForce(o, scripts, q), q, order[q], scripts[q]))
  {
    var b := StepEvents(c, InForce(o, scripts, q), q, order[q], scripts[q]);
    forall k: nat | k < |a + b| ensures Vouched(c, o, order, scripts, a + b, k) {
      if k < |a| {
        VouchedLeft(c, o, order, scripts, a, b, k);
      } else {
        VouchedRight(c, o, order, scripts, a, q, k - |a|);
      }
    }
  }

  lemma {:induction false} StepsVouched(c: Context, o: Overrides, order: seq<Step>, scripts: seq<Script>, n: nat)
    requires n <= |order| == |scripts|
    ensures AllVouched(c, o, order, scripts, RunEvents(c, o, order, scripts, n))
  {
    if n > 0 {
      StepsVouched(c, o, order, scripts, n - 1);
      if !HungBefore(c, o, order, scripts, n - 1) {
        VouchedConcat(c, o, order, scripts, RunEvents(c, o, order, scripts, n - 1), n - 1);
      }
    }
  }

  /** Every handler call of a run follows an evaluation that approved its step under the override in force. */
  lemma CallsAreVouchedFor(c: Context, o: Overrides, order: seq<Step>, scripts: seq<Script>, completion: seq<bool>)
    requires |order| == |scripts|
    ensures AllVouched(c, o, order, scripts, FullRun(c, o, order, scripts, completion))
  {
    StepsVouched(c, o, order, scripts, |order|);
    var a := RunEvents(c, o, order, scripts, |order|);
    var b := Tries(CompletionPublish, completion, 1, MAX_ATTEMPTS);
    TriesAreOf(CompletionPublish, completion, 1, MAX_ATTEMPTS);
    forall k: nat | k < |a + b| ensures Vouched(c, o, order, scripts, a + b, k) {
      if k < |a| {
        VouchedLeft(c, o, order, scripts, a, b, k);
      } else {
        assert (a + b)[k] == b[k - |a|];
      }
    }
    if HungBefore(c, o, order, scripts, |order|) {
      assert FullRun(c, o, order, scripts, completion) == a;
    }
  }

  lemma Shift(a: seq<Event>, b: seq<Event>, k: nat, p: nat, risk: Risk)
    requires Admitted(b, k, p, risk)
    ensures Admitted(a + b, |a| + k, p, risk)
  {
    var j :| 0 <= j < k && j < |b| && b[j].Evaluated? && b[j].position == p && b[j].risk == risk && Admits(b[j].result);
    assert (a + b)[|a| + j] == b[j];
  }

  // ----- how many calls

  lemma {:induction false} AttemptsConcat(a: seq<Event>, b: seq<Event>, h: bool)
    ensures Attempts(a + b, h) == Attempts(a, h) + Attempts(b, h)
  {
    if a == [] {
      assert a + b == b;
    } else {
      assert (a + b)[1..] == a[1..] + b;
      AttemptsConcat(a[1..], b, h);
    }
  }

  lemma TriesBound(op: Operation, outcomes: seq<bool>, h: bool)
    ensures Attempts(Tries(op, outcomes, 1, MAX_ATTEMPTS), h) <= if op.Handler? == h then MAX_ATTEMPTS else 0
  {
    var failures := RetryBounds(op, outcomes, MAX_ATTEMPTS);
  }

  lemma AfterGateBound(c: Context, p: nat, step: Step, s: Script, e: Evaluation, h: bool)
    requires step.tool in c.registry
    ensures Attempts(AfterGate(c, p, step, s, e), h) <= MAX_ATTEMPTS
  {
    if e.Decided? {
      var audit := if c.hasPool then [Audited(p, c.registry[step.tool], e.decision)] else [];
      var calls := if e.decision.approved && step.tool in c.handlers
        then Tries(Handler(p), s.handler, 1, MAX_ATTEMPTS) else [];
      TriesBound(Handler(p), s.handler, h);
      TriesBound(StepPublish(p), s.publish, h);
      assert c.hasPool ==> audit[1..] == [];
      AttemptsConcat(audit, calls, h);
      AttemptsConcat(audit + calls, Tries(StepPublish(p), s.publish, 1, MAX_ATTEMPTS), h);
    }
  }

  lemma StepBound(c: Context, o: Overrides, p: nat, step: Step, s: Script, h: bool)
    ensures Attempts(StepEvents(c, o, p, step, s), h) <= MAX_ATTEMPTS
  {
    if step.tool in c.registry {
      var r := RequestFor(c, step);
      var e := EvaluationOf(o, c.hasCallback, r, s.answer);
      AfterGateBound(c, p, step, s, e, h);
      var first := [Evaluated(p, EffectiveRisk(o, r), e)];
      assert first[1..] == [];
      AttemptsConcat(first, AfterGate(c, p, step, s, e), h);
    }
  }

  lemma {:induction false} StepsBound(c: Context, o: Overrides, order: seq<Step>, scripts: seq<Script>, n: nat, h: bool)
    requires n <= |order| == |scripts|
    ensures Attempts(RunEvents(c, o, order, scripts, n), h) <= MAX_ATTEMPTS * n
  {
    if n > 0 {
      StepsBound(c, o, order, scripts, n - 1, h);
      if !HungBefore(c, o, order, scripts, n - 1) {
        var b := StepEvents(c, InForce(o, scripts, n - 1), n - 1, order[n - 1], scripts[n - 1]);
        StepBound(c, InForce(o, scripts, n - 1), n - 1, order[n - 1], scripts[n - 1], h);
        AttemptsConcat(RunEvents(c, o, order, scripts, n - 1), b, h);
      }
    }
  }

  /** A run of n steps calls handlers at most 3n times and the bus at most 3(n + 1) times. */
  lemma RunBound(c: Context, o: Overrides, order: seq<Step>, scripts: seq<Script>, completion: seq<bool>)
    requires |order| == |scripts|
    ensures Attempts(FullRun(c, o, order, scripts, completion), true) <= 3 * |order|
    ensures Attempts(FullRun(c, o, order, scripts, completion), false) <= 3 * (|order| + 1)
  {
    var last := Tries(CompletionPublish, completion, 1, MAX_ATTEMPTS);
    forall h ensures Attempts(FullRun(c, o, order, scripts, completion), h) <= 3 * |order| + if h then 0 else 3 {
      StepsBound(c, o, order, scripts, |order|, h);
      TriesBound(CompletionPublish, completion, h);
      AttemptsConcat(RunEvents(c, o, order, scripts, |order|), last, h);
      AttemptsConcat(RunEvents(c, o, order, scripts, |order|), [], h);
    }
  }
}
