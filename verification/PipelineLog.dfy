/** What the log of a pipeline run holds for each step, and in which order. */
module PipelineLog {
  import opened Common
  import opened ApprovalGate
  import opened TopologicalSort
  import opened PipelineRunner

  // ----- the part of the log that belongs to one step

  ghost predicate AllAbove(log: seq<Event>, n: nat, p: nat) {
    forall k :: 0 <= k < |log| ==> Place(log[k], n) > p
  }

  /** The events of step `p` when it is reached. */
  function EventsAt(c: Context, o: Overrides, order: seq<Step>, scripts: seq<Script>, p: nat): seq<Event>
    requires p < |order| == |scripts|
  {
    StepEvents(c, InForce(o, scripts, p), p, order[p], scripts[p])
  }

  lemma Later(a: seq<Event>, post: seq<Event>, last: seq<Event>, n: nat, q: nat, p: nat)
    requires AllAbove(post, n, q) && AllAt(last, n, p) && q < p
    ensures a + post + last == a + (post + last) && AllAbove(post + last, n, q)
  {
  }

  lemma {:induction false} PartGrows(c: Context, o: Overrides, order: seq<Step>, scripts: seq<Script>, n: nat, q: nat,
                                     head: seq<Event>, post: seq<Event>)
    returns (more: seq<Event>)
    requires q < n < |order| == |scripts| && AllAbove(post, |order|, q)
    requires RunEvents(c, o, order, scripts, n) == head + post
    ensures RunEvents(c, o, order, scripts, n + 1) == head + more && AllAbove(more, |order|, q)
  {
    more := post;
    if !HungBefore(c, o, order, scripts, n) {
      var last := EventsAt(c, o, order, scripts, n);
      StepAt(c, InForce(o, scripts, n), n, order[n], scripts[n], |order|);
      Later(head, post, last, |order|, q, n);
      more := post + last;
    }
  }

  lemma {:induction false} RunPart(c: Context, o: Overrides, order: seq<Step>, scripts: seq<Script>, n: nat, q: nat,
                                   head: seq<Event>)
    returns (post: seq<Event>)
    requires q < n <= |order| == |scripts| && head == RunEvents(c, o, order, scripts, q + 1)
    ensures RunEvents(c, o, order, scripts, n) == head + post && AllAbove(post, |order|, q)
  {
    if q < n - 1 {
      post := RunPart(c, o, order, scripts, n - 1, q, head);
      post := PartGrows(c, o, order, scripts, n - 1, q, head, post);
    } else {
      post := [];
    }
  }

  lemma FullPart(c: Context, o: Overrides, order: seq<Step>, scripts: seq<Script>, completion: seq<bool>, q: nat)
    returns (post: seq<Event>)
    requires q < |order| == |scripts| && !HungBefore(c, o, order, scripts, q)
    ensures FullRun(c, o, order, scripts, completion) ==
      RunEvents(c, o, order, scripts, q) + EventsAt(c, o, order, scripts, q) + post
    ensures AllAbove(post, |order|, q)
  {
    var before := RunEvents(c, o, order, scripts, q) + EventsAt(c, o, order, scripts, q);
    post := RunPart(c, o, order, scripts, |order|, q, before);
    if HungBefore(c, o, order, scripts, |order|) {
      assert FullRun(c, o, order, scripts, completion) == RunEvents(c, o, order, scripts, |order|);
    } else {
      var last := Tries(CompletionPublish, completion, 1, MAX_ATTEMPTS);
      TriesAt(CompletionPublish, completion, |order|);
      Later(before, post, last, |order|, q, |order|);
      post := post + last;
    }
  }

  lemma HungEnds(c: Context, o: Overrides, order: seq<Step>, scripts: seq<Script>, completion: seq<bool>, q: nat)
    requires q < |order| == |scripts| && HungBefore(c, o, order, scripts, q)
    ensures FullRun(c, o, order, scripts, completion) == RunEvents(c, o, order, scripts, q)
  {
    HungStays(c, o, order, scripts, q, |order|);
  }

  /** An event of step `q` is logged exactly if the step is reached and the event is one of its own. */
  lemma EventsOf(c: Context, o: Overrides, order: seq<Step>, scripts: seq<Script>, completion: seq<bool>, x: Event)
    requires |order| == |scripts| && Place(x, |order|) < |order|
    ensures var q := Place(x, |order|);
      x in FullRun(c, o, order, scripts, completion) <==>
      !HungBefore(c, o, order, scripts, q) && x in EventsAt(c, o, order, scripts, q)
  {
    var q, log := Place(x, |order|), FullRun(c, o, order, scripts, completion);
    StepsInOrder(c, o, order, scripts, q);
    var before := RunEvents(c, o, order, scripts, q);
    assert x !in before;
    if HungBefore(c, o, order, scripts, q) {
      HungEnds(c, o, order, scripts, completion, q);
    } else {
      var post := FullPart(c, o, order, scripts, completion, q);
      assert x !in post;
      InConcat(before, EventsAt(c, o, order, scripts, q), post, x);
    }
  }

  lemma InConcat(a: seq<Event>, b: seq<Event>, c: seq<Event>, x: Event)
    ensures x in a + b + c <==> x in a || x in b || x in c
  {
  }

  // ----- evaluations, audit records, calls

  /** The run gets to step `q`: no earlier step waits for ever. */
  ghost predicate Reached(log: seq<Event>, q: nat) {
    forall j: nat, r {:trigger Evaluated(j, r, Waiting)} :: j < q ==> Evaluated(j, r, Waiting) !in log
  }

  /** The gate decided about step `q`, in that way. */
  ghost predicate DecidedAs(log: seq<Event>, q: nat, d: Decision) {
    exists r :: Evaluated(q, r, Decided(d)) in log
  }

  lemma {:induction false} HungMeans(c: Context, o: Overrides, order: seq<Step>, scripts: seq<Script>,
                                     completion: seq<bool>, q: nat)
    requires q <= |order| == |scripts|
    ensures HungBefore(c, o, order, scripts, q) <==> !Reached(FullRun(c, o, order, scripts, completion), q)
  {
    var log := FullRun(c, o, order, scripts, completion);
    if q > 0 {
      HungMeans(c, o, order, scripts, completion, q - 1);
      WaitsAt(c, o, order, scripts, completion, q - 1);
    }
  }

  lemma WaitsAt(c: Context, o: Overrides, order: seq<Step>, scripts: seq<Script>, completion: seq<bool>, p: nat)
    requires p < |order| == |scripts|
    ensures (exists r :: Evaluated(p, r, Waiting) in FullRun(c, o, order, scripts, completion)) <==>
      !HungBefore(c, o, order, scripts, p) && Hangs(c, InForce(o, scripts, p), order[p], scripts[p])
  {
    var log, force := FullRun(c, o, order, scripts, completion), InForce(o, scripts, p);
    forall r
      ensures Evaluated(p, r, Waiting) in log <==>
        !HungBefore(c, o, order, scripts, p) && Hangs(c, force, order[p], scripts[p]) &&
        r == EffectiveRisk(force, RequestFor(c, order[p]))
    {
      EventsOf(c, o, order, scripts, completion, Evaluated(p, r, Waiting));
      StepHolds(c, force, p, order[p], scripts[p], Evaluated(p, r, Waiting));
    }
    if Hangs(c, force, order[p], scripts[p]) && !HungBefore(c, o, order, scripts, p) {
      assert Evaluated(p, EffectiveRisk(force, RequestFor(c, order[p])), Waiting) in log;
    }
  }

  lemma StepHolds(c: Context, o: Overrides, p: nat, step: Step, s: Script, x: Event)
    requires x.Evaluated? || x.Audited?
    ensures x in StepEvents(c, o, p, step, s) <==>
      step.tool in c.registry &&
      var e := EvaluationOf(o, c.hasCallback, Request(step.agent, step.tool, c.registry[step.tool]), s.answer);
      if x.Evaluated? then
        x == Evaluated(p, EffectiveRisk(o, Request(step.agent, step.tool, c.registry[step.tool])), e)
      else c.hasPool && e.Decided? && x == Audited(p, c.registry[step.tool], e.decision)
  {
    TriesAreOf(Handler(p), s.handler, 1, MAX_ATTEMPTS);
    TriesAreOf(StepPublish(p), s.publish, 1, MAX_ATTEMPTS);
  }

  /** A declared step that is reached is evaluated once, at the risk in force and as the gate says; no other is. */
  lemma EvaluatedIff(c: Context, o: Overrides, order: seq<Step>, scripts: seq<Script>, completion: seq<bool>, q: nat,
                     r: Risk, e: Evaluation)
    requires q < |order| == |scripts|
    ensures var log, tool := FullRun(c, o, order, scripts, completion), order[q].tool;
      Evaluated(q, r, e) in log <==>
      Reached(log, q) && tool in c.registry &&
      var request := Request(order[q].agent, tool, c.registry[tool]);
      r == EffectiveRisk(InForce(o, scripts, q), request) &&
      e == EvaluationOf(InForce(o, scripts, q), c.hasCallback, request, scripts[q].answer)
  {
    HungMeans(c, o, order, scripts, completion, q);
    EventsOf(c, o, order, scripts, completion, Evaluated(q, r, e));
    StepHolds(c, InForce(o, scripts, q), q, order[q], scripts[q], Evaluated(q, r, e));
  }

  /** With an audit pool every decision about a step is recorded, denials included, with the declared
      risk; without one, or without a decision, nothing is. */
  lemma AuditedIff(c: Context, o: Overrides, order: seq<Step>, scripts: seq<Script>, completion: seq<bool>, q: nat,
                   risk: Risk, d: Decision)
    requires q < |order| == |scripts|
    ensures var log := FullRun(c, o, order, scripts, completion);
      Audited(q, risk, d) in log <==>
      c.hasPool && order[q].tool in c.registry && risk == c.registry[order[q].tool] && DecidedAs(log, q, d)
  {
    var log, force := FullRun(c, o, order, scripts, completion), InForce(o, scripts, q);
    EventsOf(c, o, order, scripts, completion, Audited(q, risk, d));
    StepHolds(c, force, q, order[q], scripts[q], Audited(q, risk, d));
    DecidedIff(c, o, order, scripts, completion, q, d);
  }

  lemma DecidedIff(c: Context, o: Overrides, order: seq<Step>, scripts: seq<Script>, completion: seq<bool>, q: nat,
                   d: Decision)
    requires q < |order| == |scripts|
    ensures DecidedAs(FullRun(c, o, order, scripts, completion), q, d) <==>
      !HungBefore(c, o, order, scripts, q) && order[q].tool in c.registry &&
      Decided(d) ==
        EvaluationOf(InForce(o, scripts, q), c.hasCallback, RequestFor(c, order[q]), scripts[q].answer)
  {
    var log, force := FullRun(c, o, order, scripts, completion), InForce(o, scripts, q);
    forall r
      ensures Evaluated(q, r, Decided(d)) in log <==>
        !HungBefore(c, o, order, scripts, q) && Evaluated(q, r, Decided(d)) in EventsAt(c, o, order, scripts, q)
    {
      EventsOf(c, o, order, scripts, completion, Evaluated(q, r, Decided(d)));
    }
    forall r {:trigger Evaluated(q, r, Decided(d))}
      ensures Evaluated(q, r, Decided(d)) in EventsAt(c, o, order, scripts, q) <==>
        order[q].tool in c.registry && r == EffectiveRisk(force, RequestFor(c, order[q])) &&
        Decided(d) == EvaluationOf(force, c.hasCallback, RequestFor(c, order[q]), scripts[q].answer)
    {
      StepHolds(c, force, q, order[q], scripts[q], Evaluated(q, r, Decided(d)));
    }
    if order[q].tool in c.registry {
      var r := EffectiveRisk(force, RequestFor(c, order[q]));
      assert Evaluated(q, r, Decided(d)) in EventsAt(c, o, order, scripts, q) <==>
        Decided(d) == EvaluationOf(force, c.hasCallback, RequestFor(c, order[q]), scripts[q].answer);
    }
  }

  /** A declared step that is reached and not permitted is still audited, unless its human raises an
      error or keeps silent: then the record says that it was refused. */
  lemma RefusalIsAudited(c: Context, o: Overrides, order: seq<Step>, scripts: seq<Script>, completion: seq<bool>,
                         q: nat)
    returns (d: Decision)
    requires q < |order| == |scripts| && c.hasPool && order[q].tool in c.registry
    requires Reached(FullRun(c, o, order, scripts, completion), q)
    requires var request := Request(order[q].agent, order[q].tool, c.registry[order[q].tool]);
      !Permitted(EffectiveRisk(InForce(o, scripts, q), request), c.hasCallback, scripts[q].answer)
    requires c.hasCallback ==> scripts[q].answer.Replies? || scripts[q].answer.RaisesTimeout?
    ensures !d.approved
    ensures Audited(q, c.registry[order[q].tool], d) in FullRun(c, o, order, scripts, completion)
  {
    var request := Request(order[q].agent, order[q].tool, c.registry[order[q].tool]);
    var force := InForce(o, scripts, q);
    EvaluationHolds(force, c.hasCallback, request, scripts[q].answer);
    var e := EvaluationOf(force, c.hasCallback, request, scripts[q].answer);
    d := e.decision;
    HungMeans(c, o, order, scripts, completion, q);
    DecidedIff(c, o, order, scripts, completion, q, d);
    AuditedIff(c, o, order, scripts, completion, q, c.registry[order[q].tool], d);
  }

  /** A step's event is published exactly if the gate decided about it, whatever it decided. */
  lemma PublishedIff(c: Context, o: Overrides, order: seq<Step>, scripts: seq<Script>, completion: seq<bool>, q: nat)
    requires q < |order| == |scripts|
    ensures var log := FullRun(c, o, order, scripts, completion);
      Calls(log, StepPublish(q)) <==> exists d :: DecidedAs(log, q, d)
  {
    var log := FullRun(c, o, order, scripts, completion);
    CallsOf(c, o, order, scripts, completion, q, StepPublish(q));
    DecisionExists(c, o, order, scripts, completion, q);
  }

  /** A step's handler is called exactly if it has one and the gate approved. */
  lemma HandledIff(c: Context, o: Overrides, order: seq<Step>, scripts: seq<Script>, completion: seq<bool>, q: nat)
    requires q < |order| == |scripts|
    ensures var log := FullRun(c, o, order, scripts, completion);
      Calls(log, Handler(q)) <==>
      order[q].tool in c.handlers && exists d: Decision :: DecidedAs(log, q, d) && d.approved
  {
    var log := FullRun(c, o, order, scripts, completion);
    CallsOf(c, o, order, scripts, completion, q, Handler(q));
    DecisionExists(c, o, order, scripts, completion, q);
  }

  lemma DecisionExists(c: Context, o: Overrides, order: seq<Step>, scripts: seq<Script>, completion: seq<bool>, q: nat)
    requires q < |order| == |scripts|
    ensures var log := FullRun(c, o, order, scripts, completion);
      forall d :: DecidedAs(log, q, d) <==>
        !HungBefore(c, o, order, scripts, q) && order[q].tool in c.registry &&
        Decided(d) == EvaluationOf(InForce(o, scripts, q), c.hasCallback, RequestFor(c, order[q]), scripts[q].answer)
  {
    var log := FullRun(c, o, order, scripts, completion);
    forall d
      ensures DecidedAs(log, q, d) <==>
        !HungBefore(c, o, order, scripts, q) && order[q].tool in c.registry &&
        Decided(d) == EvaluationOf(InForce(o, scripts, q), c.hasCallback, RequestFor(c, order[q]), scripts[q].answer)
    {
      DecidedIff(c, o, order, scripts, completion, q, d);
    }
  }

  lemma CallsOf(c: Context, o: Overrides, order: seq<Step>, scripts: seq<Script>, completion: seq<bool>, q: nat,
                op: Operation)
    requires q < |order| == |scripts| && op in {Handler(q), StepPublish(q)}
    ensures Calls(FullRun(c, o, order, scripts, completion), op) <==>
      !HungBefore(c, o, order, scripts, q) && order[q].tool in c.registry &&
      var e := EvaluationOf(InForce(o, scripts, q), c.hasCallback, RequestFor(c, order[q]), scripts[q].answer);
      e.Decided? && (op.Handler? ==> e.decision.approved && order[q].tool in c.handlers)
  {
    var log := FullRun(c, o, order, scripts, completion);
    var own := EventsAt(c, o, order, scripts, q);
    CallsMember(log, op);
    CallsMember(own, op);
    EventsOf(c, o, order, scripts, completion, Attempted(op, true));
    EventsOf(c, o, order, scripts, completion, Attempted(op, false));
    if order[q].tool in c.registry {
      var request := RequestFor(c, order[q]);
      var e := EvaluationOf(InForce(o, scripts, q), c.hasCallback, request, scripts[q].answer);
      AfterGateCalls(c, q, order[q], scripts[q], e, op);
      CallsConcat([Evaluated(q, EffectiveRisk(InForce(o, scripts, q), request), e)],
                  AfterGate(c, q, order[q], scripts[q], e), op);
    }
  }

  lemma CallsMember(log: seq<Event>, op: Operation)
    ensures Calls(log, op) <==> Attempted(op, true) in log || Attempted(op, false) in log
  {
  }

  /** The completion is published exactly if no step waits for ever. */
  lemma CompletedIff(c: Context, o: Overrides, order: seq<Step>, scripts: seq<Script>, completion: seq<bool>)
    requires |order| == |scripts|
    ensures var log := FullRun(c, o, order, scripts, completion);
      Calls(log, CompletionPublish) <==> Reached(log, |order|)
  {
    HungMeans(c, o, order, scripts, completion, |order|);
    var before := RunEvents(c, o, order, scripts, |order|);
    StepsInOrder(c, o, order, scripts, |order|);
    if HungBefore(c, o, order, scripts, |order|) {
      assert FullRun(c, o, order, scripts, completion) == before;
    } else {
      TriesCall(CompletionPublish, completion, CompletionPublish);
      CallsConcat(before, Tries(CompletionPublish, completion, 1, MAX_ATTEMPTS), CompletionPublish);
    }
  }

  // ----- order within a step

  /** Gate, record, handler, publication. */
  function Stage(e: Event): nat {
    match e
    case Evaluated(_, _, _) => 0
    case Audited(_, _, _) => 1
    case Attempted(op, _) => if op.Handler? then 2 else 3
    case BackedOff(op, _) => if op.Handler? then 2 else 3
  }

  ghost predicate Staged(log: seq<Event>) {
    forall j, k :: 0 <= j < k < |log| ==>
      Stage(log[j]) < Stage(log[k]) || (Stage(log[j]) == Stage(log[k]) && Stage(log[j]) >= 2)
  }

  ghost predicate AllStage(log: seq<Event>, n: nat) {
    forall k :: 0 <= k < |log| ==> Stage(log[k]) == n
  }

  lemma StagedConcat(a: seq<Event>, b: seq<Event>, n: nat)
    requires Staged(a) && (forall k :: 0 <= k < |a| ==> Stage(a[k]) < n)
    requires AllStage(b, n) && (n < 2 ==> |b| <= 1)
    ensures Staged(a + b) && forall k :: 0 <= k < |a + b| ==> Stage((a + b)[k]) < n + 1
  {
  }

  lemma TriesStaged(op: Operation, outcomes: seq<bool>)
    ensures AllStage(Tries(op, outcomes, 1, MAX_ATTEMPTS), if op.Handler? then 2 else 3)
  {
    TriesAreOf(op, outcomes, 1, MAX_ATTEMPTS);
  }

  lemma FourStages(gate: Event, audit: seq<Event>, calls: seq<Event>, publish: seq<Event>)
    requires Stage(gate) == 0 && |audit| <= 1
    requires AllStage(audit, 1) && AllStage(calls, 2) && AllStage(publish, 3)
    ensures Staged([gate] + (audit + calls + publish))
  {
    StagedConcat([gate], audit, 1);
    StagedConcat([gate] + audit, calls, 2);
    StagedConcat([gate] + audit + calls, publish, 3);
    assert [gate] + (audit + calls + publish) == [gate] + audit + calls + publish;
  }

  lemma StepStaged(c: Context, o: Overrides, p: nat, step: Step, s: Script)
    ensures Staged(StepEvents(c, o, p, step, s))
  {
    if step.tool in c.registry {
      var e := EvaluationOf(o, c.hasCallback, RequestFor(c, step), s.answer);
      if e.Decided? {
        TriesStaged(Handler(p), s.handler);
        TriesStaged(StepPublish(p), s.publish);
        FourStages(Evaluated(p, EffectiveRisk(o, RequestFor(c, step)), e),
                   if c.hasPool then [Audited(p, c.registry[step.tool], e.decision)] else [],
                   if e.decision.approved && step.tool in c.handlers
                   then Tries(Handler(p), s.handler, 1, MAX_ATTEMPTS) else [],
                   Tries(StepPublish(p), s.publish, 1, MAX_ATTEMPTS));
      }
    }
  }

  /** In the log of a run a step is evaluated at most once, then recorded at most once, then its handler
      is called, and then its event is published. */
  lemma StepInOrder(c: Context, o: Overrides, order: seq<Step>, scripts: seq<Script>, completion: seq<bool>,
                    j: nat, k: nat)
    requires |order| == |scripts| && j < k < |FullRun(c, o, order, scripts, completion)|
    requires var log := FullRun(c, o, order, scripts, completion);
      Place(log[j], |order|) == Place(log[k], |order|) < |order|
    ensures var log := FullRun(c, o, order, scripts, completion);
      Stage(log[j]) < Stage(log[k]) || (Stage(log[j]) == Stage(log[k]) && Stage(log[j]) >= 2)
  {
    var log := FullRun(c, o, order, scripts, completion);
    var q := Place(log[j], |order|);
    var before, own := RunEvents(c, o, order, scripts, q), EventsAt(c, o, order, scripts, q);
    StepsInOrder(c, o, order, scripts, q);
    assert log[j] in log;
    EventsOf(c, o, order, scripts, completion, log[j]);
    var post := FullPart(c, o, order, scripts, completion, q);
    StepStaged(c, InForce(o, scripts, q), q, order[q], scripts[q]);
    Sides(before, own, post, |order|, q);
  }

  lemma Sides(a: seq<Event>, b: seq<Event>, c: seq<Event>, n: nat, q: nat)
    requires AllAbove(c, n, q) && forall i :: 0 <= i < |a| ==> Place(a[i], n) < q
    ensures forall k :: 0 <= k < |a + b + c| ==>
      Place((a + b + c)[k], n) == q ==> |a| <= k < |a| + |b| && (a + b + c)[k] == b[k - |a|]
  {
    var log := a + b + c;
    assert forall k :: 0 <= k < |a| ==> log[k] == a[k];
    assert forall k :: |a| + |b| <= k < |log| ==> log[k] == c[k - |a| - |b|];
  }

  // ----- attempts

  /** `n` failed attempts from the `from`-th on, each followed by its wait. */
  function FailedTries(op: Operation, from: nat, n: nat): seq<Event>
    requires from >= 1
    decreases n
  {
    if n == 0 then []
    else [Attempted(op, false), BackedOff(op, 0.25 * Pow2(from - 1) as real)] + FailedTries(op, from + 1, n - 1)
  }

  /** `n` failures with doubling waits, and then the attempt that succeeds, or the last one allowed. */
  ghost predicate Retried(op: Operation, outcomes: seq<bool>, attempt: nat, max: int, n: nat)
    requires attempt >= 1
  {
    && Tries(op, outcomes, attempt, max) ==
         FailedTries(op, attempt, n) + [Attempted(op, Succeeds(outcomes, attempt + n))]
    && (forall a :: attempt <= a < attempt + n ==> !Succeeds(outcomes, a))
    && (n > 0 ==> attempt + n <= max)
    && (Succeeds(outcomes, attempt + n) || attempt + n >= max)
  }

  lemma RetriedOneMore(op: Operation, outcomes: seq<bool>, attempt: nat, max: int, n: nat)
    requires attempt >= 1 && attempt < max && !Succeeds(outcomes, attempt)
    requires Retried(op, outcomes, attempt + 1, max, n)
    ensures Retried(op, outcomes, attempt, max, n + 1)
  {
    assert attempt + 1 + n == attempt + (n + 1);
    Join([Attempted(op, false), BackedOff(op, 0.25 * Pow2(attempt - 1) as real)],
         FailedTries(op, attempt + 1, n), [Attempted(op, Succeeds(outcomes, attempt + 1 + n))]);
    forall a | attempt <= a < attempt + (n + 1) ensures !Succeeds(outcomes, a) {
      assert a > attempt ==> attempt + 1 <= a < attempt + 1 + n;
    }
  }

  lemma RetriedOnce(op: Operation, outcomes: seq<bool>, attempt: nat, max: int)
    requires attempt >= 1 && (Succeeds(outcomes, attempt) || attempt >= max)
    ensures Retried(op, outcomes, attempt, max, 0)
  {
    assert FailedTries(op, attempt, 0) == [];
  }

  /** Retries, event by event. */
  lemma {:induction false} TriesAreExact(op: Operation, outcomes: seq<bool>, attempt: nat, max: int) returns (n: nat)
    requires attempt >= 1
    ensures Retried(op, outcomes, attempt, max, n)
    decreases max - attempt
  {
    if Succeeds(outcomes, attempt) || attempt >= max {
      RetriedOnce(op, outcomes, attempt, max);
      n := 0;
    } else {
      var rest := TriesAreExact(op, outcomes, attempt + 1, max);
      RetriedOneMore(op, outcomes, attempt, max, rest);
      n := rest + 1;
    }
  }

  lemma Join(a: seq<Event>, b: seq<Event>, c: seq<Event>)
    ensures a + (b + c) == a + b + c
  {
  }

  /** The attempts and waits of one operation. */
  function Of(log: seq<Event>, op: Operation): seq<Event> {
    if log == [] then []
    else (if (log[0].Attempted? || log[0].BackedOff?) && log[0].op == op then [log[0]] else []) + Of(log[1..], op)
  }

  lemma {:induction false} OfConcat(a: seq<Event>, b: seq<Event>, op: Operation)
    ensures Of(a + b, op) == Of(a, op) + Of(b, op)
  {
    if a == [] {
      assert a + b == b;
    } else {
      assert (a + b)[1..] == a[1..] + b;
      OfConcat(a[1..], b, op);
    }
  }

  lemma {:induction false} OfNone(log: seq<Event>, op: Operation)
    requires forall k :: 0 <= k < |log| && (log[k].Attempted? || log[k].BackedOff?) ==> log[k].op != op
    ensures Of(log, op) == []
  {
    if log != [] {
      OfNone(log[1..], op);
    }
  }

  lemma {:induction false} OfAll(log: seq<Event>, op: Operation)
    requires forall k :: 0 <= k < |log| ==> (log[k].Attempted? || log[k].BackedOff?) && log[k].op == op
    ensures Of(log, op) == log
  {
    if log != [] {
      OfAll(log[1..], op);
      assert log == [log[0]] + log[1..];
    }
  }

  lemma {:induction false} OfTries(op: Operation, outcomes: seq<bool>, other: Operation)
    ensures Of(Tries(op, outcomes, 1, MAX_ATTEMPTS), other) ==
      if other == op then Tries(op, outcomes, 1, MAX_ATTEMPTS) else []
  {
    TriesAreOf(op, outcomes, 1, MAX_ATTEMPTS);
    if other == op {
      OfAll(Tries(op, outcomes, 1, MAX_ATTEMPTS), op);
    } else {
      OfNone(Tries(op, outcomes, 1, MAX_ATTEMPTS), other);
    }
  }

  lemma {:induction false} OfStep(c: Context, o: Overrides, p: nat, step: Step, s: Script, op: Operation)
    requires op in {Handler(p), StepPublish(p)}
    ensures Of(StepEvents(c, o, p, step, s), op) ==
      if Calls(StepEvents(c, o, p, step, s), op)
      then Tries(op, if op.Handler? then s.handler else s.publish, 1, MAX_ATTEMPTS) else []
  {
    if step.tool in c.registry {
      var e := EvaluationOf(o, c.hasCallback, RequestFor(c, step), s.answer);
      var gate := [Evaluated(p, EffectiveRisk(o, RequestFor(c, step)), e)];
      OfNone(gate, op);
      OfConcat(gate, AfterGate(c, p, step, s, e), op);
      AfterGateCalls(c, p, step, s, e, op);
      CallsConcat(gate, AfterGate(c, p, step, s, e), op);
      OfAfterGate(c, p, step, s, e, op);
    }
  }

  lemma {:induction false} OfAfterGate(c: Context, p: nat, step: Step, s: Script, e: Evaluation, op: Operation)
    requires step.tool in c.registry && op in {Handler(p), StepPublish(p)}
    ensures Of(AfterGate(c, p, step, s, e), op) ==
      if e.Decided? && (op.Handler? ==> e.decision.approved && step.tool in c.handlers)
      then Tries(op, if op.Handler? then s.handler else s.publish, 1, MAX_ATTEMPTS) else []
  {
    if e.Decided? {
      var audit := if c.hasPool then [Audited(p, c.registry[step.tool], e.decision)] else [];
      var calls := if e.decision.approved && step.tool in c.handlers
        then Tries(Handler(p), s.handler, 1, MAX_ATTEMPTS) else [];
      var publish := Tries(StepPublish(p), s.publish, 1, MAX_ATTEMPTS);
      OfNone(audit, op);
      OfTries(Handler(p), s.handler, op);
      OfTries(StepPublish(p), s.publish, op);
      OfConcat(audit, calls, op);
      OfConcat(audit + calls, publish, op);
    }
  }

  /** In the log of a run, what there is of a step's handler or publication are its retries, up to three attempts. */
  lemma {:induction false} RetriesInLog(c: Context, o: Overrides, order: seq<Step>, scripts: seq<Script>,
                                        completion: seq<bool>, q: nat, op: Operation)
    requires q < |order| == |scripts| && op in {Handler(q), StepPublish(q)}
    ensures var log := FullRun(c, o, order, scripts, completion);
      Of(log, op) == if Calls(log, op)
        then Tries(op, if op.Handler? then scripts[q].handler else scripts[q].publish, 1, 3) else []
  {
    var before := RunEvents(c, o, order, scripts, q);
    StepsInOrder(c, o, order, scripts, q);
    OfNone(before, op);
    CallsOf(c, o, order, scripts, completion, q, op);
    if HungBefore(c, o, order, scripts, q) {
      HungEnds(c, o, order, scripts, completion, q);
    } else {
      var post := FullPart(c, o, order, scripts, completion, q);
      OfNone(post, op);
      OfMiddle(before, EventsAt(c, o, order, scripts, q), post, op);
      OfStep(c, InForce(o, scripts, q), q, order[q], scripts[q], op);
    }
  }

  lemma {:induction false} OfMiddle(a: seq<Event>, b: seq<Event>, c: seq<Event>, op: Operation)
    requires Of(a, op) == [] && Of(c, op) == []
    ensures Of(a + b + c, op) == Of(b, op) && (Calls(a + b + c, op) <==> Calls(b, op))
  {
    OfConcat(a + b, c, op);
    OfConcat(a, b, op);
    CallsConcat(a + b, c, op);
    CallsConcat(a, b, op);
    NoCalls(a, op);
    NoCalls(c, op);
  }

  lemma {:induction false} NoCalls(log: seq<Event>, op: Operation)
    requires Of(log, op) == []
    ensures !Calls(log, op)
  {
    if log != [] {
      NoCalls(log[1..], op);
      assert forall k :: 1 <= k < |log| ==> log[k] == log[1..][k - 1];
    }
  }
}
