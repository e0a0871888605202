/** The approval gate: which tool calls run by themselves, which wait for a human, and overrides. */
module ApprovalGate {
  import opened Common

  datatype Risk = Low | Medium | High | Critical

  datatype Request = Request(agent: string, tool: string, risk: Risk)

  datatype Reason = AutoApproved | NoCallback | TimedOut | HumanDecision

  datatype Decision = Decision(approved: bool, flagged: bool, reason: Reason)

  /** How the human behind the callback reacts. */
  datatype Answer =
    | Replies(approve: bool, after: nat)
    | RaisesTimeout(after: nat)
    | RaisesError(after: nat)
    | StaysSilent

  /** A raised error is passed to the caller; a critical request waits for ever on a silent human. */
  datatype Evaluation = Decided(decision: Decision) | Errored | Waiting

  const HIGH_RISK_TIMEOUT_SECONDS: nat := 300

  // ----- overrides

  type Overrides = map<(string, string), Risk>

  datatype Change = Override(agent: string, tool: string, risk: Risk) | Clear(agent: string, tool: string)

  function ApplyChange(o: Overrides, c: Change): Overrides {
    match c
    case Override(agent, tool, risk) => o[(agent, tool) := risk]
    case Clear(agent, tool) => o - {(agent, tool)}
  }

  function ApplyChanges(o: Overrides, cs: seq<Change>): Overrides {
    if cs == [] then o else ApplyChange(ApplyChanges(o, cs[..|cs| - 1]), cs[|cs| - 1])
  }

  predicate Concerns(c: Change, agent: string, tool: string) {
    c.agent == agent && c.tool == tool
  }

  function EffectiveRisk(o: Overrides, r: Request): Risk {
    if (r.agent, r.tool) in o then o[(r.agent, r.tool)] else r.risk
  }

  /** The risk set by the last change for this agent and tool, or the declared one when there is
      none or it was a clear. */
  function LastSet(cs: seq<Change>, r: Request): Risk {
    if cs == [] then r.risk
    else
      var c := cs[|cs| - 1];
      if !Concerns(c, r.agent, r.tool) then LastSet(cs[..|cs| - 1], r)
      else if c.Override? then c.risk
      else r.risk
  }

  /** A gate that starts without overrides applies the last word on each pair. */
  lemma {:induction false} LastWordCounts(cs: seq<Change>, r: Request)
    ensures EffectiveRisk(ApplyChanges(map[], cs), r) == LastSet(cs, r)
  {
    if cs != [] {
      LastWordCounts(cs[..|cs| - 1], r);
    }
  }

  lemma {:induction false} ChangesAppend(o: Overrides, a: seq<Change>, b: seq<Change>)
    ensures ApplyChanges(o, a + b) == ApplyChanges(ApplyChanges(o, a), b)
  {
    if b == [] {
      assert a + b == a;
    } else {
      var n := |b| - 1;
      assert (a + b)[..|a + b| - 1] == a + b[..n];
      ChangesAppend(o, a, b[..n]);
    }
  }

  // ----- evaluation

  /** What the callback gives within the limit. A reply at the limit itself comes too late. */
  function Consult(answer: Answer, limit: Option<nat>): Evaluation {
    var late := match answer
      case StaysSilent => true
      case Replies(_, t) => limit.Some? && t >= limit.value
      case RaisesTimeout(t) => limit.Some? && t >= limit.value
      case RaisesError(t) => limit.Some? && t >= limit.value;
    if late then
      if limit.Some? then Decided(Decision(false, false, TimedOut)) else Waiting
    else match answer
      case Replies(approve, _) => Decided(Decision(approve, false, HumanDecision))
      case RaisesTimeout(_) => Decided(Decision(false, false, TimedOut))
      case RaisesError(_) => Errored
  }

  function EvaluationOf(o: Overrides, hasCallback: bool, r: Request, answer: Answer): Evaluation {
    match EffectiveRisk(o, r)
    case Low => Decided(Decision(true, false, AutoApproved))
    case Medium => Decided(Decision(true, true, AutoApproved))
    case High => if hasCallback then Consult(answer, Some(HIGH_RISK_TIMEOUT_SECONDS))
      else Decided(Decision(false, false, NoCallback))
    case Critical => if hasCallback then Consult(answer, None) else Decided(Decision(false, false, NoCallback))
  }

  predicate Admits(e: Evaluation) {
    e.Decided? && e.decision.approved
  }

  /** Low and medium risk run by themselves; above, a human must say yes, at high risk in time. */
  predicate Permitted(risk: Risk, hasCallback: bool, answer: Answer) {
    risk == Low || risk == Medium ||
    (hasCallback && answer.Replies? && answer.approve && (risk == High ==> answer.after < HIGH_RISK_TIMEOUT_SECONDS))
  }

  /** What an evaluation means, case by case. Nobody is asked below high risk, and without a callback
      everything above medium is denied; at high risk the human has 300 seconds, at critical for ever. */
  lemma EvaluationHolds(o: Overrides, hasCallback: bool, r: Request, answer: Answer)
    ensures var risk, e := EffectiveRisk(o, r), EvaluationOf(o, hasCallback, r, answer);
      var asked := hasCallback && (risk == High || risk == Critical);
      var late := asked && risk == High && (answer.StaysSilent? || answer.after >= 300);
      && ((r.agent, r.tool) in o ==> risk == o[(r.agent, r.tool)])
      && ((r.agent, r.tool) !in o ==> risk == r.risk)
      && (risk == Low ==> e == Decided(Decision(true, false, AutoApproved)))
      && (risk == Medium ==> e == Decided(Decision(true, true, AutoApproved)))
      && ((risk == High || risk == Critical) && !hasCallback ==> e == Decided(Decision(false, false, NoCallback)))
      && (late ==> e == Decided(Decision(false, false, TimedOut)))
      && (asked && !late && answer.StaysSilent? ==> e == Waiting)
      && (asked && !late && answer.RaisesTimeout? ==> e == Decided(Decision(false, false, TimedOut)))
      && (asked && !late && answer.RaisesError? ==> e == Errored)
      && (asked && !late && answer.Replies? ==> e == Decided(Decision(answer.approve, false, HumanDecision)))
  {
  }

  class Gate {
    const hasCallback: bool
    var overrides: Overrides

    constructor (hasCallback: bool)
      ensures this.hasCallback == hasCallback && overrides == map[]
    {
      this.hasCallback, overrides := hasCallback, map[];
    }

    method OverrideRisk(agent: string, tool: string, risk: Risk)
      modifies this
      ensures overrides == ApplyChange(old(overrides), Override(agent, tool, risk))
    {
      overrides := overrides[(agent, tool) := risk];
    }

    method ClearRiskOverride(agent: string, tool: string)
      modifies this
      ensures overrides == ApplyChange(old(overrides), Clear(agent, tool))
    {
      overrides := overrides - {(agent, tool)};
    }

    method Change(cs: seq<Change>)
      modifies this
      ensures overrides == ApplyChanges(old(overrides), cs)
    {
      for i := 0 to |cs|
        invariant overrides == ApplyChanges(old(overrides), cs[..i])
      {
        assert cs[..i + 1][..i] == cs[..i];
        match cs[i]
        case Override(agent, tool, risk) => OverrideRisk(agent, tool, risk);
        case Clear(agent, tool) => ClearRiskOverride(agent, tool);
      }
      assert cs[..|cs|] == cs;
    }

    method HumanApprove(answer: Answer, limit: Option<nat>) returns (e: Evaluation)
      ensures e == if hasCallback then Consult(answer, limit) else Decided(Decision(false, false, NoCallback))
    {
      if !hasCallback {
        return Decided(Decision(false, false, NoCallback));
      }
      match answer
      case StaysSilent =>
        e := if limit.Some? then Decided(Decision(false, false, TimedOut)) else Waiting;
      case Replies(approve, t) =>
        e := Decided(if limit.Some? && t >= limit.value then Decision(false, false, TimedOut)
          else Decision(approve, false, HumanDecision));
      case RaisesTimeout(t) => e := Decided(Decision(false, false, TimedOut));
      case RaisesError(t) =>
        e := if limit.Some? && t >= limit.value then Decided(Decision(false, false, TimedOut)) else Errored;
    }

    method Evaluate(r: Request, answer: Answer) returns (e: Evaluation)
      ensures e == EvaluationOf(overrides, hasCallback, r, answer)
      ensures Admits(e) <==> Permitted(EffectiveRisk(overrides, r), hasCallback, answer)
      ensures e.Decided? ==> (e.decision.flagged <==> EffectiveRisk(overrides, r) == Medium)
      ensures e == Waiting <==> EffectiveRisk(overrides, r) == Critical && hasCallback && answer == StaysSilent
    {
      var risk := if (r.agent, r.tool) in overrides then overrides[(r.agent, r.tool)] else r.risk;
      match risk
      case Low => e := Decided(Decision(true, false, AutoApproved));
      case Medium => e := Decided(Decision(true, true, AutoApproved));
      case High => e := HumanApprove(answer, Some(HIGH_RISK_TIMEOUT_SECONDS));
      case Critical => e := HumanApprove(answer, None);
    }
  }
}
