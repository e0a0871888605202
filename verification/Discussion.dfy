/** The discussion loop: claims, then rounds of attack and repair, then synthesis. */
module Discussion {
  import opened Common
  import Ledger

  // ----- claims

  datatype ClaimStatus = Claimed | Attacked | Repaired | Accepted | Rejected

  datatype Claim = Claim(id: string, workflowId: string, status: ClaimStatus, analysis: string, repairedAt: Option<int>)

  datatype ClaimCall =
    | Submit(claim: Claim)
    | Attack(target: string)
    | Repair(target: string, revised: string, now: int)

  predicate HasClaim(claims: seq<Claim>, id: string) {
    exists i :: 0 <= i < |claims| && claims[i].id == id
  }

  function Rewritten(c: Claim, call: ClaimCall): Claim {
    match call
    case Submit(_) => c
    case Attack(id) => if c.id == id then c.(status := Attacked) else c
    case Repair(id, revised, now) =>
      if c.id == id then c.(status := Repaired, analysis := revised, repairedAt := Some(now)) else c
  }

  /** A submission with a known id violates the key and changes nothing. */
  function ApplyCall(claims: seq<Claim>, call: ClaimCall): seq<Claim> {
    if call.Submit? then
      if HasClaim(claims, call.claim.id) then claims else claims + [call.claim]
    else
      seq(|claims|, i requires 0 <= i < |claims| => Rewritten(claims[i], call))
  }

  function ApplyAll(claims: seq<Claim>, calls: seq<ClaimCall>): seq<Claim>
    decreases |calls|
  {
    if calls == [] then claims else ApplyAll(ApplyCall(claims, calls[0]), calls[1..])
  }

  class ClaimTable {
    var claims: seq<Claim>

    constructor ()
      ensures claims == []
    {
      claims := [];
    }

    method SubmitClaim(c: Claim) returns (ok: bool)
      modifies this
      ensures ok == !HasClaim(old(claims), c.id)
      ensures claims == ApplyCall(old(claims), Submit(c))
    {
      ok := !HasClaim(claims, c.id);
      if ok {
        claims := claims + [c];
      }
    }

    method SubmitAttack(target: string)
      modifies this
      ensures claims == ApplyCall(old(claims), Attack(target))
    {
      var rows := claims;
      claims := seq(|rows|, i requires 0 <= i < |rows| =>
        if rows[i].id == target then rows[i].(status := Attacked) else rows[i]);
    }

    method SubmitRepair(target: string, revised: string, now: int)
      modifies this
      ensures claims == ApplyCall(old(claims), Repair(target, revised, now))
    {
      var rows := claims;
      claims := seq(|rows|, i requires 0 <= i < |rows| =>
        if rows[i].id == target then rows[i].(status := Repaired, analysis := revised, repairedAt := Some(now))
        else rows[i]);
    }
  }

  predicate Names(call: ClaimCall, id: string) {
    id == match call
      case Submit(c) => c.id
      case Attack(target) => target
      case Repair(target, _, _) => target
  }

  lemma {:induction false} OthersLeaveClaim(claims: seq<Claim>, calls: seq<ClaimCall>, i: nat)
    requires i < |claims| && forall k :: 0 <= k < |calls| ==> !Names(calls[k], claims[i].id)
    ensures i < |ApplyAll(claims, calls)| && ApplyAll(claims, calls)[i] == claims[i]
    decreases |calls|
  {
    if calls != [] {
      var next := ApplyCall(claims, calls[0]);
      assert !Names(calls[0], claims[i].id);
      assert next[i] == claims[i];
      assert forall k :: 0 <= k < |calls[1..]| ==> calls[1..][k] == calls[k + 1];
      OthersLeaveClaim(next, calls[1..], i);
    }
  }

  lemma {:induction false} ApplyAllAppend(claims: seq<Claim>, a: seq<ClaimCall>, b: seq<ClaimCall>)
    ensures ApplyAll(claims, a + b) == ApplyAll(ApplyAll(claims, a), b)
    decreases |a|
  {
    if a == [] {
      assert a + b == b;
    } else {
      assert (a + b)[0] == a[0] && (a + b)[1..] == a[1..] + b;
      ApplyAllAppend(ApplyCall(claims, a[0]), a[1..], b);
    }
  }

  /** A claim stands as the last attack or repair that names it left it; a repair needs no attack before it. */
  lemma LastCallDecides(claims: seq<Claim>, before: seq<ClaimCall>, call: ClaimCall, after: seq<ClaimCall>, i: nat)
    requires !call.Submit? && i < |ApplyAll(claims, before)| && Names(call, ApplyAll(claims, before)[i].id)
    requires forall k :: 0 <= k < |after| ==> !Names(after[k], ApplyAll(claims, before)[i].id)
    ensures var end := ApplyAll(claims, before + [call] + after);
      var x := ApplyAll(claims, before)[i];
      i < |end| && end[i] ==
        match call
        case Submit(_) => x
        case Attack(_) => x.(status := Attacked)
        case Repair(_, revised, now) => x.(status := Repaired, analysis := revised, repairedAt := Some(now))
  {
    var mid := ApplyAll(claims, before);
    ApplyAllAppend(claims, before + [call], after);
    ApplyAllAppend(claims, before, [call]);
    assert [call][1..] == [];
    assert ApplyAll(mid, [call]) == ApplyCall(mid, call);
    OthersLeaveClaim(ApplyCall(mid, call), after, i);
  }

  /** A claim is stored, as it comes, under a new id, behind the others, and otherwise not at all. */
  lemma SubmitIsExact(claims: seq<Claim>, c: Claim)
    ensures ApplyCall(claims, Submit(c)) ==
      if exists i :: 0 <= i < |claims| && claims[i].id == c.id then claims else claims + [c]
  {
  }

  // ----- convergence

  function ClaimsOf(claims: seq<Claim>, wf: string): seq<Claim> {
    if claims == [] then []
    else (if claims[0].workflowId == wf then [claims[0]] else []) + ClaimsOf(claims[1..], wf)
  }

  predicate Stable(s: ClaimStatus) {
    s == Accepted || s == Repaired
  }

  function StableCount(claims: seq<Claim>): (n: nat)
    ensures n <= |claims|
  {
    if claims == [] then 0 else (if Stable(claims[0].status) then 1 else 0) + StableCount(claims[1..])
  }

  /** There are claims, and the threshold's share of them is accepted or repaired. */
  predicate Converged(claims: seq<Claim>, threshold: real) {
    claims != [] && StableCount(claims) as real / |claims| as real >= threshold
  }

  /** How many claims have one of two statuses, counted otherwise. */
  lemma {:induction false} StableCountIs(claims: seq<Claim>)
    ensures StableCount(claims) == Count(seq(|claims|, i requires 0 <= i < |claims| => claims[i].status), Accepted) +
                                   Count(seq(|claims|, i requires 0 <= i < |claims| => claims[i].status), Repaired)
  {
    if claims != [] {
      StableCountIs(claims[1..]);
      var all := seq(|claims|, i requires 0 <= i < |claims| => claims[i].status);
      assert all[1..] == seq(|claims[1..]|, i requires 0 <= i < |claims[1..]| => claims[1..][i].status);
    }
  }

  lemma {:induction false} ClaimsOfHold(claims: seq<Claim>, wf: string, x: Claim)
    ensures Count(ClaimsOf(claims, wf), x) == if x.workflowId == wf then Count(claims, x) else 0
  {
    if claims != [] {
      ClaimsOfHold(claims[1..], wf, x);
      CountAppend(if claims[0].workflowId == wf then [claims[0]] else [], ClaimsOf(claims[1..], wf), x);
    }
  }

  method CheckConvergence(claims: seq<Claim>, threshold: real) returns (converged: bool)
    ensures converged == Converged(claims, threshold)
  {
    if claims == [] {
      return false;
    }
    var stable := 0;
    for i := 0 to |claims|
      invariant stable + StableCount(claims[i..]) == StableCount(claims)
    {
      assert claims[i..][1..] == claims[i + 1..];
      if claims[i].status == Accepted || claims[i].status == Repaired {
        stable := stable + 1;
      }
    }
    return stable as real / |claims| as real >= threshold;
  }

  /** The claims converge when there are some, and the accepted and repaired ones reach the threshold's share. */
  lemma ConvergedMeans(claims: seq<Claim>, threshold: real)
    ensures var statuses := seq(|claims|, i requires 0 <= i < |claims| => claims[i].status);
      Converged(claims, threshold) <==>
      claims != [] &&
      (Count(statuses, Accepted) + Count(statuses, Repaired)) as real >= threshold * |claims| as real
  {
    StableCountIs(claims);
    if claims != [] {
      Share(StableCount(claims) as real, |claims| as real, threshold);
    }
  }

  lemma Share(a: real, n: real, threshold: real)
    requires n > 0.0
    ensures a / n >= threshold <==> a >= threshold * n
  {
    assert a / n * n == a;
  }

  // ----- the loop

  datatype Phase = ClaimPhase | AttackPhase | RepairPhase | SynthesizePhase

  datatype Event =
    | Emitted(phase: Phase, round: int)
    | Waited(seconds: nat)
    | Requested(status: Ledger.WorkflowStatus)
    | DecisionRecorded

  datatype Config = Config(maxRounds: int, claimTimeout: nat, attackTimeout: nat, repairTimeout: nat, threshold: real)

  /** What the agents do while the loop waits, and whether interrupts stand open after the repair. */
  datatype Round = Round(attackCalls: seq<ClaimCall>, repairCalls: seq<ClaimCall>, interrupted: bool)

  datatype Script = Script(workflowId: string, claimCalls: seq<ClaimCall>, rounds: seq<Round>)

  function RoundAt(s: Script, r: int): Round {
    if 1 <= r <= |s.rounds| then s.rounds[r - 1] else Round([], [], false)
  }

  function CallsBefore(s: Script, r: int): seq<ClaimCall>
    decreases r
  {
    if r <= 1 then s.claimCalls
    else CallsBefore(s, r - 1) + RoundAt(s, r - 1).attackCalls + RoundAt(s, r - 1).repairCalls
  }

  /** The claims the convergence check of round `r` reads. */
  function ClaimsAt(s: Script, r: int): seq<Claim> {
    ClaimsOf(ApplyAll([], CallsBefore(s, r) + RoundAt(s, r).attackCalls), s.workflowId)
  }

  function Closing(c: Config): seq<Event> {
    [Emitted(SynthesizePhase, c.maxRounds), DecisionRecorded]
  }

  predicate ConvergedIn(c: Config, s: Script, r: int) {
    Converged(ClaimsAt(s, r), c.threshold)
  }

  function AttackEvents(c: Config, r: int): seq<Event> {
    [Emitted(AttackPhase, r), Waited(c.attackTimeout)]
  }

  function RepairEvents(c: Config, s: Script, r: int): seq<Event> {
    [Emitted(RepairPhase, r), Waited(c.repairTimeout)]
    + if RoundAt(s, r).interrupted then [Requested(Ledger.Suspended)] else []
  }

  /** The events from round `r` on when nothing raises. */
  function Play(c: Config, s: Script, r: int): seq<Event>
    decreases c.maxRounds + 1 - r
  {
    if r > c.maxRounds then Closing(c)
    else if ConvergedIn(c, s, r) then AttackEvents(c, r) + Closing(c)
    else if RoundAt(s, r).interrupted then AttackEvents(c, r) + RepairEvents(c, s, r)
    else AttackEvents(c, r) + RepairEvents(c, s, r) + Play(c, s, r + 1)
  }

  function ClaimEvents(c: Config): seq<Event> {
    [Emitted(ClaimPhase, 0), Waited(c.claimTimeout)]
  }

  function Clean(c: Config, s: Script): seq<Event> {
    ClaimEvents(c) + Play(c, s, 1)
  }

  lemma RepairSecond(c: Config, s: Script, r: int, before: seq<Event>)
    requires r <= c.maxRounds && !ConvergedIn(c, s, r)
    ensures before + AttackEvents(c, r) + RepairEvents(c, s, r) <= before + Play(c, s, r)
    ensures before + AttackEvents(c, r) + RepairEvents(c, s, r)
      + (if RoundAt(s, r).interrupted then [] else Play(c, s, r + 1))
      == before + Play(c, s, r)
  {
    Regroup(before, AttackEvents(c, r), RepairEvents(c, s, r),
            if RoundAt(s, r).interrupted then [] else Play(c, s, r + 1));
  }

  lemma Regroup(a: seq<Event>, b: seq<Event>, c: seq<Event>, d: seq<Event>)
    ensures a + b + c + d == a + (b + c + d) && a + b + c <= a + (b + c + d)
    ensures b + c + [] == b + c && a + b <= a + (b + c)
  {
  }

  /** Which awaited step of the run does not return, if any. */
  datatype Trouble = Smooth | RaisesAt(step: nat) | CancelledAt(step: nat)

  datatype Ending = Finished | Raised | Cancelled

  class DiscussionEngine {
    var log: seq<Event>
    var steps: nat
    const trouble: Trouble

    constructor (trouble: Trouble)
      ensures log == [] && steps == 0 && this.trouble == trouble
    {
      log, steps, this.trouble := [], 0, trouble;
    }

    function Stops(): Option<Ending>
      reads this
    {
      match trouble
      case Smooth => None
      case RaisesAt(n) => if n == steps then Some(Raised) else None
      case CancelledAt(n) => if n == steps then Some(Cancelled) else None
    }

    /** One awaited step; its event is logged when it returns. */
    method Await(event: Option<Event>) returns (stopped: Option<Ending>)
      modifies this
      ensures steps == old(steps) + 1 && Halt(old(steps), stopped)
      ensures log == old(log) + if stopped.None? && event.Some? then [event.value] else []
    {
      stopped := Stops();
      steps := steps + 1;
      if stopped.None? && event.Some? {
        log := log + [event.value];
      }
    }

    /** The trouble is no step from `from` on, or it is the last one, and then it stops the run in its way. */
    predicate Halt(from: nat, stopped: Option<Ending>)
      reads this
    {
      from <= steps &&
      match stopped
      case None => trouble == Smooth || trouble.step < from || trouble.step >= steps
      case Some(e) =>
        e != Finished && from < steps && trouble == if e == Raised then RaisesAt(steps - 1) else CancelledAt(steps - 1)
    }

    predicate Ended(from: nat, ending: Ending)
      reads this
    {
      if ending == Finished then Halt(from, None) else Halt(from, Some(ending))
    }

    /** The part of the round up to the convergence check. */
    method AttackRound(c: Config, s: Script, r: int) returns (stopped: Option<Ending>, converged: bool)
      modifies this
      ensures Halt(old(steps), stopped) && old(log) <= log <= old(log) + AttackEvents(c, r)
      ensures stopped.None? ==> log == old(log) + AttackEvents(c, r)
      ensures stopped.None? ==> converged == ConvergedIn(c, s, r)
    {
      converged := false;
      stopped := Await(Some(Emitted(AttackPhase, r)));
      if stopped.Some? {
        return;
      }
      stopped := Await(Some(Waited(c.attackTimeout)));
      if stopped.Some? {
        return;
      }
      stopped := Await(None);
      converged := CheckConvergence(ClaimsAt(s, r), c.threshold);
    }

    /** Repair, watchdogs, and the look at the open interrupts. */
    method RepairRound(c: Config, s: Script, r: int) returns (stopped: Option<Ending>, suspended: bool)
      modifies this
      ensures Halt(old(steps), stopped) && old(log) <= log <= old(log) + RepairEvents(c, s, r)
      ensures stopped.None? ==> log == old(log) + RepairEvents(c, s, r) && suspended == RoundAt(s, r).interrupted
    {
      suspended := false;
      stopped := Await(Some(Emitted(RepairPhase, r)));
      if stopped.Some? {
        return;
      }
      stopped := Await(Some(Waited(c.repairTimeout)));
      if stopped.Some? {
        return;
      }
      stopped := Await(None);
      if stopped.Some? {
        return;
      }
      stopped := Await(None);
      if stopped.Some? {
        return;
      }
      suspended := RoundAt(s, r).interrupted;
      if suspended {
        stopped := Await(Some(Requested(Ledger.Suspended)));
      }
    }

    method Close(c: Config) returns (ending: Ending)
      modifies this
      ensures Ended(old(steps), ending)
      ensures old(log) <= log <= old(log) + Closing(c)
      ensures ending == Finished ==> log == old(log) + Closing(c)
    {
      var stopped := Await(Some(Emitted(SynthesizePhase, c.maxRounds)));
      if stopped.Some? {
        return stopped.value;
      }
      stopped := Await(Some(DecisionRecorded));
      ending := if stopped.Some? then stopped.value else Finished;
    }

    /** The body of the loop's try block. */
    method RunPhases(c: Config, s: Script) returns (ending: Ending)
      modifies this
      ensures Ended(old(steps), ending)
      ensures old(log) <= log <= old(log) + Clean(c, s)
      ensures ending == Finished ==> log == old(log) + Clean(c, s)
    {
      Regroup(log, ClaimEvents(c), Play(c, s, 1), []);
      var stopped := ClaimRound(c);
      if stopped.Some? {
        return stopped.value;
      }
      ending := RunRounds(c, s);
    }

    method ClaimRound(c: Config) returns (stopped: Option<Ending>)
      modifies this
      ensures Halt(old(steps), stopped) && old(log) <= log <= old(log) + ClaimEvents(c)
      ensures stopped.None? ==> log == old(log) + ClaimEvents(c)
    {
      stopped := Await(Some(Emitted(ClaimPhase, 0)));
      if stopped.Some? {
        return;
      }
      stopped := Await(Some(Waited(c.claimTimeout)));
    }

    method RunRounds(c: Config, s: Script) returns (ending: Ending)
      modifies this
      ensures Ended(old(steps), ending)
      ensures old(log) <= log <= old(log) + Play(c, s, 1)
      ensures ending == Finished ==> log == old(log) + Play(c, s, 1)
    {
      ghost var plan := log + Play(c, s, 1);
      var r := 1;
      while r <= c.maxRounds
        invariant log + Play(c, s, r) == plan && old(log) <= log
        invariant Halt(old(steps), None)
      {
        var stop, converged := RunRound(c, s, r);
        if stop.Some? {
          return stop.value;
        }
        if converged {
          break;
        }
        r := r + 1;
      }
      ending := Close(c);
    }

    /** One round; `stop` ends the run, `converged` leaves the loop. */
    method RunRound(c: Config, s: Script, r: int) returns (stop: Option<Ending>, converged: bool)
      requires r <= c.maxRounds
      modifies this
      ensures if stop == Some(Finished) then Halt(old(steps), None) else Halt(old(steps), stop)
      ensures old(log) <= log <= old(log) + Play(c, s, r)
      ensures stop == Some(Finished) ==> log == old(log) + Play(c, s, r)
      ensures stop.None? && converged ==> log + Closing(c) == old(log) + Play(c, s, r)
      ensures stop.None? && !converged ==> log + Play(c, s, r + 1) == old(log) + Play(c, s, r)
    {
      ghost var before := log;
      stop, converged := AttackRound(c, s, r);
      if stop.Some? || converged {
        return;
      }
      var suspended: bool;
      stop, suspended := RepairRound(c, s, r);
      RepairSecond(c, s, r, before);
      if stop.None? && suspended {
        stop := Some(Finished);
      }
    }

    /** A raised error asks for FAILED; a cancellation is passed on and asks for nothing. */
    method DiscussionLoop(c: Config, s: Script) returns (ending: Ending)
      modifies this
      ensures ending == Finished ==> trouble == Smooth || trouble.step < old(steps) || trouble.step >= steps
      ensures ending == Raised ==> old(steps) < steps && trouble == RaisesAt(steps - 1)
      ensures ending == Cancelled ==> old(steps) < steps && trouble == CancelledAt(steps - 1)
      ensures ending == Finished ==> log == old(log) + Clean(c, s)
      ensures ending == Raised ==> trouble.RaisesAt? && log != [] && log[|log| - 1] == Requested(Ledger.Failed)
      ensures ending == Raised ==> old(log) <= log[..|log| - 1] <= old(log) + Clean(c, s)
      ensures ending == Cancelled ==> trouble.CancelledAt? && old(log) <= log <= old(log) + Clean(c, s)
    {
      ending := RunPhases(c, s);
      if ending == Raised {
        log := log + [Requested(Ledger.Failed)];
      }
    }
  }

  // ----- starting, synthesizing and cancelling

  class DiscussionControl {
    const ledger: Ledger.Store
    var active: set<string>

    constructor (ledger: Ledger.Store)
      ensures this.ledger == ledger && active == {}
    {
      this.ledger, active := ledger, {};
    }

    /** The loop starts only if the workflow can move to RUNNING, which a running one cannot. */
    method Start(wf: string, now: int) returns (started: bool)
      modifies `active, ledger
      ensures ledger.Rows() == Ledger.MoveWorkflow(old(ledger.Rows()), wf, Ledger.Running, now, None, None)
      ensures started == Ledger.CanMove(old(ledger.Rows()), wf, Ledger.Running)
      ensures active == if started then old(active) + {wf} else old(active)
      ensures wf in old(ledger.workflows) && old(ledger.workflows)[wf].status == Ledger.Running ==>
        !started && ledger.Rows() == old(ledger.Rows())
    {
      started := ledger.UpdateWorkflowStatus(wf, Ledger.Running, now, None, None);
      if started {
        active := active + {wf};
      }
    }

    /** The result of the move to COMPLETED is ignored. */
    method SubmitSynthesis(wf: string, text: string, now: int)
      modifies `active, ledger
      ensures ledger.Rows() == Ledger.MoveWorkflow(old(ledger.Rows()), wf, Ledger.Completed, now, None, Some(text))
      ensures active == old(active) - {wf}
    {
      var updated := ledger.UpdateWorkflowStatus(wf, Ledger.Completed, now, None, Some(text));
      active := active - {wf};
    }

    method Cancel(wf: string, now: int) returns (cancelled: bool)
      modifies `active, ledger
      ensures ledger.Rows() == Ledger.MoveWorkflow(old(ledger.Rows()), wf, Ledger.Cancelled, now, None, None)
      ensures cancelled == Ledger.CanMove(old(ledger.Rows()), wf, Ledger.Cancelled) && active == old(active) - {wf}
    {
      active := active - {wf};
      cancelled := ledger.UpdateWorkflowStatus(wf, Ledger.Cancelled, now, None, None);
    }
  }

  // ----- the shape of a run

  function Phases(log: seq<Event>): seq<Phase> {
    if log == [] then [] else (if log[0].Emitted? then [log[0].phase] else []) + Phases(log[1..])
  }

  function TotalWait(log: seq<Event>): nat {
    if log == [] then 0 else (if log[0].Waited? then log[0].seconds else 0) + TotalWait(log[1..])
  }

  /** (attack repair)^k */
  function Rounds(k: nat): seq<Phase> {
    if k == 0 then [] else [AttackPhase, RepairPhase] + Rounds(k - 1)
  }

  /** How a run ends: converged in round `k + 1`, interrupted after repair `k`, or out of rounds. */
  datatype Stop = ByConvergence | ByInterrupt | ByExhaustion

  function Tail(stop: Stop): seq<Phase> {
    match stop
    case ByConvergence => [AttackPhase, SynthesizePhase]
    case ByInterrupt => []
    case ByExhaustion => [SynthesizePhase]
  }

  /** `k` full rounds ran without reason to stop, and `stop` says why there was no other. */
  ghost predicate StopsAfter(c: Config, s: Script, first: int, k: nat, stop: Stop) {
    && (k > 0 ==> first + k - 1 <= c.maxRounds)
    && (forall r {:trigger ConvergedIn(c, s, r)} :: first <= r < first + k ==> !ConvergedIn(c, s, r))
    && (forall r {:trigger RoundAt(s, r)} :: first <= r < first + k && RoundAt(s, r).interrupted ==>
      stop == ByInterrupt && r == first + k - 1)
    && match stop
       case ByConvergence => first + k <= c.maxRounds && ConvergedIn(c, s, first + k)
       case ByInterrupt => k > 0 && RoundAt(s, first + k - 1).interrupted
       case ByExhaustion => first + k > c.maxRounds
  }

  lemma PhasesOfStep(a: Event, b: Event, rest: seq<Event>)
    requires a.Emitted? && b.Waited?
    ensures Phases([a, b] + rest) == [a.phase] + Phases(rest)
    ensures TotalWait([a, b] + rest) == b.seconds + TotalWait(rest)
  {
    var log := [a, b] + rest;
    assert log[1..] == [b] + rest && ([b] + rest)[1..] == rest;
    assert Phases([b] + rest) == Phases(rest);
    assert TotalWait([b] + rest) == b.seconds + TotalWait(rest);
  }

  lemma ClosingShape(c: Config)
    ensures Phases(Closing(c)) == [SynthesizePhase] && TotalWait(Closing(c)) == 0
  {
    assert Closing(c)[1..] == [DecisionRecorded] && [DecisionRecorded][1..] == [];
    assert Phases([DecisionRecorded]) == [] && TotalWait([DecisionRecorded]) == 0;
  }

  lemma PlayStops(c: Config, s: Script, r: int)
    requires r <= c.maxRounds && (ConvergedIn(c, s, r) || RoundAt(s, r).interrupted)
    ensures Phases(Play(c, s, r)) == if ConvergedIn(c, s, r) then Tail(ByConvergence) else Rounds(1)
    ensures TotalWait(Play(c, s, r)) ==
      if ConvergedIn(c, s, r) then c.attackTimeout else c.attackTimeout + c.repairTimeout
    ensures Requested(Ledger.Suspended) in Play(c, s, r) <==> !ConvergedIn(c, s, r)
  {
    if ConvergedIn(c, s, r) {
      ClosingShape(c);
      PhasesOfStep(Emitted(AttackPhase, r), Waited(c.attackTimeout), Closing(c));
    } else {
      var last := [Requested(Ledger.Suspended)];
      assert last[1..] == [] && Phases(last) == [] && TotalWait(last) == 0;
      PhasesOfStep(Emitted(RepairPhase, r), Waited(c.repairTimeout), last);
      PhasesOfStep(Emitted(AttackPhase, r), Waited(c.attackTimeout), RepairEvents(c, s, r));
      assert Rounds(0) == [];
    }
  }

  lemma PlayContinues(c: Config, s: Script, r: int)
    requires r <= c.maxRounds && !ConvergedIn(c, s, r) && !RoundAt(s, r).interrupted
    ensures Phases(Play(c, s, r)) == [AttackPhase, RepairPhase] + Phases(Play(c, s, r + 1))
    ensures TotalWait(Play(c, s, r)) == c.attackTimeout + c.repairTimeout + TotalWait(Play(c, s, r + 1))
    ensures Requested(Ledger.Suspended) in Play(c, s, r) <==> Requested(Ledger.Suspended) in Play(c, s, r + 1)
  {
    var rest := Play(c, s, r + 1);
    PhasesOfStep(Emitted(RepairPhase, r), Waited(c.repairTimeout), rest);
    PhasesOfStep(Emitted(AttackPhase, r), Waited(c.attackTimeout), RepairEvents(c, s, r) + rest);
    Join3(AttackEvents(c, r), RepairEvents(c, s, r), rest);
  }

  lemma StopsOneLater(c: Config, s: Script, r: int, k: nat, stop: Stop)
    requires r <= c.maxRounds && !ConvergedIn(c, s, r) && !RoundAt(s, r).interrupted
    requires StopsAfter(c, s, r + 1, k, stop)
    ensures StopsAfter(c, s, r, k + 1, stop)
  {
    forall q | r <= q < r + (k + 1) ensures !ConvergedIn(c, s, q) {
      assert q == r || r + 1 <= q;
    }
    forall q | r <= q < r + (k + 1) && RoundAt(s, q).interrupted ensures stop == ByInterrupt && q == r + k {
      assert q == r || r + 1 <= q;
    }
    assert r + (k + 1) == (r + 1) + k && r + (k + 1) - 1 == (r + 1) + k - 1;
  }

  lemma StopsAtOnce(c: Config, s: Script, r: int)
    ensures r > c.maxRounds ==> StopsAfter(c, s, r, 0, ByExhaustion)
    ensures r <= c.maxRounds && ConvergedIn(c, s, r) ==> StopsAfter(c, s, r, 0, ByConvergence)
    ensures r <= c.maxRounds && !ConvergedIn(c, s, r) && RoundAt(s, r).interrupted ==>
      StopsAfter(c, s, r, 1, ByInterrupt)
  {
  }

  lemma RoundsExtend(k: nat, tail: seq<Phase>)
    ensures [AttackPhase, RepairPhase] + (Rounds(k) + tail) == Rounds(k + 1) + tail
  {
  }

  lemma {:induction false} PlayShape(c: Config, s: Script, r: int) returns (k: nat, stop: Stop)
    ensures StopsAfter(c, s, r, k, stop)
    ensures Phases(Play(c, s, r)) == Rounds(k) + Tail(stop)
    ensures TotalWait(Play(c, s, r)) == WaitFor(c, k, stop)
    ensures stop == ByInterrupt <==> Requested(Ledger.Suspended) in Play(c, s, r)
    decreases c.maxRounds + 1 - r
  {
    StopsAtOnce(c, s, r);
    if r > c.maxRounds {
      ClosingShape(c);
      k, stop := 0, ByExhaustion;
    } else if ConvergedIn(c, s, r) {
      PlayStops(c, s, r);
      k, stop := 0, ByConvergence;
    } else if RoundAt(s, r).interrupted {
      PlayStops(c, s, r);
      k, stop := 1, ByInterrupt;
    } else {
      k, stop := PlayShape(c, s, r + 1);
      PlayContinues(c, s, r);
      StopsOneLater(c, s, r, k, stop);
      RoundsExtend(k, Tail(stop));
      WaitExtends(c, k, stop);
      k := k + 1;
    }
  }

  /** The wait of `k` full rounds, and of the attack that found convergence. */
  function WaitFor(c: Config, k: nat, stop: Stop): nat {
    k * (c.attackTimeout + c.repairTimeout) + if stop == ByConvergence then c.attackTimeout else 0
  }

  lemma WaitExtends(c: Config, k: nat, stop: Stop)
    ensures WaitFor(c, k + 1, stop) == c.attackTimeout + c.repairTimeout + WaitFor(c, k, stop)
  {
  }

  /** A run that neither raises nor is cancelled emits claim (attack repair)^k and then, as it
      converged, was interrupted or ran out of rounds: attack synthesize, nothing, or synthesize. */
  lemma RunShape(c: Config, s: Script) returns (k: nat, stop: Stop)
    ensures StopsAfter(c, s, 1, k, stop)
    ensures Phases(Clean(c, s)) == [ClaimPhase] + Rounds(k) + Tail(stop)
    ensures stop == ByInterrupt <==> Requested(Ledger.Suspended) in Clean(c, s)
    ensures TotalWait(Clean(c, s)) == c.claimTimeout + WaitFor(c, k, stop)
  {
    k, stop := PlayShape(c, s, 1);
    PhasesOfStep(Emitted(ClaimPhase, 0), Waited(c.claimTimeout), Play(c, s, 1));
  }

  // ----- the log of a run

  /** `k` full rounds from round `first` on. */
  function FullRounds(c: Config, first: int, k: nat): seq<Event>
    decreases k
  {
    if k == 0 then []
    else
      [Emitted(AttackPhase, first), Waited(c.attackTimeout), Emitted(RepairPhase, first), Waited(c.repairTimeout)] +
      FullRounds(c, first + 1, k - 1)
  }

  /** What follows the full rounds, the next one being round `r`. */
  function Finale(c: Config, r: int, stop: Stop): seq<Event> {
    match stop
    case ByConvergence =>
      [Emitted(AttackPhase, r), Waited(c.attackTimeout), Emitted(SynthesizePhase, c.maxRounds), DecisionRecorded]
    case ByInterrupt => [Requested(Ledger.Suspended)]
    case ByExhaustion => [Emitted(SynthesizePhase, c.maxRounds), DecisionRecorded]
  }

  lemma PlayRound(c: Config, s: Script, r: int)
    requires r <= c.maxRounds && !ConvergedIn(c, s, r)
    ensures Play(c, s, r) ==
      [Emitted(AttackPhase, r), Waited(c.attackTimeout), Emitted(RepairPhase, r), Waited(c.repairTimeout)] +
      if RoundAt(s, r).interrupted then [Requested(Ledger.Suspended)] else Play(c, s, r + 1)
  {
  }

  lemma PlayEnds(c: Config, s: Script, r: int)
    ensures r > c.maxRounds ==> Play(c, s, r) == FullRounds(c, r, 0) + Finale(c, r + 0, ByExhaustion)
    ensures r <= c.maxRounds && ConvergedIn(c, s, r) ==>
      Play(c, s, r) == FullRounds(c, r, 0) + Finale(c, r + 0, ByConvergence)
  {
    assert FullRounds(c, r, 0) == [];
  }

  lemma OneRound(c: Config, r: int)
    ensures FullRounds(c, r, 1) ==
      [Emitted(AttackPhase, r), Waited(c.attackTimeout), Emitted(RepairPhase, r), Waited(c.repairTimeout)]
  {
    assert FullRounds(c, r + 1, 0) == [];
  }

  lemma PlayGoesOn(c: Config, s: Script, r: int, k: nat, stop: Stop)
    requires r <= c.maxRounds && !ConvergedIn(c, s, r) && !RoundAt(s, r).interrupted
    requires Play(c, s, r + 1) == FullRounds(c, r + 1, k) + Finale(c, r + 1 + k, stop)
    ensures Play(c, s, r) == FullRounds(c, r, k + 1) + Finale(c, r + (k + 1), stop)
  {
    PlayRound(c, s, r);
    OneRound(c, r);
    Join3(FullRounds(c, r, 1), FullRounds(c, r + 1, k), Finale(c, r + 1 + k, stop));
    assert r + 1 + k == r + (k + 1);
  }

  lemma Join3(a: seq<Event>, b: seq<Event>, c: seq<Event>)
    ensures a + (b + c) == a + b + c
  {
  }

  lemma PlayStopsHere(c: Config, s: Script, r: int)
    requires r <= c.maxRounds && !ConvergedIn(c, s, r) && RoundAt(s, r).interrupted
    ensures Play(c, s, r) == FullRounds(c, r, 1) + Finale(c, r + 1, ByInterrupt)
  {
    PlayRound(c, s, r);
    OneRound(c, r);
  }

  /** From round `r` on, `k` full rounds are played, and what follows is as `stop` says. */
  ghost predicate PlayedAs(c: Config, s: Script, r: int, k: nat, stop: Stop) {
    StopsAfter(c, s, r, k, stop) && Play(c, s, r) == FullRounds(c, r, k) + Finale(c, r + k, stop)
  }

  lemma PlayStopsSoon(c: Config, s: Script, r: int) returns (k: nat, stop: Stop)
    requires r > c.maxRounds || ConvergedIn(c, s, r) || RoundAt(s, r).interrupted
    ensures PlayedAs(c, s, r, k, stop)
  {
    StopsAtOnce(c, s, r);
    if r > c.maxRounds || ConvergedIn(c, s, r) {
      PlayEnds(c, s, r);
      k, stop := 0, if r > c.maxRounds then ByExhaustion else ByConvergence;
    } else {
      PlayStopsHere(c, s, r);
      k, stop := 1, ByInterrupt;
    }
  }

  lemma PlayedOneLater(c: Config, s: Script, r: int, k: nat, stop: Stop)
    requires r <= c.maxRounds && !ConvergedIn(c, s, r) && !RoundAt(s, r).interrupted && PlayedAs(c, s, r + 1, k, stop)
    ensures PlayedAs(c, s, r, k + 1, stop)
  {
    StopsOneLater(c, s, r, k, stop);
    PlayGoesOn(c, s, r, k, stop);
  }

  lemma {:induction false} PlayIsExact(c: Config, s: Script, r: int) returns (k: nat, stop: Stop)
    ensures PlayedAs(c, s, r, k, stop)
    decreases c.maxRounds + 1 - r
  {
    if r > c.maxRounds || ConvergedIn(c, s, r) || RoundAt(s, r).interrupted {
      k, stop := PlayStopsSoon(c, s, r);
    } else {
      var rest;
      rest, stop := PlayIsExact(c, s, r + 1);
      k := rest + 1;
      PlayedOneLater(c, s, r, rest, stop);
    }
  }

  /** The log of a clean run, event by event: the claims and their wait, `k` full rounds with their numbers
      and waits, and what follows, as the run converged, was interrupted or ran out of rounds. */
  lemma RunIsExact(c: Config, s: Script) returns (k: nat, stop: Stop)
    ensures StopsAfter(c, s, 1, k, stop)
    ensures Clean(c, s) ==
      [Emitted(ClaimPhase, 0), Waited(c.claimTimeout)] + FullRounds(c, 1, k) + Finale(c, 1 + k, stop)
  {
    k, stop := PlayIsExact(c, s, 1);
    Join3([Emitted(ClaimPhase, 0), Waited(c.claimTimeout)], FullRounds(c, 1, k), Finale(c, 1 + k, stop));
  }

  /** The claims that the check of round `r` reads: those of the workflow, after all calls up to and with
      the attacks of that round. */
  lemma ChecksWhatStands(s: Script, r: nat, x: Claim)
    requires r >= 1
    ensures var calls := CallsBefore(s, r) + RoundAt(s, r).attackCalls;
      Count(ClaimsAt(s, r), x) == if x.workflowId == s.workflowId then Count(ApplyAll([], calls), x) else 0
    ensures RoundAt(s, r) == if r <= |s.rounds| then s.rounds[r - 1] else Round([], [], false)
    ensures CallsBefore(s, 1) == s.claimCalls
    ensures CallsBefore(s, r + 1) == CallsBefore(s, r) + RoundAt(s, r).attackCalls + RoundAt(s, r).repairCalls
  {
    ClaimsOfHold(ApplyAll([], CallsBefore(s, r) + RoundAt(s, r).attackCalls), s.workflowId, x);
  }

  lemma {:induction false} WaitOfPrefix(a: seq<Event>, b: seq<Event>)
    requires a <= b
    ensures TotalWait(a) <= TotalWait(b) && Phases(a) <= Phases(b)
    decreases |a|
  {
    if a != [] {
      assert a[1..] <= b[1..];
      WaitOfPrefix(a[1..], b[1..]);
    }
  }

  function Attacks(log: seq<Event>): nat {
    Count(Phases(log), AttackPhase)
  }

  lemma {:induction false} CountOfPrefix(a: seq<Phase>, b: seq<Phase>, x: Phase)
    requires a <= b
    ensures Count(a, x) <= Count(b, x)
  {
    assert b == a + b[|a|..];
    CountAppend(a, b[|a|..], x);
  }

  lemma {:induction false} AttacksOfRounds(k: nat)
    ensures Count(Rounds(k), AttackPhase) == k
  {
    if k > 0 {
      AttacksOfRounds(k - 1);
      CountAppend([AttackPhase, RepairPhase], Rounds(k - 1), AttackPhase);
      assert [AttackPhase, RepairPhase][1..] == [RepairPhase] && [RepairPhase][1..] == [];
      assert Count([RepairPhase], AttackPhase) == 0;
    }
  }

  lemma {:induction false} AttacksOfRun(k: nat, stop: Stop)
    ensures Count([ClaimPhase] + Rounds(k) + Tail(stop), AttackPhase) == if stop == ByConvergence then k + 1 else k
  {
    AttacksOfRounds(k);
    CountAppend([ClaimPhase] + Rounds(k), Tail(stop), AttackPhase);
    CountAppend([ClaimPhase], Rounds(k), AttackPhase);
    assert [ClaimPhase][1..] == [] && [SynthesizePhase][1..] == [] &&
      [AttackPhase, SynthesizePhase][1..] == [SynthesizePhase];
    assert Count([SynthesizePhase], AttackPhase) == 0;
  }

  lemma {:induction false} AppendRequest(log: seq<Event>, status: Ledger.WorkflowStatus)
    ensures Phases(log + [Requested(status)]) == Phases(log) && TotalWait(log + [Requested(status)]) == TotalWait(log)
  {
    if log == [] {
      assert [Requested(status)][1..] == [];
    } else {
      assert (log + [Requested(status)])[1..] == log[1..] + [Requested(status)];
      AppendRequest(log[1..], status);
    }
  }

  /** A run stopped on its way, by a cancellation or by an error that asks for FAILED. */
  ghost predicate Stopped(c: Config, s: Script, log: seq<Event>) {
    log <= Clean(c, s) ||
    (log != [] && log[|log| - 1] == Requested(Ledger.Failed) && log[..|log| - 1] <= Clean(c, s))
  }

  /** However a run ends, it attacks at most `maxRounds` times and waits no longer than all its rounds take. */
  lemma {:induction false} WaitIsBounded(c: Config, s: Script, log: seq<Event>)
    requires Stopped(c, s, log)
    ensures var n := if c.maxRounds > 0 then c.maxRounds else 0;
      Attacks(log) <= n && TotalWait(log) <= c.claimTimeout + n * (c.attackTimeout + c.repairTimeout)
  {
    if log <= Clean(c, s) {
      PrefixIsBounded(c, s, log);
    } else {
      var n := |log| - 1;
      PrefixIsBounded(c, s, log[..n]);
      AppendRequest(log[..n], Ledger.Failed);
      assert log == log[..n] + [Requested(Ledger.Failed)];
    }
  }

  lemma {:induction false} PrefixIsBounded(c: Config, s: Script, log: seq<Event>)
    requires log <= Clean(c, s)
    ensures var n := if c.maxRounds > 0 then c.maxRounds else 0;
      Attacks(log) <= n && TotalWait(log) <= c.claimTimeout + n * (c.attackTimeout + c.repairTimeout)
  {
    var k, stop := RunShape(c, s);
    WaitOfPrefix(log, Clean(c, s));
    StopsInRange(c, s, k, stop);
    Scale(if stop == ByConvergence then k + 1 else k, if c.maxRounds > 0 then c.maxRounds else 0,
          c.attackTimeout + c.repairTimeout);
    CountOfPrefix(Phases(log), Phases(Clean(c, s)), AttackPhase);
    AttacksOfRun(k, stop);
  }

  lemma StopsInRange(c: Config, s: Script, k: nat, stop: Stop)
    requires StopsAfter(c, s, 1, k, stop)
    ensures (if stop == ByConvergence then k + 1 else k) <= if c.maxRounds > 0 then c.maxRounds else 0
  {
    if k > 0 {
      assert !ConvergedIn(c, s, k);
    }
  }

  lemma Scale(a: nat, b: nat, m: nat)
    requires a <= b
    ensures a * m <= b * m && (a > 0 ==> a * m == (a - 1) * m + m)
  {
  }
}
