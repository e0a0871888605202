/** The cooperative workflow engine over the ledger. */
module CooperativeWorkflow {
  import opened Common
  import opened Ledger

  /** The engine's state: the ledger, the workflows with a running loop, and the items handed to workers so far. */
  datatype Engine = Engine(t: Tables, active: set<string>, handed: seq<string>)

  // ----- what each call does

  datatype Inserted = Inserted(t: Tables, ok: bool)

  /** Insert items one by one; the first violated constraint raises and ends the call. */
  function InsertAll(t: Tables, wf: string, items: seq<WorkItem>): Inserted
    decreases |items|
  {
    if items == [] then Inserted(t, true)
    else
      var item := items[0].(workflowId := wf);
      if Insertable(t, item) then InsertAll(InsertItem(t, item), wf, items[1..]) else Inserted(t, false)
  }

  function StartWorkflow(e: Engine, wf: string, items: seq<WorkItem>, now: int): Engine {
    var r := InsertAll(e.t, wf, items);
    if !r.ok || !CanMove(r.t, wf, Running) then e.(t := r.t)
    else e.(t := MoveWorkflow(r.t, wf, Running, now, None, None), active := e.active + {wf})
  }

  function AddWorkItems(e: Engine, wf: string, items: seq<WorkItem>): Engine {
    e.(t := InsertAll(e.t, wf, items).t)
  }

  function SubmitReceipt(e: Engine, r: Receipt, now: int): Engine {
    if !ReceiptInsertable(e.t, r) then e
    else
      var t := InsertReceipt(e.t, r);
      match r.outcome
      case Success => e.(t := ChangeItem(t, r.target, Change(Some(ItemCompleted), Some(r.summary), None), now))
      case Failure => e.(t := ChangeItem(t, r.target, Change(Some(ItemFailed), None, r.errorDetail), now))
      case Partial => e.(t := t)
      case Timeout => e.(t := t)
  }

  function RaiseInterrupt(t: Tables, x: Interrupt, now: int): Tables {
    var t1 := InsertInterrupt(t, x);
    if InterruptInsertable(t, x) && x.kind == StormDetected
    then MoveWorkflow(t1, x.workflowId, Suspended, now, None, None)
    else t1
  }

  function RaiseAll(t: Tables, xs: seq<Interrupt>, now: int): Tables {
    if xs == [] then t else RaiseInterrupt(RaiseAll(t, xs[..|xs| - 1], now), xs[|xs| - 1], now)
  }

  function CancelWorkflow(e: Engine, wf: string, now: int): Engine {
    e.(t := MoveWorkflow(e.t, wf, Cancelled, now, None, None), active := e.active - {wf})
  }

  function ItemNames(items: seq<WorkItem>): (ids: seq<string>)
    ensures |ids| == |items|
  {
    seq(|items|, i requires 0 <= i < |items| => items[i].id)
  }

  predicate Terminal(s: ItemStatus) {
    s == ItemCompleted || s == ItemFailed || s == Skipped
  }

  /** All items that are not blocked are resolved, and there is one. */
  predicate AllResolved(items: seq<WorkItem>) {
    && (exists i :: 0 <= i < |items| && items[i].status != Blocked)
    && (forall i :: 0 <= i < |items| && items[i].status != Blocked ==> Terminal(items[i].status))
  }

  function Line(item: WorkItem): string {
    if item.result.Some? && item.result.value != "" then "[" + item.description + "]: " + item.result.value
    else if item.error.Some? && item.error.value != "" then "[" + item.description + "]: FAILED — " + item.error.value
    else ""
  }

  function Lines(items: seq<WorkItem>): seq<string> {
    if items == [] then []
    else Lines(items[..|items| - 1]) + LineOf(items[|items| - 1])
  }

  function LineOf(item: WorkItem): seq<string> {
    if Line(item) == "" then [] else [Line(item)]
  }

  function JoinLines(lines: seq<string>): string {
    if lines == [] then "" else if |lines| == 1 then lines[0] else lines[0] + "\n" + JoinLines(lines[1..])
  }

  function Synthesis(items: seq<WorkItem>): string {
    if Lines(items) == [] then "All work items resolved." else JoinLines(Lines(items))
  }

  /** One turn of the dispatch loop; `alarms` are the interrupts the watchdogs raise in it. */
  function DispatchPass(e: Engine, wf: string, alarms: seq<Interrupt>, now: int): Engine {
    var e1 := e.(handed := e.handed + ItemNames(ReadyItems(e.t, wf)));
    if AllResolved(ItemsOf(e.t, wf)) then
      e1.(t := MoveWorkflow(e.t, wf, Completed, now, None, Some(Synthesis(ItemsOf(e.t, wf)))),
          active := e.active - {wf})
    else
      e1.(t := RaiseAll(e.t, alarms, now))
  }

  method BuildSynthesis(items: seq<WorkItem>) returns (synthesis: string)
    ensures synthesis == Synthesis(items)
  {
    var results: seq<string> := [];
    for i := 0 to |items|
      invariant results == Lines(items[..i])
    {
      assert items[..i + 1][..i] == items[..i];
      results := results + LineOf(items[i]);
    }
    assert items[..|items|] == items;
    return if results != [] then JoinLines(results) else "All work items resolved.";
  }

  class CooperativeEngine {
    const ledger: Store
    var active: set<string>
    var handed: seq<string>

    constructor (ledger: Store)
      ensures this.ledger == ledger && active == {} && handed == []
    {
      this.ledger := ledger;
      active, handed := {}, [];
    }

    ghost function State(): Engine
      reads this, ledger
    {
      Engine(ledger.Rows(), active, handed)
    }

    method InsertItems(wf: string, items: seq<WorkItem>) returns (ok: bool)
      modifies ledger
      ensures Inserted(ledger.Rows(), ok) == InsertAll(old(ledger.Rows()), wf, items)
    {
      ok := true;
      var i := 0;
      while i < |items|
        invariant 0 <= i <= |items|
        invariant InsertAll(ledger.Rows(), wf, items[i..]) == InsertAll(old(ledger.Rows()), wf, items)
      {
        ok := ledger.CreateWorkItem(items[i].(workflowId := wf));
        if !ok {
          return;
        }
        assert items[i..][1..] == items[i + 1..];
        i := i + 1;
      }
    }

    method Start(wf: string, items: seq<WorkItem>, now: int)
      modifies this, ledger
      ensures State() == StartWorkflow(old(State()), wf, items, now)
    {
      var ok := InsertItems(wf, items);
      if !ok {
        return;
      }
      var updated := ledger.UpdateWorkflowStatus(wf, Running, now, None, None);
      if updated {
        active := active + {wf};
      }
    }

    method AddItems(wf: string, items: seq<WorkItem>)
      modifies ledger
      ensures State() == AddWorkItems(old(State()), wf, items)
    {
      var ok := InsertItems(wf, items);
    }

    method Receive(r: Receipt, now: int)
      modifies ledger
      ensures State() == SubmitReceipt(old(State()), r, now)
    {
      var ok := ledger.AddReceipt(r);
      if !ok {
        return;
      }
      if r.outcome == Outcome.Success {
        var updated := ledger.UpdateWorkItem(r.target, Change(Some(ItemCompleted), Some(r.summary), None), now);
      } else if r.outcome == Outcome.Failure {
        var updated := ledger.UpdateWorkItem(r.target, Change(Some(ItemFailed), None, r.errorDetail), now);
      }
    }

    method Interrupted(x: Interrupt, now: int)
      modifies ledger
      ensures ledger.Rows() == RaiseInterrupt(old(ledger.Rows()), x, now)
    {
      var ok := ledger.AddInterrupt(x);
      if ok && x.kind == StormDetected {
        var updated := ledger.UpdateWorkflowStatus(x.workflowId, Suspended, now, None, None);
      }
    }

    method Cancel(wf: string, now: int) returns (cancelled: bool)
      modifies this, ledger
      ensures State() == CancelWorkflow(old(State()), wf, now)
      ensures cancelled == CanMove(old(ledger.Rows()), wf, Cancelled)
    {
      active := active - {wf};
      cancelled := ledger.UpdateWorkflowStatus(wf, Cancelled, now, None, None);
    }

    method Complete(wf: string, items: seq<WorkItem>, now: int)
      modifies this`active, ledger
      ensures ledger.Rows() == MoveWorkflow(old(ledger.Rows()), wf, Completed, now, None, Some(Synthesis(items)))
      ensures active == old(active) - {wf}
    {
      var synthesis := BuildSynthesis(items);
      var updated := ledger.UpdateWorkflowStatus(wf, Completed, now, None, Some(synthesis));
      active := active - {wf};
    }

    /** One turn of `_dispatch_loop`; `finished` when the loop returns. */
    method Dispatch(wf: string, alarms: seq<Interrupt>, now: int) returns (finished: bool)
      modifies this, ledger
      ensures State() == DispatchPass(old(State()), wf, alarms, now)
      ensures finished == AllResolved(ItemsOf(old(ledger.Rows()), wf))
    {
      var pending := ledger.GetPendingWorkItems(wf);
      for i := 0 to |pending|
        invariant handed == old(handed) + ItemNames(pending[..i])
        invariant ledger.Rows() == old(ledger.Rows()) && active == old(active)
      {
        handed := handed + [pending[i].id];
      }
      assert pending[..|pending|] == pending;
      var all := ledger.GetWorkItems(wf);
      finished := AllResolved(all);
      if finished {
        Complete(wf, all, now);
        return;
      }
      for i := 0 to |alarms|
        invariant ledger.Rows() == RaiseAll(old(ledger.Rows()), alarms[..i], now)
        invariant active == old(active) && handed == old(handed) + ItemNames(pending)
      {
        assert alarms[..i + 1][..i] == alarms[..i];
        Interrupted(alarms[i], now);
      }
      assert alarms[..|alarms|] == alarms;
    }
  }
}
