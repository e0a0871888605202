/** What holds over whole runs of the workflow and discussion engines on one ledger. */
module WorkflowRuns {
  import opened Common
  import opened Ledger
  import opened CooperativeWorkflow

  /** Every call that reaches the ledger: the engines', the workers' and the driver's. */
  datatype Call =
    | CreateWorkflow(id: string, status: WorkflowStatus, now: int)
    | Start(wf: string, items: seq<WorkItem>, now: int)
    | Dispatch(wf: string, alarms: seq<Interrupt>, now: int)
    | LoopError(wf: string, message: string, now: int)
    | Receive(receipt: Receipt, now: int)
    | Interrupted(interrupt: Interrupt, now: int)
    | ResolveInterrupt(id: string, resolution: Resolution)
    | Cancel(wf: string, now: int)
    | AddItems(wf: string, items: seq<WorkItem>)
    | SetItem(id: string, to: ItemStatus, now: int)
    | StartDiscussion(wf: string, now: int)
    | SuspendDiscussion(wf: string, now: int)
    | SubmitSynthesis(wf: string, text: string, now: int)

  function Apply(e: Engine, c: Call): Engine {
    match c
    case CreateWorkflow(id, status, now) => e.(t := InsertWorkflow(e.t, id, status, now))
    case Start(wf, items, now) => StartWorkflow(e, wf, items, now)
    case Dispatch(wf, alarms, now) => DispatchPass(e, wf, alarms, now)
    case LoopError(wf, message, now) => e.(t := MoveWorkflow(e.t, wf, Failed, now, Some(message), None))
    case Receive(r, now) => SubmitReceipt(e, r, now)
    case Interrupted(x, now) => e.(t := RaiseInterrupt(e.t, x, now))
    case ResolveInterrupt(id, resolution) => e.(t := Resolve(e.t, id, resolution))
    case Cancel(wf, now) => CancelWorkflow(e, wf, now)
    case AddItems(wf, items) => AddWorkItems(e, wf, items)
    case SetItem(id, status, now) => e.(t := ChangeItem(e.t, id, Change(Some(status), None, None), now))
    case StartDiscussion(wf, now) => e.(t := MoveWorkflow(e.t, wf, Running, now, None, None))
    case SuspendDiscussion(wf, now) => e.(t := MoveWorkflow(e.t, wf, Suspended, now, None, None))
    case SubmitSynthesis(wf, text, now) => e.(t := MoveWorkflow(e.t, wf, Completed, now, None, Some(text)))
  }

  function Run(e: Engine, calls: seq<Call>): Engine {
    if calls == [] then e else Apply(Run(e, calls[..|calls| - 1]), calls[|calls| - 1])
  }

  /** An error that leaves a loop fails its running workflow, with the message; a synthesis completes it; a
      discussion with open interrupts suspends it. */
  lemma LoopsEnd(e: Engine, wf: string, text: string, now: int)
    requires wf in e.t.workflows && e.t.workflows[wf].status == Running
    ensures var w := e.t.workflows[wf].(updatedAt := now);
      && Apply(e, LoopError(wf, text, now)).t ==
           e.t.(workflows := e.t.workflows[wf := w.(status := Failed, error := Some(text), completedAt := Some(now))])
      && Apply(e, SubmitSynthesis(wf, text, now)).t ==
           e.t.(workflows := e.t.workflows[wf :=
             w.(status := Completed, finalSynthesis := Some(text), completedAt := Some(now))])
      && Apply(e, SuspendDiscussion(wf, now)).t == e.t.(workflows := e.t.workflows[wf := w.(status := Suspended)])
  {
  }

  // ----- workflow rows

  /** A synthesis is recorded exactly in completed workflows, and an end has a time. */
  predicate RowOk(w: Workflow) {
    && (w.finalSynthesis.Some? <==> w.status == Completed)
    && (Final(w.status) ==> w.completedAt.Some?)
  }

  /** The row stays as it is, or takes one edge of the transition table. */
  predicate RowMoves(w: Workflow, w': Workflow) {
    w' == w || ValidTransition(w.status, w'.status)
  }

  ghost predicate RowStep(t: Tables, t': Tables, x: string) {
    x in t.workflows && RowOk(t.workflows[x]) ==>
      x in t'.workflows && RowOk(t'.workflows[x]) && RowMoves(t.workflows[x], t'.workflows[x])
  }

  lemma MoveSteps(t: Tables, id: string, to: WorkflowStatus, now: int, error: Option<string>,
                  synthesis: Option<string>, x: string)
    requires synthesis.Some? <==> to == Completed
    ensures RowStep(t, MoveWorkflow(t, id, to, now, error, synthesis), x)
  {
  }

  lemma {:induction false} InsertAllRows(t: Tables, wf: string, items: seq<WorkItem>)
    ensures InsertAll(t, wf, items).t.workflows == t.workflows
    decreases |items|
  {
    if items != [] && Insertable(t, items[0].(workflowId := wf)) {
      InsertAllRows(InsertItem(t, items[0].(workflowId := wf)), wf, items[1..]);
    }
  }

  /** Watchdog alarms suspend a running workflow, once, and change no other row. */
  lemma {:induction false} RaiseAllRows(t: Tables, xs: seq<Interrupt>, now: int, x: string)
    requires x in t.workflows
    ensures var t' := RaiseAll(t, xs, now);
      x in t'.workflows && (t'.workflows[x] == t.workflows[x] ||
        (t.workflows[x].status == Running && t'.workflows[x] == t.workflows[x].(status := Suspended, updatedAt := now)))
  {
    if xs != [] {
      RaiseAllRows(t, xs[..|xs| - 1], now, x);
    }
  }

  /** Each call moves each workflow along at most one edge. */
  lemma ApplySteps(e: Engine, c: Call, x: string)
    ensures RowStep(e.t, Apply(e, c).t, x)
  {
    match c
    case Start(wf, items, now) =>
      InsertAllRows(e.t, wf, items);
      MoveSteps(InsertAll(e.t, wf, items).t, wf, Running, now, None, None, x);
    case AddItems(wf, items) => InsertAllRows(e.t, wf, items);
    case Dispatch(wf, alarms, now) =>
      if AllResolved(ItemsOf(e.t, wf)) {
        MoveSteps(e.t, wf, Completed, now, None, Some(Synthesis(ItemsOf(e.t, wf))), x);
      } else if x in e.t.workflows {
        RaiseAllRows(e.t, alarms, now, x);
      }
    case Interrupted(i, now) => InterruptSteps(e.t, i, now, x);
    case LoopError(wf, message, now) => MoveSteps(e.t, wf, Failed, now, Some(message), None, x);
    case Cancel(wf, now) => MoveSteps(e.t, wf, Cancelled, now, None, None, x);
    case StartDiscussion(wf, now) => MoveSteps(e.t, wf, Running, now, None, None, x);
    case SuspendDiscussion(wf, now) => MoveSteps(e.t, wf, Suspended, now, None, None, x);
    case SubmitSynthesis(wf, text, now) => MoveSteps(e.t, wf, Completed, now, None, Some(text), x);
    case CreateWorkflow(id, status, now) =>
    case Receive(r, now) =>
    case ResolveInterrupt(id, resolution) =>
    case SetItem(id, status, now) =>
  }

  lemma InterruptSteps(t: Tables, i: Interrupt, now: int, x: string)
    ensures RowStep(t, RaiseInterrupt(t, i, now), x)
  {
    MoveSteps(InsertInterrupt(t, i), i.workflowId, Suspended, now, None, None, x);
  }

  /** The row of `x` after `k` calls. */
  function RowAt(e: Engine, calls: seq<Call>, x: string, k: nat): Option<Workflow>
    requires k <= |calls|
  {
    var t := Run(e, calls[..k]).t;
    if x in t.workflows then Some(t.workflows[x]) else None
  }

  /** Over any calls, the history of a workflow created as CREATED is a path in the transition
      table, and its row is sound at every point. */
  lemma {:induction false} HistoryIsPath(e: Engine, calls: seq<Call>, x: string, k: nat)
    requires x in e.t.workflows && e.t.workflows[x].status == Created && RowOk(e.t.workflows[x]) && k <= |calls|
    ensures RowAt(e, calls, x, k).Some? && RowOk(RowAt(e, calls, x, k).value)
    ensures k < |calls| ==>
      RowAt(e, calls, x, k + 1).Some? && RowMoves(RowAt(e, calls, x, k).value, RowAt(e, calls, x, k + 1).value)
  {
    if k > 0 {
      HistoryIsPath(e, calls, x, k - 1);
      assert calls[..k][..k - 1] == calls[..k - 1];
      ApplySteps(Run(e, calls[..k - 1]), calls[k - 1], x);
    } else {
      assert calls[..0] == [];
    }
    if k < |calls| {
      assert calls[..k + 1][..k] == calls[..k];
      ApplySteps(Run(e, calls[..k]), calls[k], x);
    }
  }

  /** Completed and cancelled workflows never change again, in any field. */
  lemma {:induction false} EndIsAbsorbing(e: Engine, calls: seq<Call>, x: string, j: nat, k: nat)
    requires x in e.t.workflows && e.t.workflows[x].status == Created && RowOk(e.t.workflows[x])
    requires j <= k <= |calls| && RowAt(e, calls, x, j).Some?
    requires RowAt(e, calls, x, j).value.status == Completed || RowAt(e, calls, x, j).value.status == Cancelled
    ensures RowAt(e, calls, x, k) == RowAt(e, calls, x, j)
    decreases k
  {
    if j < k {
      EndIsAbsorbing(e, calls, x, j, k - 1);
      HistoryIsPath(e, calls, x, k - 1);
    }
  }

  // ----- dependencies of work items

  ghost predicate ResolvedId(items: seq<WorkItem>, d: string) {
    exists i :: 0 <= i < |items| && items[i].id == d && Resolved(items[i].status)
  }

  ghost predicate Met(items: seq<WorkItem>, deps: seq<string>) {
    forall k :: 0 <= k < |deps| ==> ResolvedId(items, deps[k])
  }

  predicate Started(s: ItemStatus) {
    s == InProgress || s == ItemCompleted || s == ItemFailed
  }

  ghost predicate UniqueIds(items: seq<WorkItem>) {
    forall i, j :: 0 <= i < j < |items| ==> items[i].id != items[j].id
  }

  ghost predicate HasRow(items: seq<WorkItem>, d: string) {
    exists i :: 0 <= i < |items| && items[i].id == d
  }

  ghost predicate KnownDeps(items: seq<WorkItem>) {
    forall i, k :: 0 <= i < |items| && 0 <= k < |items[i].dependsOn| ==> HasRow(items, items[i].dependsOn[k])
  }

  /** Every started or finished item has all its dependencies completed or skipped. */
  ghost predicate Safe(items: seq<WorkItem>) {
    forall i :: 0 <= i < |items| && Started(items[i].status) ==> Met(items, items[i].dependsOn)
  }

  ghost predicate HandedRow(items: seq<WorkItem>, h: string) {
    exists i :: 0 <= i < |items| && items[i].id == h && Met(items, items[i].dependsOn)
  }

  ghost predicate Inv(e: Engine) {
    && UniqueIds(e.t.items) && KnownDeps(e.t.items) && Safe(e.t.items)
    && forall k :: 0 <= k < |e.handed| ==> HandedRow(e.t.items, e.handed[k])
  }

  // ----- what the callers keep to

  /** New items are pending, and their dependencies have rows before they do. */
  ghost predicate DependenciesFirst(t: Tables, wf: string, items: seq<WorkItem>)
    decreases |items|
  {
    items != [] ==>
      var item := items[0].(workflowId := wf);
      && item.status == Pending && (forall k :: 0 <= k < |item.dependsOn| ==> HasRow(t.items, item.dependsOn[k]))
      && (Insertable(t, item) ==> DependenciesFirst(InsertItem(t, item), wf, items[1..]))
  }

  predicate IsOpen(s: ItemStatus) {
    s == Pending || s == Assigned || s == InProgress || s == Blocked
  }

  /** Items are worked on only after they were handed out, are finished only by a receipt while
      in progress, and a finished item is left alone. */
  ghost predicate Disciplined(e: Engine, c: Call) {
    match c
    case Start(wf, items, _) => DependenciesFirst(e.t, wf, items)
    case AddItems(wf, items) => DependenciesFirst(e.t, wf, items)
    case SetItem(id, to, _) =>
      && to != ItemCompleted && to != ItemFailed && (to == InProgress ==> id in e.handed)
      && forall i :: 0 <= i < |e.t.items| && e.t.items[i].id == id ==> IsOpen(e.t.items[i].status)
    case Receive(r, _) =>
      r.outcome == Outcome.Success || r.outcome == Outcome.Failure ==>
        forall i :: 0 <= i < |e.t.items| && e.t.items[i].id == r.target ==> e.t.items[i].status == InProgress
    case _ => true
  }

  ghost predicate DisciplinedRun(e: Engine, calls: seq<Call>) {
    forall k :: 0 <= k < |calls| ==> Disciplined(Run(e, calls[..k]), calls[k])
  }

  // ----- every disciplined call keeps the invariant

  /** Rows are only added, keep their dependencies, and stay resolved. */
  ghost predicate Evolves(a: seq<WorkItem>, b: seq<WorkItem>) {
    |a| <= |b| && forall i :: 0 <= i < |a| ==> RowEvolves(a[i], b[i])
  }

  predicate RowEvolves(x: WorkItem, y: WorkItem) {
    y.id == x.id && y.dependsOn == x.dependsOn && (Resolved(x.status) ==> Resolved(y.status))
  }

  ghost predicate TableInv(items: seq<WorkItem>) {
    UniqueIds(items) && KnownDeps(items) && Safe(items)
  }

  lemma InsertKeeps(t: Tables, item: WorkItem)
    requires TableInv(t.items) && Insertable(t, item) && item.status == Pending
    requires forall k :: 0 <= k < |item.dependsOn| ==> HasRow(t.items, item.dependsOn[k])
    ensures TableInv(InsertItem(t, item).items) && Evolves(t.items, InsertItem(t, item).items)
  {
    var a, b := t.items, InsertItem(t, item).items;
    assert Evolves(a, b);
    assert forall i :: 0 <= i < |a| ==> a[i].id in ItemIds(a);
    forall i, k | 0 <= i < |b| && 0 <= k < |b[i].dependsOn| ensures HasRow(b, b[i].dependsOn[k]) {
    }
    forall i | 0 <= i < |b| && Started(b[i].status) ensures Met(b, b[i].dependsOn) {
    }
  }

  lemma {:induction false} InsertAllKeeps(t: Tables, wf: string, items: seq<WorkItem>)
    requires TableInv(t.items) && DependenciesFirst(t, wf, items)
    ensures TableInv(InsertAll(t, wf, items).t.items) && Evolves(t.items, InsertAll(t, wf, items).t.items)
    decreases |items|
  {
    if items != [] {
      var item := items[0].(workflowId := wf);
      if Insertable(t, item) {
        InsertKeeps(t, item);
        InsertAllKeeps(InsertItem(t, item), wf, items[1..]);
      }
    }
  }

  lemma ChangeKeeps(t: Tables, id: string, c: Change, now: int)
    requires TableInv(t.items) && c.status.Some?
    requires forall i :: 0 <= i < |t.items| && t.items[i].id == id ==> IsOpen(t.items[i].status)
    requires Started(c.status.value) ==>
      forall i :: 0 <= i < |t.items| && t.items[i].id == id ==> Met(t.items, t.items[i].dependsOn)
    ensures TableInv(ChangeItem(t, id, c, now).items) && Evolves(t.items, ChangeItem(t, id, c, now).items)
  {
    var a, b := t.items, ChangeItem(t, id, c, now).items;
    assert Evolves(a, b);
    forall i, k | 0 <= i < |b| && 0 <= k < |b[i].dependsOn| ensures HasRow(b, b[i].dependsOn[k]) {
      assert b[i].dependsOn == a[i].dependsOn;
    }
    forall i | 0 <= i < |b| && Started(b[i].status) ensures Met(b, b[i].dependsOn) {
      assert b[i].dependsOn == a[i].dependsOn;
    }
  }

  lemma HandedOutIsMet(items: seq<WorkItem>, h: string, i: nat)
    requires UniqueIds(items) && HandedRow(items, h) && i < |items| && items[i].id == h
    ensures Met(items, items[i].dependsOn)
  {
  }

  lemma ReadyAreHandedRows(t: Tables, wf: string, k: nat)
    requires KnownDeps(t.items) && k < |ReadyItems(t, wf)|
    ensures HandedRow(t.items, ItemNames(ReadyItems(t, wf))[k])
  {
    var x := ReadyItems(t, wf)[k];
    ReadyItemsHold(t, wf, x);
    assert x in ReadyItems(t, wf);
    var i :| 0 <= i < |t.items| && t.items[i] == x;
  }

  lemma {:induction false} RaiseAllItems(t: Tables, xs: seq<Interrupt>, now: int)
    ensures RaiseAll(t, xs, now).items == t.items
  {
    if xs != [] {
      RaiseAllItems(t, xs[..|xs| - 1], now);
    }
  }

  lemma DispatchKeeps(e: Engine, wf: string, alarms: seq<Interrupt>, now: int)
    requires Inv(e)
    ensures Inv(DispatchPass(e, wf, alarms, now))
  {
    RaiseAllItems(e.t, alarms, now);
    var e' := DispatchPass(e, wf, alarms, now);
    assert e'.t.items == e.t.items;
    forall k | 0 <= k < |e'.handed| ensures HandedRow(e.t.items, e'.handed[k]) {
      if k >= |e.handed| {
        ReadyAreHandedRows(e.t, wf, k - |e.handed|);
      }
    }
  }

  lemma SetItemKeeps(e: Engine, c: Call)
    requires Inv(e) && c.SetItem? && Disciplined(e, c)
    ensures Inv(Apply(e, c))
  {
    if c.to == InProgress {
      var k :| 0 <= k < |e.handed| && e.handed[k] == c.id;
      forall i | 0 <= i < |e.t.items| && e.t.items[i].id == c.id ensures Met(e.t.items, e.t.items[i].dependsOn) {
        HandedOutIsMet(e.t.items, e.handed[k], i);
      }
    }
    ChangeKeeps(e.t, c.id, Change(Some(c.to), None, None), c.now);
  }

  lemma ReceiveKeeps(e: Engine, c: Call)
    requires Inv(e) && c.Receive? && Disciplined(e, c)
    ensures Inv(Apply(e, c))
  {
    var r, t := c.receipt, InsertReceipt(e.t, c.receipt);
    assert t.items == e.t.items;
    if ReceiptInsertable(e.t, r) {
      match r.outcome
      case Success =>
        ChangeKeeps(t, r.target, Change(Some(ItemCompleted), Some(r.summary), None), c.now);
      case Failure =>
        ChangeKeeps(t, r.target, Change(Some(ItemFailed), None, r.errorDetail), c.now);
      case Partial =>
      case Timeout =>
    }
  }

  lemma ApplyKeeps(e: Engine, c: Call)
    requires Inv(e) && Disciplined(e, c)
    ensures Inv(Apply(e, c))
  {
    match c
    case Start(wf, items, now) =>
      InsertAllKeeps(e.t, wf, items);
    case AddItems(wf, items) =>
      InsertAllKeeps(e.t, wf, items);
    case Dispatch(wf, alarms, now) => DispatchKeeps(e, wf, alarms, now);
    case SetItem(_, _, _) => SetItemKeeps(e, c);
    case Receive(_, _) => ReceiveKeeps(e, c);
    case _ =>
      assert Apply(e, c).t.items == e.t.items && Apply(e, c).handed == e.handed;
  }

  /** In every disciplined run, started and finished items have all dependencies completed or skipped. */
  lemma {:induction false} RunIsSafe(e: Engine, calls: seq<Call>)
    requires Inv(e) && DisciplinedRun(e, calls)
    ensures Inv(Run(e, calls))
  {
    if calls != [] {
      var n := |calls| - 1;
      forall k | 0 <= k < n ensures Disciplined(Run(e, calls[..n][..k]), calls[..n][k]) {
        assert calls[..n][..k] == calls[..k];
      }
      RunIsSafe(e, calls[..n]);
      ApplyKeeps(Run(e, calls[..n]), calls[n]);
    }
  }

  const EMPTY := Engine(Tables(map[], [], [], []), {}, [])

  /** The same from nothing: the property over every run of a new engine on an empty ledger. */
  lemma FreshRunIsSafe(calls: seq<Call>, i: nat, k: nat)
    requires DisciplinedRun(EMPTY, calls)
    requires i < |Run(EMPTY, calls).t.items| && Started(Run(EMPTY, calls).t.items[i].status)
    requires k < |Run(EMPTY, calls).t.items[i].dependsOn|
    ensures ResolvedId(Run(EMPTY, calls).t.items, Run(EMPTY, calls).t.items[i].dependsOn[k])
  {
    RunIsSafe(EMPTY, calls);
    assert Met(Run(EMPTY, calls).t.items, Run(EMPTY, calls).t.items[i].dependsOn);
  }
}
