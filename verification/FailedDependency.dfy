/** What a failed item does to the items that depend on it, and to their workflow. */
module FailedDependency {
  import opened Common
  import opened Ledger
  import opened CooperativeWorkflow
  import opened WorkflowRuns
  import opened UnknownDependency

  ghost predicate FailedRow(items: seq<WorkItem>, d: string) {
    exists i :: 0 <= i < |items| && items[i].id == d && items[i].status == ItemFailed
  }

  /** Row `i` is carried over with all that scheduling looks at. */
  ghost predicate Kept(a: seq<WorkItem>, b: seq<WorkItem>, i: nat)
    requires i < |a|
  {
    i < |b| && b[i].id == a[i].id && b[i].dependsOn == a[i].dependsOn && b[i].workflowId == a[i].workflowId &&
      b[i].status == a[i].status
  }

  lemma {:induction false} InsertAllKept(t: Tables, wf: string, items: seq<WorkItem>, i: nat)
    requires i < |t.items|
    ensures Kept(t.items, InsertAll(t, wf, items).t.items, i)
    decreases |items|
  {
    if items != [] && Insertable(t, items[0].(workflowId := wf)) {
      InsertAllKept(InsertItem(t, items[0].(workflowId := wf)), wf, items[1..], i);
    }
  }

  /** A row that no status change names, and that no receipt may finish, keeps its status. */
  lemma ApplyKept(e: Engine, c: Call, i: nat)
    requires Disciplined(e, c) && i < |e.t.items| && e.t.items[i].status != InProgress
    requires c.SetItem? ==> c.id != e.t.items[i].id
    ensures Kept(e.t.items, Apply(e, c).t.items, i)
  {
    match c
    case Start(wf, items, now) => InsertAllKept(e.t, wf, items, i);
    case AddItems(wf, items) => InsertAllKept(e.t, wf, items, i);
    case Dispatch(wf, alarms, now) => RaiseAllItems(e.t, alarms, now);
    case SetItem(_, _, _) =>
    case Receive(r, now) =>
      assert InsertReceipt(e.t, r).items == e.t.items;
      assert r.outcome == Outcome.Success || r.outcome == Outcome.Failure ==> r.target != e.t.items[i].id;
    case _ => assert Apply(e, c).t.items == e.t.items;
  }

  lemma FailedStays(e: Engine, c: Call, d: string)
    requires Disciplined(e, c) && FailedRow(e.t.items, d)
    ensures FailedRow(Apply(e, c).t.items, d)
  {
    var i: nat :| i < |e.t.items| && e.t.items[i].id == d && e.t.items[i].status == ItemFailed;
    assert c.SetItem? ==> c.id != d;
    ApplyKept(e, c, i);
  }

  lemma RunPrefix(e: Engine, calls: seq<Call>, n: nat)
    requires DisciplinedRun(e, calls) && n < |calls|
    ensures DisciplinedRun(e, calls[..n]) && Disciplined(Run(e, calls[..n]), calls[n])
  {
    forall k | 0 <= k < n ensures Disciplined(Run(e, calls[..n][..k]), calls[..n][k]) {
      assert calls[..n][..k] == calls[..k];
    }
  }

  lemma {:induction false} FailedForever(e: Engine, calls: seq<Call>, d: string)
    requires DisciplinedRun(e, calls) && FailedRow(e.t.items, d)
    ensures FailedRow(Run(e, calls).t.items, d)
  {
    if calls != [] {
      var n := |calls| - 1;
      RunPrefix(e, calls, n);
      FailedForever(e, calls[..n], d);
      FailedStays(Run(e, calls[..n]), calls[n], d);
    }
  }

  lemma FailedIsUnmet(items: seq<WorkItem>, d: string, deps: seq<string>)
    requires UniqueIds(items) && FailedRow(items, d) && d in deps
    ensures !Met(items, deps)
  {
    var k :| 0 <= k < |deps| && deps[k] == d;
    assert ResolvedId(items, deps[k]) ==> false;
  }

  lemma HandedMeansMet(e: Engine, i: nat)
    requires Inv(e) && i < |e.t.items|
    ensures e.t.items[i].id in e.handed ==> Met(e.t.items, e.t.items[i].dependsOn)
  {
    if e.t.items[i].id in e.handed {
      var k :| 0 <= k < |e.handed| && e.handed[k] == e.t.items[i].id;
      assert HandedRow(e.t.items, e.handed[k]);
      HandedOutIsMet(e.t.items, e.handed[k], i);
    }
  }

  /** Once an item has failed, no run hands out or starts any item that depends on it. */
  lemma FailureNeverPassedOver(e: Engine, calls: seq<Call>, d: string, i: nat)
    requires Inv(e) && DisciplinedRun(e, calls) && FailedRow(e.t.items, d)
    requires i < |Run(e, calls).t.items| && d in Run(e, calls).t.items[i].dependsOn
    ensures !Started(Run(e, calls).t.items[i].status) && Run(e, calls).t.items[i].id !in Run(e, calls).handed
  {
    var e' := Run(e, calls);
    var x := e'.t.items[i];
    RunIsSafe(e, calls);
    FailedForever(e, calls, d);
    FailedIsUnmet(e'.t.items, d, x.dependsOn);
    HandedMeansMet(e', i);
  }

  // ----- a workflow behind a failed dependency

  /** Nobody sets the item's status, submits a synthesis for the workflow, or crashes its loop. */
  predicate LeavesAlone(c: Call, x: string, wf: string) {
    (c.SetItem? ==> c.id != x) && (c.SubmitSynthesis? ==> c.wf != wf) && (c.LoopError? ==> c.wf != wf)
  }

  ghost predicate Waiting(e: Engine, i: nat, wf: string) {
    && i < |e.t.items| && e.t.items[i].workflowId == wf && e.t.items[i].status == Pending
    && wf in e.t.workflows && e.t.workflows[wf].status != Completed
  }

  /** The workflow has failed before, or has not failed. */
  ghost predicate NotNewlyFailed(before: Engine, e: Engine, wf: string) {
    wf in before.t.workflows && wf in e.t.workflows &&
    (e.t.workflows[wf].status == Failed ==> before.t.workflows[wf].status == Failed)
  }

  lemma PendingPreventsEnd(t: Tables, wf: string, i: nat)
    requires i < |t.items| && t.items[i].workflowId == wf && t.items[i].status == Pending
    ensures !AllResolved(ItemsOf(t, wf))
  {
    ItemsOfHold(t, wf, t.items[i]);
    var k :| 0 <= k < |ItemsOf(t, wf)| && ItemsOf(t, wf)[k] == t.items[i];
  }

  lemma WaitingStays(e: Engine, c: Call, i: nat, wf: string)
    requires Waiting(e, i, wf) && Disciplined(e, c) && LeavesAlone(c, e.t.items[i].id, wf)
    ensures Waiting(Apply(e, c), i, wf) && Kept(e.t.items, Apply(e, c).t.items, i)
    ensures NotNewlyFailed(e, Apply(e, c), wf)
  {
    ApplyKept(e, c, i);
    match c
    case Start(w, items, now) => InsertAllRows(e.t, w, items);
    case AddItems(w, items) => InsertAllRows(e.t, w, items);
    case Dispatch(w, alarms, now) =>
      PendingPreventsEnd(e.t, wf, i);
      RaiseAllRows(e.t, alarms, now, wf);
    case _ =>
  }

  /** A pending item left alone keeps its workflow from completing, and nothing but its loop fails it. */
  lemma {:induction false} PendingKeepsOpen(e: Engine, calls: seq<Call>, i: nat, wf: string)
    requires Waiting(e, i, wf) && DisciplinedRun(e, calls)
    requires forall k :: 0 <= k < |calls| ==> LeavesAlone(calls[k], e.t.items[i].id, wf)
    ensures Waiting(Run(e, calls), i, wf) && Kept(e.t.items, Run(e, calls).t.items, i)
    ensures NotNewlyFailed(e, Run(e, calls), wf)
  {
    if calls != [] {
      var n := |calls| - 1;
      RunPrefix(e, calls, n);
      PendingKeepsOpen(e, calls[..n], i, wf);
      WaitingStays(Run(e, calls[..n]), calls[n], i, wf);
    }
  }

  /** Behind a failed dependency the loop turns for ever: as long as nobody else steps in, a dependent
      item stays pending and in no worker's hands, and its workflow neither completes nor fails. */
  lemma FailureStrandsWorkflow(e: Engine, calls: seq<Call>, d: string, i: nat, wf: string)
    requires Inv(e) && FailedRow(e.t.items, d) && Waiting(e, i, wf) && d in e.t.items[i].dependsOn
    requires DisciplinedRun(e, calls) && forall k :: 0 <= k < |calls| ==> LeavesAlone(calls[k], e.t.items[i].id, wf)
    ensures var e' := Run(e, calls);
      && Waiting(e', i, wf) && e'.t.items[i].id == e.t.items[i].id && e.t.items[i].id !in e'.handed
      && e'.t.workflows[wf].status != Completed && NotNewlyFailed(e, e', wf)
  {
    PendingKeepsOpen(e, calls, i, wf);
    FailureNeverPassedOver(e, calls, d, i);
  }

  // ----- such a run from an empty ledger

  const A: WorkItem := Plain("a", [], Pending)
  const B: WorkItem := Plain("b", ["a"], Pending)

  const REPORT: Receipt := Receipt("r", "w", "a", Outcome.Failure, "", None)

  /** Create and start a workflow, hand out and start its first item, and report its failure. */
  const FAILING: seq<Call> := [
    CreateWorkflow("w", Created, 0), Start("w", [A, B], 0), Dispatch("w", [], 0), SetItem("a", InProgress, 0),
    Receive(REPORT, 0)]

  /** Two items of a running workflow, the second depending on the first. */
  ghost predicate TwoItems(e: Engine, first: ItemStatus) {
    && "w" in e.t.workflows && e.t.workflows["w"].status == Running && e.t.receipts == []
    && |e.t.items| == 2 && e.t.items[0].id == "a" && e.t.items[0].status == first && e.t.items[0].dependsOn == []
    && e.t.items[1] == B && e.t.items[0].workflowId == "w"
  }

  lemma WorkflowStarts(e: Engine)
    requires e == Apply(EMPTY, CreateWorkflow("w", Created, 0))
    ensures Disciplined(e, Start("w", [A, B], 0)) && TwoItems(Apply(e, Start("w", [A, B], 0)), Pending)
  {
    var t1 := InsertItem(e.t, A);
    var t2 := InsertItem(t1, B);
    assert A.(workflowId := "w") == A && B.(workflowId := "w") == B && "a" != "b";
    assert Insertable(e.t, A) && t1.items == [A];
    assert Insertable(t1, B) && t2.items == [A, B];
    assert [A, B][1..] == [B] && [B][1..] == [];
    assert t1.items[0].id == B.dependsOn[0] && HasRow(t1.items, "a");
    assert DependenciesFirst(t2, "w", []);
    assert DependenciesFirst(t1, "w", [B]);
    assert InsertAll(t2, "w", []) == Inserted(t2, true);
    assert InsertAll(t1, "w", [B]) == Inserted(t2, true);
    assert InsertAll(e.t, "w", [A, B]) == Inserted(t2, true);
  }

  lemma FirstIsHandedOut(e: Engine)
    requires TwoItems(e, Pending)
    ensures var e' := Apply(e, Dispatch("w", [], 0)); TwoItems(e', Pending) && "a" in e'.handed
  {
    var x := e.t.items[0];
    assert Ready(e.t.items, "w", x);
    ReadyItemsHold(e.t, "w", x);
    var k :| 0 <= k < |ReadyItems(e.t, "w")| && ReadyItems(e.t, "w")[k] == x;
    assert ItemNames(ReadyItems(e.t, "w"))[k] == "a";
    PendingPreventsEnd(e.t, "w", 0);
  }

  lemma FirstStarts(e: Engine)
    requires TwoItems(e, Pending) && "a" in e.handed
    ensures Disciplined(e, SetItem("a", InProgress, 0)) && TwoItems(Apply(e, SetItem("a", InProgress, 0)), InProgress)
  {
    assert "a" != "b";
  }

  lemma FirstFails(e: Engine)
    requires TwoItems(e, InProgress)
    ensures var e' := Apply(e, Receive(REPORT, 0));
      && Disciplined(e, Receive(REPORT, 0)) && FailedRow(e'.t.items, "a") && Waiting(e', 1, "w")
      && e'.t.items[1] == B && e'.t.workflows["w"].status == Running
  {
    assert "a" != "b";
    assert ReceiptInsertable(e.t, REPORT);
    assert Apply(e, Receive(REPORT, 0)).t.items[0].id == "a";
  }

  lemma RunNext(e: Engine, calls: seq<Call>, n: nat)
    requires n < |calls|
    ensures Run(e, calls[..n + 1]) == Apply(Run(e, calls[..n]), calls[n])
  {
    assert calls[..n + 1][..n] == calls[..n];
  }

  /** A disciplined run that leads to the situation: the second item waits behind the failed first one. */
  lemma FailingRun()
    ensures DisciplinedRun(EMPTY, FAILING)
    ensures var e := Run(EMPTY, FAILING);
      && Inv(e) && FailedRow(e.t.items, "a") && Waiting(e, 1, "w") && "a" in e.t.items[1].dependsOn
      && e.t.workflows["w"].status == Running
  {
    var calls := FAILING;
    assert calls[..0] == [] && calls[..5] == calls;
    RunNext(EMPTY, calls, 0);
    RunNext(EMPTY, calls, 1);
    RunNext(EMPTY, calls, 2);
    RunNext(EMPTY, calls, 3);
    RunNext(EMPTY, calls, 4);
    WorkflowStarts(Run(EMPTY, calls[..1]));
    FirstIsHandedOut(Run(EMPTY, calls[..2]));
    FirstStarts(Run(EMPTY, calls[..3]));
    FirstFails(Run(EMPTY, calls[..4]));
    assert B.dependsOn[0] == "a";
    forall k | 0 <= k < |calls| ensures Disciplined(Run(EMPTY, calls[..k]), calls[k]) {
      assert k == 0 || k == 1 || k == 2 || k == 3 || k == 4;
    }
    RunIsSafe(EMPTY, calls);
  }
}
