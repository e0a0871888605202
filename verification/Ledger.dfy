/** The orchestration ledger: workflow rows, work items and interrupts. */
module Ledger {
  import opened Common
  import Ordering

  datatype WorkflowStatus = Created | Running | Suspended | Completed | Failed | Cancelled

  datatype Workflow = Workflow(
    id: string, status: WorkflowStatus, updatedAt: int, completedAt: Option<int>,
    finalSynthesis: Option<string>, error: Option<string>)

  datatype ItemStatus = Pending | Assigned | InProgress | Blocked | ItemCompleted | ItemFailed | Skipped

  datatype WorkItem = WorkItem(
    id: string, workflowId: string, description: string, status: ItemStatus, priority: int,
    dependsOn: seq<string>, createdAt: int, result: Option<string>, error: Option<string>,
    assignedAt: Option<int>, startedAt: Option<int>, completedAt: Option<int>)

  datatype InterruptKind = StormDetected | OtherKind

  datatype Resolution = Resumed | Escalated | Aborted

  datatype Interrupt = Interrupt(
    id: string, workflowId: string, kind: InterruptKind, createdAt: int, resolution: Option<Resolution>)

  datatype Outcome = Success | Failure | Partial | Timeout

  datatype Receipt = Receipt(id: string, workflowId: string, target: string, outcome: Outcome, summary: string,
                             errorDetail: Option<string>)

  datatype Tables = Tables(workflows: map<string, Workflow>, items: seq<WorkItem>, receipts: seq<Receipt>,
                           interrupts: seq<Interrupt>)

  // ----- workflows

  predicate ValidTransition(from: WorkflowStatus, to: WorkflowStatus) {
    match from
    case Created => to == Running || to == Cancelled
    case Running => to == Suspended || to == Completed || to == Failed || to == Cancelled
    case Suspended => to == Running || to == Cancelled
    case Completed => false
    case Failed => to == Running
    case Cancelled => false
  }

  predicate Final(s: WorkflowStatus) {
    s == Completed || s == Failed || s == Cancelled
  }

  function InsertWorkflow(t: Tables, id: string, status: WorkflowStatus, now: int): Tables {
    if id in t.workflows then t
    else t.(workflows := t.workflows[id := Workflow(id, status, now, None, None, None)])
  }

  predicate CanMove(t: Tables, id: string, to: WorkflowStatus) {
    id in t.workflows && ValidTransition(t.workflows[id].status, to)
  }

  function MoveWorkflow(t: Tables, id: string, to: WorkflowStatus, now: int, error: Option<string>,
                        synthesis: Option<string>): Tables {
    if !CanMove(t, id, to) then t
    else
      var w := t.workflows[id];
      t.(workflows := t.workflows[id := Workflow(w.id, to, now,
        if Final(to) then Some(now) else w.completedAt,
        if synthesis.Some? then synthesis else w.finalSynthesis,
        if error.Some? then error else w.error)])
  }

  /** The moves of the table; any other is refused and changes nothing. A move sets the status and the
      time of the row, the time of its end if it is one, and the synthesis and error that come with it. */
  lemma MoveIsExact(t: Tables, id: string, to: WorkflowStatus, now: int, error: Option<string>,
                    synthesis: Option<string>)
    ensures var t' := MoveWorkflow(t, id, to, now, error, synthesis);
      var allowed := id in t.workflows && (t.workflows[id].status, to) in {
        (Created, Running), (Created, Cancelled), (Running, Suspended), (Running, Completed), (Running, Failed),
        (Running, Cancelled), (Suspended, Running), (Suspended, Cancelled), (Failed, Running)};
      && (CanMove(t, id, to) <==> allowed)
      && (!allowed ==> t' == t)
      && (allowed ==>
            var w, w' := t.workflows[id], t'.workflows[id];
            && t' == t.(workflows := t.workflows[id := w'])
            && w'.id == w.id && w'.status == to && w'.updatedAt == now
            && w'.completedAt == (if to in {Completed, Failed, Cancelled} then Some(now) else w.completedAt)
            && w'.finalSynthesis == (if synthesis.Some? then synthesis else w.finalSynthesis)
            && w'.error == (if error.Some? then error else w.error))
  {
  }

  lemma CreationIsExact(t: Tables, id: string, status: WorkflowStatus, now: int)
    ensures var t' := InsertWorkflow(t, id, status, now);
      t' == if id in t.workflows then t
            else t.(workflows := t.workflows[id := Workflow(id, status, now, None, None, None)])
  {
  }

  // ----- work items

  function ItemIds(items: seq<WorkItem>): set<string> {
    set i | 0 <= i < |items| :: items[i].id
  }

  /** Key and foreign-key constraints of the table, and its bounds on the priority. */
  predicate Insertable(t: Tables, item: WorkItem) {
    item.id !in ItemIds(t.items) && item.workflowId in t.workflows && 1 <= item.priority <= 10
  }

  function InsertItem(t: Tables, item: WorkItem): Tables {
    if Insertable(t, item) then t.(items := t.items + [item]) else t
  }

  datatype Change = Change(status: Option<ItemStatus>, result: Option<string>, error: Option<string>)

  function Changed(item: WorkItem, c: Change, now: int): WorkItem {
    var s := if c.status.Some? then c.status.value else item.status;
    item.(status := s,
      result := if c.result.Some? then c.result else item.result,
      error := if c.error.Some? then c.error else item.error,
      assignedAt := if c.status == Some(Assigned) then Some(now) else item.assignedAt,
      startedAt := if c.status == Some(InProgress) then Some(now) else item.startedAt,
      completedAt := if c.status == Some(ItemCompleted) || c.status == Some(ItemFailed) || c.status == Some(Skipped)
        then Some(now) else item.completedAt)
  }

  function ChangeItem(t: Tables, id: string, c: Change, now: int): Tables {
    t.(items := seq(|t.items|, i requires 0 <= i < |t.items| =>
      if t.items[i].id == id then Changed(t.items[i], c, now) else t.items[i]))
  }

  lemma InsertIsExact(t: Tables, item: WorkItem)
    ensures var allowed := (forall i :: 0 <= i < |t.items| ==> t.items[i].id != item.id) &&
        item.workflowId in t.workflows && 1 <= item.priority <= 10;
      && (Insertable(t, item) <==> allowed)
      && InsertItem(t, item) == if allowed then t.(items := t.items + [item]) else t
  {
    assert item.id in ItemIds(t.items) <==> exists i :: 0 <= i < |t.items| && t.items[i].id == item.id;
  }

  /** A change concerns the row of that id alone. It sets what it names, and the time of assignment,
      start or end that goes with the new status; everything else stays. */
  lemma ChangeIsExact(t: Tables, id: string, c: Change, now: int, i: nat)
    requires i < |t.items|
    ensures ChangeItem(t, id, c, now) == t.(items := ChangeItem(t, id, c, now).items)
    ensures |ChangeItem(t, id, c, now).items| == |t.items|
    ensures var x, y := t.items[i], ChangeItem(t, id, c, now).items[i];
      && (x.id != id ==> y == x)
      && (x.id == id ==>
            && y.status == (if c.status.Some? then c.status.value else x.status)
            && y.result == (if c.result.Some? then c.result else x.result)
            && y.error == (if c.error.Some? then c.error else x.error)
            && y.assignedAt == (if c.status == Some(Assigned) then Some(now) else x.assignedAt)
            && y.startedAt == (if c.status == Some(InProgress) then Some(now) else x.startedAt)
            && y.completedAt == (if c.status in {Some(ItemCompleted), Some(ItemFailed), Some(Skipped)} then Some(now)
                                 else x.completedAt)
            && y == WorkItem(x.id, x.workflowId, x.description, y.status, x.priority, x.dependsOn, x.createdAt,
                             y.result, y.error, y.assignedAt, y.startedAt, y.completedAt))
  {
  }

  predicate Resolved(s: ItemStatus) {
    s == ItemCompleted || s == Skipped
  }

  /** The join over the dependencies: a name without a row constrains nothing. */
  predicate Unblocked(items: seq<WorkItem>, item: WorkItem) {
    forall k, i :: 0 <= k < |item.dependsOn| && 0 <= i < |items| && items[i].id == item.dependsOn[k] ==>
      Resolved(items[i].status)
  }

  predicate Ready(items: seq<WorkItem>, wf: string, item: WorkItem) {
    item.workflowId == wf && item.status == Pending && Unblocked(items, item)
  }

  function Select(items: seq<WorkItem>, rows: seq<WorkItem>, wf: string, readyOnly: bool): (r: seq<WorkItem>)
  {
    if rows == [] then []
    else
      var keep := rows[0].workflowId == wf && (readyOnly ==> Ready(items, wf, rows[0]));
      (if keep then [rows[0]] else []) + Select(items, rows[1..], wf, readyOnly)
  }

  /** `ORDER BY priority, created_at`. */
  function ByPriority(rows: seq<WorkItem>): (r: seq<WorkItem>)
    ensures |r| == |rows|
  {
    var order := Ordering.SortPositions(Keys(rows));
    seq(|rows|, i requires 0 <= i < |rows| => rows[order[i]])
  }

  function Keys(rows: seq<WorkItem>): (ks: seq<Ordering.Key>)
    ensures |ks| == |rows|
  {
    seq(|rows|, i requires 0 <= i < |rows| => Ordering.Key(rows[i].priority, rows[i].createdAt))
  }

  function ReadyItems(t: Tables, wf: string): seq<WorkItem> {
    ByPriority(Select(t.items, t.items, wf, true))
  }

  function ItemsOf(t: Tables, wf: string): seq<WorkItem> {
    ByPriority(Select(t.items, t.items, wf, false))
  }

  lemma {:induction false} SelectHolds(items: seq<WorkItem>, rows: seq<WorkItem>, wf: string, readyOnly: bool,
                                       x: WorkItem)
    ensures x in Select(items, rows, wf, readyOnly) <==>
      x in rows && x.workflowId == wf && (readyOnly ==> Ready(items, wf, x))
  {
    if rows != [] {
      SelectHolds(items, rows[1..], wf, readyOnly, x);
      assert rows == [rows[0]] + rows[1..];
    }
  }

  lemma ByPriorityHolds(rows: seq<WorkItem>, x: WorkItem)
    ensures x in ByPriority(rows) <==> x in rows
  {
    var order, r := Ordering.SortPositions(Keys(rows)), ByPriority(rows);
    Ordering.SortHolds(Keys(rows));
    if x in rows {
      var p: nat :| p < |rows| && rows[p] == x;
      assert p in order;
      var k :| 0 <= k < |order| && order[k] == p;
      assert r[k] == x;
    }
  }

  /** By priority, and by age among equals. */
  ghost predicate InOrder(rows: seq<WorkItem>) {
    forall i, j :: 0 <= i < j < |rows| ==>
      rows[i].priority < rows[j].priority ||
      (rows[i].priority == rows[j].priority && rows[i].createdAt <= rows[j].createdAt)
  }

  lemma ByPriorityOrdered(rows: seq<WorkItem>)
    ensures InOrder(ByPriority(rows))
  {
    var keys, r := Keys(rows), ByPriority(rows);
    var order := Ordering.SortPositions(keys);
    Ordering.SortHolds(keys);
    forall i, j | 0 <= i < j < |r|
      ensures r[i].priority < r[j].priority || (r[i].priority == r[j].priority && r[i].createdAt <= r[j].createdAt)
    {
      assert Ordering.Before(keys, order[i], order[j]);
    }
  }

  /** Exactly the pending items of the workflow whose dependencies, as far as they have rows, are
      completed or skipped are offered, by priority and then by age. */
  lemma ReadyItemsHold(t: Tables, wf: string, x: WorkItem)
    ensures x in ReadyItems(t, wf) <==>
      x in t.items && x.workflowId == wf && x.status == Pending &&
      forall i :: 0 <= i < |t.items| && t.items[i].id in x.dependsOn ==> t.items[i].status in {ItemCompleted, Skipped}
    ensures InOrder(ReadyItems(t, wf))
  {
    SelectHolds(t.items, t.items, wf, true, x);
    ByPriorityHolds(Select(t.items, t.items, wf, true), x);
    ByPriorityOrdered(Select(t.items, t.items, wf, true));
  }

  /** All items of the workflow, in the same order. */
  lemma ItemsOfHold(t: Tables, wf: string, x: WorkItem)
    ensures x in ItemsOf(t, wf) <==> x in t.items && x.workflowId == wf
    ensures InOrder(ItemsOf(t, wf))
  {
    SelectHolds(t.items, t.items, wf, false, x);
    ByPriorityHolds(Select(t.items, t.items, wf, false), x);
    ByPriorityOrdered(Select(t.items, t.items, wf, false));
  }

  // ----- receipts and interrupts

  predicate ReceiptInsertable(t: Tables, r: Receipt) {
    r.workflowId in t.workflows && forall i :: 0 <= i < |t.receipts| ==> t.receipts[i].id != r.id
  }

  function InsertReceipt(t: Tables, r: Receipt): Tables {
    if ReceiptInsertable(t, r) then t.(receipts := t.receipts + [r]) else t
  }

  predicate InterruptInsertable(t: Tables, x: Interrupt) {
    x.workflowId in t.workflows && forall i :: 0 <= i < |t.interrupts| ==> t.interrupts[i].id != x.id
  }

  function InsertInterrupt(t: Tables, x: Interrupt): Tables {
    if InterruptInsertable(t, x) then t.(interrupts := t.interrupts + [x.(resolution := None)]) else t
  }

  function Resolve(t: Tables, id: string, resolution: Resolution): Tables {
    t.(interrupts := seq(|t.interrupts|, i requires 0 <= i < |t.interrupts| =>
      if t.interrupts[i].id == id && t.interrupts[i].resolution.None?
        then t.interrupts[i].(resolution := Some(resolution))
      else t.interrupts[i]))
  }

  /** Receipts and interrupts are kept under new ids, for workflows that exist; an interrupt starts open. */
  lemma NotesAreExact(t: Tables, r: Receipt, x: Interrupt)
    ensures var known := r.workflowId in t.workflows && forall i :: 0 <= i < |t.receipts| ==> t.receipts[i].id != r.id;
      InsertReceipt(t, r) == if known then t.(receipts := t.receipts + [r]) else t
    ensures var known := x.workflowId in t.workflows && forall i :: 0 <= i < |t.interrupts| ==>
      t.interrupts[i].id != x.id;
      InsertInterrupt(t, x) == if known then t.(interrupts := t.interrupts + [x.(resolution := None)]) else t
  {
  }

  /** Resolving changes the open interrupt of that id, and keeps the first resolution of any. */
  lemma ResolveIsExact(t: Tables, id: string, resolution: Resolution, i: nat)
    requires i < |t.interrupts|
    ensures Resolve(t, id, resolution) == t.(interrupts := Resolve(t, id, resolution).interrupts)
    ensures |Resolve(t, id, resolution).interrupts| == |t.interrupts|
    ensures var x := t.interrupts[i];
      Resolve(t, id, resolution).interrupts[i] ==
        if x.id == id && x.resolution == None then x.(resolution := Some(resolution)) else x
  {
  }

  function Open(rows: seq<Interrupt>, wf: string): seq<Interrupt> {
    if rows == [] then []
    else (if rows[0].workflowId == wf && rows[0].resolution.None? then [rows[0]] else []) + Open(rows[1..], wf)
  }

  function Ages(rows: seq<Interrupt>): (ks: seq<Ordering.Key>)
    ensures |ks| == |rows|
  {
    seq(|rows|, i requires 0 <= i < |rows| => Ordering.Key(rows[i].createdAt, 0))
  }

  /** `ORDER BY created_at`. */
  function Unresolved(rows: seq<Interrupt>, wf: string): seq<Interrupt> {
    var open := Open(rows, wf);
    var order := Ordering.SortPositions(Ages(open));
    seq(|open|, i requires 0 <= i < |open| => open[order[i]])
  }

  lemma {:induction false} OpenHolds(rows: seq<Interrupt>, wf: string, x: Interrupt)
    ensures x in Open(rows, wf) <==> x in rows && x.workflowId == wf && x.resolution.None?
  {
    if rows != [] {
      OpenHolds(rows[1..], wf, x);
      assert rows == [rows[0]] + rows[1..];
    }
  }

  /** Exactly the open interrupts of the workflow are listed, oldest first. */
  lemma UnresolvedHold(rows: seq<Interrupt>, wf: string, x: Interrupt)
    ensures x in Unresolved(rows, wf) <==> x in rows && x.workflowId == wf && x.resolution.None?
    ensures forall i, j :: 0 <= i < j < |Unresolved(rows, wf)| ==>
      Unresolved(rows, wf)[i].createdAt <= Unresolved(rows, wf)[j].createdAt
  {
    var open, r := Open(rows, wf), Unresolved(rows, wf);
    var keys := Ages(open);
    var order := Ordering.SortPositions(keys);
    Ordering.SortHolds(keys);
    OpenHolds(rows, wf, x);
    if x in open {
      var p: nat :| p < |open| && open[p] == x;
      assert p in order;
      var k :| 0 <= k < |order| && order[k] == p;
      assert r[k] == x;
    }
    forall i, j | 0 <= i < j < |r| ensures r[i].createdAt <= r[j].createdAt {
      assert Ordering.Before(keys, order[i], order[j]);
    }
  }

  /** Resolving an interrupt takes it, and nothing else, off the list. */
  lemma ResolvedIsGone(t: Tables, id: string, resolution: Resolution, wf: string, x: Interrupt)
    ensures x in Unresolved(Resolve(t, id, resolution).interrupts, wf) <==>
      x in Unresolved(t.interrupts, wf) && x.id != id
  {
    var rows, rows' := t.interrupts, Resolve(t, id, resolution).interrupts;
    UnresolvedHold(rows, wf, x);
    UnresolvedHold(rows', wf, x);
    if x in rows && x.id != id {
      var i :| 0 <= i < |rows| && rows[i] == x;
      assert rows'[i] == x;
    }
  }

  /** The persistent store; each method is one statement or one guarded pair of statements. */
  class Store {
    var workflows: map<string, Workflow>
    var items: seq<WorkItem>
    var receipts: seq<Receipt>
    var interrupts: seq<Interrupt>

    constructor ()
      ensures Rows() == Tables(map[], [], [], [])
    {
      workflows, items, receipts, interrupts := map[], [], [], [];
    }

    ghost function Rows(): Tables
      reads this
    {
      Tables(workflows, items, receipts, interrupts)
    }

    method CreateWorkflow(id: string, status: WorkflowStatus, now: int)
      modifies this
      ensures Rows() == InsertWorkflow(old(Rows()), id, status, now)
    {
      if id !in workflows {
        workflows := workflows[id := Workflow(id, status, now, None, None, None)];
      }
    }

    method UpdateWorkflowStatus(id: string, to: WorkflowStatus, now: int, error: Option<string>,
                                synthesis: Option<string>)
      returns (updated: bool)
      modifies this
      ensures updated == CanMove(old(Rows()), id, to)
      ensures Rows() == MoveWorkflow(old(Rows()), id, to, now, error, synthesis)
    {
      if id !in workflows {
        return false;
      }
      var row := workflows[id];
      if !ValidTransition(row.status, to) {
        return false;
      }
      row := row.(status := to, updatedAt := now);
      if error.Some? {
        row := row.(error := error);
      }
      if synthesis.Some? {
        row := row.(finalSynthesis := synthesis);
      }
      if Final(to) {
        row := row.(completedAt := Some(now));
      }
      workflows := workflows[id := row];
      return true;
    }

    /** Raises (`ok == false`) when a constraint of the table is violated. */
    method CreateWorkItem(item: WorkItem) returns (ok: bool)
      modifies this
      ensures ok == Insertable(old(Rows()), item) && Rows() == InsertItem(old(Rows()), item)
    {
      ok := item.id !in ItemIds(items) && item.workflowId in workflows && 1 <= item.priority <= 10;
      if ok {
        items := items + [item];
      }
    }

    method UpdateWorkItem(id: string, c: Change, now: int) returns (updated: bool)
      modifies this
      ensures updated == (c != Change(None, None, None) && id in ItemIds(old(items)))
      ensures Rows() == if c == Change(None, None, None) then old(Rows()) else ChangeItem(old(Rows()), id, c, now)
    {
      if c == Change(None, None, None) {
        return false;
      }
      updated := id in ItemIds(items);
      var rows := items;
      items := seq(|rows|, i requires 0 <= i < |rows| =>
        if rows[i].id == id then Changed(rows[i], c, now) else rows[i]);
    }

    method GetPendingWorkItems(wf: string) returns (r: seq<WorkItem>)
      ensures r == ReadyItems(Rows(), wf)
    {
      r := ByPriority(Select(items, items, wf, true));
    }

    method GetWorkItems(wf: string) returns (r: seq<WorkItem>)
      ensures r == ItemsOf(Rows(), wf)
    {
      r := ByPriority(Select(items, items, wf, false));
    }

    method AddReceipt(r: Receipt) returns (ok: bool)
      modifies this
      ensures ok == ReceiptInsertable(old(Rows()), r) && Rows() == InsertReceipt(old(Rows()), r)
    {
      ok := r.workflowId in workflows && forall i :: 0 <= i < |receipts| ==> receipts[i].id != r.id;
      if ok {
        receipts := receipts + [r];
      }
    }

    method AddInterrupt(x: Interrupt) returns (ok: bool)
      modifies this
      ensures ok == InterruptInsertable(old(Rows()), x) && Rows() == InsertInterrupt(old(Rows()), x)
    {
      ok := x.workflowId in workflows && forall i :: 0 <= i < |interrupts| ==> interrupts[i].id != x.id;
      if ok {
        interrupts := interrupts + [x.(resolution := None)];
      }
    }

    method ResolveInterrupt(id: string, resolution: Resolution) returns (updated: bool)
      modifies this
      ensures Rows() == Resolve(old(Rows()), id, resolution)
      ensures updated == exists i :: 0 <= i < |old(interrupts)| && old(interrupts)[i].id == id &&
                                     old(interrupts)[i].resolution.None?
    {
      var rows := interrupts;
      updated := exists i :: 0 <= i < |rows| && rows[i].id == id && rows[i].resolution.None?;
      interrupts := seq(|rows|, i requires 0 <= i < |rows| =>
        if rows[i].id == id && rows[i].resolution.None? then rows[i].(resolution := Some(resolution)) else rows[i]);
    }

    method GetUnresolvedInterrupts(wf: string) returns (r: seq<Interrupt>)
      ensures r == Unresolved(interrupts, wf)
      ensures forall x :: x in r <==> x in interrupts && x.workflowId == wf && x.resolution.None?
      ensures forall i, j :: 0 <= i < j < |r| ==> r[i].createdAt <= r[j].createdAt
    {
      forall x
        ensures x in Unresolved(interrupts, wf) <==> x in interrupts && x.workflowId == wf && x.resolution.None?
      {
        UnresolvedHold(interrupts, wf, x);
      }
      r := Unresolved(interrupts, wf);
      if r != [] {
        UnresolvedHold(interrupts, wf, r[0]);
      }
    }
  }
}
