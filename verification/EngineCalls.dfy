/** What each call of the cooperative engine does, in terms of the rows of the ledger. */
module EngineCalls {
  import opened Common
  import opened Ledger
  import opened CooperativeWorkflow

  // ----- inserting items

  /** The items as they are stored: under the workflow they are inserted for. */
  ghost predicate StoredUnder(rows: seq<WorkItem>, wf: string, items: seq<WorkItem>) {
    |rows| == |items| && forall i :: 0 <= i < |rows| ==> rows[i] == items[i].(workflowId := wf)
  }

  /** The table refuses the item: its id is taken, there is no such workflow, or its priority is out of bounds. */
  ghost predicate Refuses(t: Tables, wf: string, item: WorkItem) {
    (exists i :: 0 <= i < |t.items| && t.items[i].id == item.id) || wf !in t.workflows || !(1 <= item.priority <= 10)
  }

  /** The first `k` items are stored, behind the rows that were there; the next one, if any, is refused. */
  lemma {:induction false} InsertAllHolds(t: Tables, wf: string, items: seq<WorkItem>) returns (k: nat)
    ensures k <= |items|
    ensures var r := InsertAll(t, wf, items);
      && r.t == t.(items := r.t.items) && |r.t.items| == |t.items| + k && r.t.items[..|t.items|] == t.items
      && StoredUnder(r.t.items[|t.items|..], wf, items[..k])
      && (r.ok <==> k == |items|) && (k < |items| ==> Refuses(r.t, wf, items[k]))
    decreases |items|
  {
    k := 0;
    if items != [] {
      var item := items[0].(workflowId := wf);
      InsertIsExact(t, item);
      if Insertable(t, item) {
        var rest := InsertAllHolds(InsertItem(t, item), wf, items[1..]);
        OneMore(t.items, item, InsertAll(InsertItem(t, item), wf, items[1..]).t.items, wf, items, rest);
        k := rest + 1;
      }
    }
  }

  lemma OneMore(rows: seq<WorkItem>, item: WorkItem, all: seq<WorkItem>, wf: string, items: seq<WorkItem>, rest: nat)
    requires items != [] && rest < |items| && item == items[0].(workflowId := wf)
    requires |all| == |rows| + 1 + rest && all[..|rows| + 1] == rows + [item]
    requires StoredUnder(all[|rows| + 1..], wf, items[1..][..rest])
    ensures all[..|rows|] == rows && StoredUnder(all[|rows|..], wf, items[..rest + 1])
  {
    assert all[..|rows|] == all[..|rows| + 1][..|rows|];
    assert all[|rows|] == all[..|rows| + 1][|rows|];
    assert forall i :: 1 <= i < rest + 1 ==>
      all[|rows|..][i] == all[|rows| + 1..][i - 1] && items[i] == items[1..][..rest][i - 1];
  }

  /** Starting stores the items and moves the workflow to RUNNING. Its loop starts exactly if all items
      were stored and the workflow was created, suspended or failed before. */
  lemma StartHolds(e: Engine, wf: string, items: seq<WorkItem>, now: int)
    ensures var stored, e' := InsertAll(e.t, wf, items), StartWorkflow(e, wf, items, now);
      var starts := stored.ok && wf in e.t.workflows && e.t.workflows[wf].status in {Created, Suspended, Failed};
      && e'.t.items == stored.t.items && e'.t.receipts == e.t.receipts && e'.t.interrupts == e.t.interrupts
      && e'.handed == e.handed && e'.active == (if starts then e.active + {wf} else e.active)
      && e'.t.workflows == if starts
           then e.t.workflows[wf := e.t.workflows[wf].(status := Running, updatedAt := now)] else e.t.workflows
  {
    var k := InsertAllHolds(e.t, wf, items);
    MoveIsExact(InsertAll(e.t, wf, items).t, wf, Running, now, None, None);
  }

  lemma AddItemsHolds(e: Engine, wf: string, items: seq<WorkItem>)
    ensures AddWorkItems(e, wf, items) == e.(t := InsertAll(e.t, wf, items).t)
  {
  }

  // ----- receipts, interrupts, cancellation

  /** A new receipt is kept. A success completes its target with the summary as result, a failure fails
      it with the error detail; a partial outcome or a timeout leaves the items alone. */
  lemma ReceiptHolds(e: Engine, r: Receipt, now: int, i: nat)
    requires i < |e.t.items|
    ensures var e' := SubmitReceipt(e, r, now);
      var accepted := r.workflowId in e.t.workflows && forall i :: 0 <= i < |e.t.receipts| ==>
        e.t.receipts[i].id != r.id;
      && (!accepted ==> e' == e)
      && (accepted ==> e' == e.(t := e.t.(receipts := e.t.receipts + [r], items := e'.t.items)))
      && |e'.t.items| == |e.t.items|
      && var x, y := e.t.items[i], e'.t.items[i];
         if accepted && x.id == r.target && r.outcome == Outcome.Success then
           y == x.(status := ItemCompleted, result := Some(r.summary), completedAt := Some(now))
         else if accepted && x.id == r.target && r.outcome == Outcome.Failure then
           y == x.(status := ItemFailed, error := if r.errorDetail.Some? then r.errorDetail else x.error,
                   completedAt := Some(now))
         else y == x
  {
  }

  /** A new interrupt is kept, open; a storm also suspends its workflow, if that is running. */
  lemma InterruptHolds(t: Tables, x: Interrupt, now: int)
    ensures var t' := RaiseInterrupt(t, x, now);
      var accepted := x.workflowId in t.workflows && forall i :: 0 <= i < |t.interrupts| ==> t.interrupts[i].id != x.id;
      var suspends := accepted && x.kind == StormDetected && t.workflows[x.workflowId].status == Running;
      && t'.items == t.items && t'.receipts == t.receipts
      && t'.interrupts == (if accepted then t.interrupts + [x.(resolution := None)] else t.interrupts)
      && t'.workflows == if suspends
           then t.workflows[x.workflowId := t.workflows[x.workflowId].(status := Suspended, updatedAt := now)]
           else t.workflows
  {
  }

  /** Cancelling drops the loop in any case; a workflow that has not ended ends as cancelled. */
  lemma CancelHolds(e: Engine, wf: string, now: int)
    ensures var e' := CancelWorkflow(e, wf, now);
      var ends := wf in e.t.workflows && e.t.workflows[wf].status in {Created, Running, Suspended};
      && e'.active == e.active - {wf} && e'.handed == e.handed
      && e'.t == if ends
           then e.t.(workflows := e.t.workflows[wf := e.t.workflows[wf].(
                  status := Cancelled, updatedAt := now, completedAt := Some(now))])
           else e.t
  {
  }

  // ----- one turn of the dispatch loop

  /** Nothing of the workflow is left to do: some item is not blocked, and each one is blocked, completed,
      failed or skipped. */
  ghost predicate NothingLeft(rows: seq<WorkItem>, wf: string) {
    && (exists i :: 0 <= i < |rows| && rows[i].workflowId == wf && rows[i].status != Blocked)
    && (forall i :: 0 <= i < |rows| && rows[i].workflowId == wf ==>
          rows[i].status in {Blocked, ItemCompleted, ItemFailed, Skipped})
  }

  lemma FinishedMeans(t: Tables, wf: string)
    ensures AllResolved(ItemsOf(t, wf)) <==> NothingLeft(t.items, wf)
  {
    var own := ItemsOf(t, wf);
    forall i | 0 <= i < |t.items| ensures t.items[i].workflowId == wf <==> t.items[i] in own {
      ItemsOfHold(t, wf, t.items[i]);
    }
    forall k | 0 <= k < |own| ensures own[k] in t.items && own[k].workflowId == wf {
      assert own[k] in own;
      ItemsOfHold(t, wf, own[k]);
    }
  }

  /** A turn hands out the ready items. If nothing is left to do it ends the loop, and a running workflow
      ends as completed, with the synthesis of its items; otherwise the loop goes on, and nothing completes. */
  lemma DispatchHolds(e: Engine, wf: string, alarms: seq<Interrupt>, now: int)
    requires wf in e.t.workflows
    ensures var e' := DispatchPass(e, wf, alarms, now);
      && e'.t.items == e.t.items && e'.t.receipts == e.t.receipts
      && |e'.handed| == |e.handed| + |ReadyItems(e.t, wf)| && e'.handed[..|e.handed|] == e.handed
      && (forall k :: 0 <= k < |ReadyItems(e.t, wf)| ==> e'.handed[|e.handed| + k] == ReadyItems(e.t, wf)[k].id)
    ensures var e' := DispatchPass(e, wf, alarms, now);
      var before := e.t.workflows[wf];
      && (NothingLeft(e.t.items, wf) ==> e'.active == e.active - {wf} && e'.t.interrupts == e.t.interrupts)
      && (NothingLeft(e.t.items, wf) && before.status == Running ==>
            e'.t.workflows == e.t.workflows[wf := before.(
              status := Completed, updatedAt := now, completedAt := Some(now),
              finalSynthesis := Some(Synthesis(ItemsOf(e.t, wf))))])
      && (NothingLeft(e.t.items, wf) && before.status != Running ==> e'.t.workflows == e.t.workflows)
      && (!NothingLeft(e.t.items, wf) ==>
            e'.active == e.active && e'.t == RaiseAll(e.t, alarms, now) && wf in e'.t.workflows &&
            (e'.t.workflows[wf].status == before.status ||
             (before.status == Running && e'.t.workflows[wf].status == Suspended)))
  {
    FinishedMeans(e.t, wf);
    MoveIsExact(e.t, wf, Completed, now, None, Some(Synthesis(ItemsOf(e.t, wf))));
    AlarmsKeepItems(e.t, alarms, now, wf);
  }

  lemma {:induction false} AlarmsKeepItems(t: Tables, xs: seq<Interrupt>, now: int, wf: string)
    requires wf in t.workflows
    ensures var t' := RaiseAll(t, xs, now);
      && t'.items == t.items && t'.receipts == t.receipts && wf in t'.workflows
      && (t'.workflows[wf].status == t.workflows[wf].status ||
          (t.workflows[wf].status == Running && t'.workflows[wf].status == Suspended))
  {
    if xs != [] {
      var n := |xs| - 1;
      AlarmsKeepItems(t, xs[..n], now, wf);
      InterruptHolds(RaiseAll(t, xs[..n], now), xs[n], now);
    }
  }

  /** A turn on a running workflow completes it exactly if nothing of it is left to do. */
  lemma CompletesIff(e: Engine, wf: string, alarms: seq<Interrupt>, now: int)
    requires wf in e.t.workflows && e.t.workflows[wf].status == Running
    ensures var e' := DispatchPass(e, wf, alarms, now);
      wf in e'.t.workflows && e'.t.workflows[wf].status == Completed <==>
      (exists i :: 0 <= i < |e.t.items| && e.t.items[i].workflowId == wf && e.t.items[i].status != Blocked) &&
      (forall i :: 0 <= i < |e.t.items| && e.t.items[i].workflowId == wf ==>
         e.t.items[i].status in {Blocked, ItemCompleted, ItemFailed, Skipped})
  {
    DispatchHolds(e, wf, alarms, now);
  }

  // ----- the synthesis

  /** The line of an item: its result, else its error, else none. */
  lemma LineHolds(x: WorkItem)
    ensures var text := "[" + x.description + "]: ";
      Lines([x]) ==
        if x.result.Some? && x.result.value != "" then [text + x.result.value]
        else if x.error.Some? && x.error.value != "" then [text + ("FAILED — " + x.error.value)]
        else []
  {
    assert [x][..0] == [];
    if x.error.Some? {
      assert "]: FAILED — " == "]: " + "FAILED — ";
      assert "[" + x.description + "]: FAILED — " + x.error.value ==
        "[" + x.description + "]: " + ("FAILED — " + x.error.value);
    }
  }

  /** The lines come in the order of the items. */
  lemma {:induction false} LinesAppend(a: seq<WorkItem>, b: seq<WorkItem>)
    ensures Lines(a + b) == Lines(a) + Lines(b)
  {
    if b == [] {
      assert a + b == a;
    } else {
      var n := |b| - 1;
      assert (a + b)[..|a + b| - 1] == a + b[..n];
      LinesAppend(a, b[..n]);
    }
  }

  lemma {:induction false} JoinedBy(a: seq<string>, b: seq<string>)
    requires a != [] && b != []
    ensures JoinLines(a + b) == JoinLines(a) + "\n" + JoinLines(b)
    decreases |a|
  {
    if |a| > 1 {
      JoinedBy(a[1..], b);
      assert (a + b)[1..] == a[1..] + b;
      LineBreaks(a[0], JoinLines(a[1..]), JoinLines(b));
    } else {
      assert (a + b)[1..] == b;
    }
  }

  lemma LineBreaks(x: string, y: string, z: string)
    ensures x + "\n" + (y + "\n" + z) == x + "\n" + y + "\n" + z
  {
  }

  /** Lines are joined by line breaks; without any line there is a default text. */
  lemma SynthesisHolds(a: seq<string>, b: seq<string>, items: seq<WorkItem>)
    ensures a != [] && b != [] ==> JoinLines(a + b) == JoinLines(a) + "\n" + JoinLines(b)
    ensures forall line :: JoinLines([line]) == line
    ensures Synthesis(items) == if Lines(items) == [] then "All work items resolved." else JoinLines(Lines(items))
  {
    if a != [] && b != [] {
      JoinedBy(a, b);
    }
  }
}
