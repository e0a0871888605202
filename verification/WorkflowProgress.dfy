/** When a workflow can go on, and what stands behind a dispatch pass that finds nothing ready. */
module WorkflowProgress {
  import opened Ledger
  import opened WorkflowRuns
  import opened Graphs

  // ----- nothing is ready

  /** `x` depends on `d`, which has a row that is neither completed nor skipped. */
  ghost predicate WaitsFor(items: seq<WorkItem>, x: string, d: string) {
    exists i, j :: 0 <= i < |items| && 0 <= j < |items| && items[i].id == x && items[j].id == d &&
      d in items[i].dependsOn && !Resolved(items[j].status)
  }

  ghost function Unmet(items: seq<WorkItem>, x: string): set<string> {
    set d | d in ItemIds(items) && WaitsFor(items, x, d)
  }

  ghost function UnmetGraph(items: seq<WorkItem>): Graph {
    map x | x in ItemIds(items) :: Unmet(items, x)
  }

  predicate InHands(s: ItemStatus) {
    s == Assigned || s == InProgress || s == Blocked || s == ItemFailed
  }

  function Unfinished(items: seq<WorkItem>, wf: string): set<string> {
    set i | 0 <= i < |items| && items[i].workflowId == wf && !Resolved(items[i].status) :: items[i].id
  }

  /** The items that only a worker, the driver or a retry can move on. */
  function Held(items: seq<WorkItem>, wf: string): set<string> {
    set i | 0 <= i < |items| && items[i].workflowId == wf && InHands(items[i].status) :: items[i].id
  }

  /** Dependencies stay inside the workflow. */
  ghost predicate Closed(items: seq<WorkItem>, wf: string) {
    forall i, j :: 0 <= i < |items| && 0 <= j < |items| && items[i].workflowId == wf &&
      items[j].id in items[i].dependsOn
      ==> items[j].workflowId == wf
  }

  lemma PendingWaits(items: seq<WorkItem>, wf: string, i: nat)
    requires Closed(items, wf) && i < |items|
    requires items[i].workflowId == wf && items[i].status == Pending && !Ready(items, wf, items[i])
    ensures Continues(UnmetGraph(items), Unfinished(items, wf), items[i].id)
  {
    var k, j :| 0 <= k < |items[i].dependsOn| && 0 <= j < |items| && items[j].id == items[i].dependsOn[k] &&
      !Resolved(items[j].status);
    assert items[j].id in items[i].dependsOn && items[j].workflowId == wf;
    assert WaitsFor(items, items[i].id, items[j].id);
    assert items[j].id in UnmetGraph(items)[items[i].id] && items[j].id in Unfinished(items, wf);
  }

  lemma NothingReady(t: Tables, wf: string, i: nat)
    requires ReadyItems(t, wf) == [] && i < |t.items|
    ensures !Ready(t.items, wf, t.items[i])
  {
    ReadyItemsHold(t, wf, t.items[i]);
  }

  lemma StuckHasNoDeadEnd(t: Tables, wf: string)
    requires Closed(t.items, wf) && ReadyItems(t, wf) == []
    ensures NoDeadEnd(UnmetGraph(t.items), Unfinished(t.items, wf), Held(t.items, wf))
  {
    forall x | x in Unfinished(t.items, wf) && x !in Held(t.items, wf)
      ensures Continues(UnmetGraph(t.items), Unfinished(t.items, wf), x)
    {
      var i: nat :| i < |t.items| && t.items[i].workflowId == wf && !Resolved(t.items[i].status) && t.items[i].id == x;
      assert InHands(t.items[i].status) ==> x in Held(t.items, wf);
      NothingReady(t, wf, i);
      PendingWaits(t.items, wf, i);
    }
  }

  /** When a pass hands out nothing, following unmet dependencies from any pending item reaches an
      item in somebody's hands, or goes round a cycle. */
  lemma StuckLeadsOut(t: Tables, wf: string, i: nat) returns (p: seq<string>)
    requires Closed(t.items, wf) && ReadyItems(t, wf) == []
    requires i < |t.items| && t.items[i].workflowId == wf && t.items[i].status == Pending
    ensures Escapes(UnmetGraph(t.items), Unfinished(t.items, wf), Held(t.items, wf), t.items[i].id, p)
  {
    StuckHasNoDeadEnd(t, wf);
    assert t.items[i].id in Unfinished(t.items, wf);
    p := WalkEscapes(UnmetGraph(t.items), Unfinished(t.items, wf), Held(t.items, wf), [t.items[i].id]);
  }

  lemma EscapeIsCycle(g: Graph, nodes: set<string>, start: string, p: seq<string>)
    requires Escapes(g, nodes, {}, start, p)
    ensures !Acyclic(g)
  {
    var k :| 0 <= k < |p| && IsCycle(g, p[k..]);
  }

  /** Without cycles and with nothing in hand, a workflow with a pending item has a ready one. */
  lemma AcyclicProgresses(t: Tables, wf: string, i: nat)
    requires Closed(t.items, wf) && Acyclic(UnmetGraph(t.items)) && Held(t.items, wf) == {}
    requires i < |t.items| && t.items[i].workflowId == wf && t.items[i].status == Pending
    ensures ReadyItems(t, wf) != []
  {
    if ReadyItems(t, wf) == [] {
      var p := StuckLeadsOut(t, wf, i);
      EscapeIsCycle(UnmetGraph(t.items), Unfinished(t.items, wf), t.items[i].id, p);
    }
  }

  // ----- dependencies without a row

  /** The readiness query tests the dependencies that have a row, and only those. */
  lemma UnblockedOrUnknown(items: seq<WorkItem>, x: WorkItem)
    requires UniqueIds(items)
    ensures Met(items, x.dependsOn) <==>
      Unblocked(items, x) && forall k :: 0 <= k < |x.dependsOn| ==> HasRow(items, x.dependsOn[k])
  {
    if Met(items, x.dependsOn) {
      forall k, i | 0 <= k < |x.dependsOn| && 0 <= i < |items| && items[i].id == x.dependsOn[k]
        ensures Resolved(items[i].status)
      {
        assert ResolvedId(items, x.dependsOn[k]);
      }
      forall k | 0 <= k < |x.dependsOn| ensures HasRow(items, x.dependsOn[k]) {
        assert ResolvedId(items, x.dependsOn[k]);
      }
    } else {
      var k :| 0 <= k < |x.dependsOn| && !ResolvedId(items, x.dependsOn[k]);
      assert !HasRow(items, x.dependsOn[k]) ||
        exists i :: 0 <= i < |items| && items[i].id == x.dependsOn[k] && !Resolved(items[i].status);
    }
  }
}
