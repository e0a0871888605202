/** A run in which an unknown dependency counts as satisfied. */
module UnknownDependency {
  import opened Common
  import opened Ledger
  import opened CooperativeWorkflow
  import opened WorkflowRuns

  function Plain(id: string, dependsOn: seq<string>, status: ItemStatus): WorkItem {
    WorkItem(id, "w", "", status, 5, dependsOn, 0, None, None, None, None, None)
  }

  function Setup(handed: seq<string>): Engine {
    var w := Workflow("w", Running, 0, None, None, None);
    Engine(Tables(map["w" := w], [Plain("a", ["b"], Pending)], [], []), {"w"}, handed)
  }

  /** An item whose dependency has no row yet is handed out and started; once the dependency is
      added, a started item waits for it. */
  lemma UnknownDependencyStarts()
    ensures Safe(Setup([]).t.items)
    ensures Apply(Setup([]), Dispatch("w", [], 0)) == Setup(["a"])
    ensures Disciplined(Setup(["a"]), SetItem("a", InProgress, 0))
    ensures StartedTooEarly(Apply(Apply(Setup(["a"]), SetItem("a", InProgress, 0)),
      AddItems("w", [Plain("b", [], Pending)])))
  {
    var e := Setup([]);
    var a := e.t.items[0];
    assert Ready(e.t.items, "w", a);
    assert Select(e.t.items, e.t.items[1..], "w", true) == [];
    assert Select(e.t.items, e.t.items, "w", true) == [a];
    assert ReadyItems(e.t, "w") == [a];
    assert a.status == Pending;
    ItemsOfHold(e.t, "w", a);
    assert !AllResolved(ItemsOf(e.t, "w")) by {
      var k :| 0 <= k < |ItemsOf(e.t, "w")| && ItemsOf(e.t, "w")[k] == a;
    }
    var e1 := Apply(e, Dispatch("w", [], 0));
    assert e1.t == e.t && e1.handed == [] + ItemNames([a]) == ["a"];
    assert e1 == Setup(["a"]);
    assert e1.handed[0] == "a";
    UnknownTail(e1);
  }

  /** Item "a" is in progress, although it depends on "b", which is not done. */
  ghost predicate StartedTooEarly(e: Engine) {
    |e.t.items| == 2 && e.t.items[0].id == "a" && e.t.items[0].status == InProgress && !Safe(e.t.items)
  }

  lemma UnknownTail(e1: Engine)
    requires e1 == Setup(["a"])
    ensures StartedTooEarly(Apply(Apply(e1, SetItem("a", InProgress, 0)), AddItems("w", [Plain("b", [], Pending)])))
  {
    var e2 := Apply(e1, SetItem("a", InProgress, 0));
    var b := Plain("b", [], Pending);
    assert b.(workflowId := "w") == b;
    assert Insertable(e2.t, b);
    var e3 := Apply(e2, AddItems("w", [b]));
    assert InsertAll(InsertItem(e2.t, b), "w", [b][1..]) == Inserted(InsertItem(e2.t, b), true);
    assert e3.t.items == e2.t.items + [b];
    assert e3.t.items[0].dependsOn == ["b"];
    assert !ResolvedId(e3.t.items, e3.t.items[0].dependsOn[0]);
  }
}
