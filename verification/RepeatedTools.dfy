/** What a repeated tool name does to the dependency sort: plans it accepts and should not. */
module RepeatedTools {
  import opened Common
  import opened TopologicalSort
  import Graphs

  // ----- evaluating a plan

  lemma {:induction false} EdgesSnoc(steps: seq<Step>, s: Step)
    ensures Edges(steps + [s]) == Edges(steps) + StepEdges(s)
  {
    assert (steps + [s])[..|steps|] == steps;
  }

  lemma {:induction false} RootsSnoc(names: seq<string>, t: string, es: seq<Edge>)
    ensures Roots(names + [t], es) == Roots(names, es) + if InDegree(es, t) == 0 then [t] else []
  {
    assert (names + [t])[..|names|] == names;
  }

  lemma {:induction false} StartIs(steps: seq<Step>, counts: map<string, int>, roots: seq<string>)
    requires counts.Keys == Elements(Tools(steps))
    requires forall t :: t in counts ==> counts[t] == InDegree(Edges(steps), t)
    requires roots == Roots(Tools(steps), Edges(steps))
    ensures StartState(steps) == State(counts, roots, [])
  {
  }

  /** One turn that releases `c` alone. */
  lemma DrainNext(es: seq<Edge>, st: State, next: State, c: string, n: nat)
    requires st.queue != [] && n > 0 && Dependents(es, st.queue[0]) == [c]
    requires next == ReleaseOne(PopFront(st), c)
    ensures DrainAll(es, st, n) == DrainAll(es, next, n - 1)
  {
    assert [c][1..] == [];
    assert ReleaseEach(next, []) == next;
    assert Turn(es, st) == next;
  }

  /** One turn that releases nothing. */
  lemma DrainIdle(es: seq<Edge>, st: State, n: nat)
    requires st.queue != [] && n > 0 && Dependents(es, st.queue[0]) == []
    ensures DrainAll(es, st, n) == DrainAll(es, PopFront(st), n - 1)
  {
  }

  // ----- a step that waits for itself

  /** Two steps of one name, and a step that depends on that name and on itself. */
  function Loop(a: string, b: string): seq<Step> {
    [Step("x", a, []), Step("y", a, []), Step("z", b, [a, b])]
  }

  lemma LoopEdges(a: string, b: string)
    ensures Edges(Loop(a, b)) == [Edge(a, b)] + [Edge(b, b)]
  {
    var x, y, z := Step("x", a, []), Step("y", a, []), Step("z", b, [a, b]);
    assert Edges([x, y]) == [] by {
      EdgesSnoc([], x);
      EdgesSnoc([x], y);
      assert [x] == [] + [x] && [x, y] == [x] + [y];
    }
    EdgesSnoc([x, y], z);
    assert Loop(a, b) == [x, y] + [z];
    assert StepEdges(z) == [Edge(a, b)] + [Edge(b, b)];
  }

  lemma {:induction false} LoopTables(a: string, b: string)
    requires a != b
    ensures var es := Edges(Loop(a, b));
      && InDegree(es, a) == 0 && InDegree(es, b) == 2
      && Dependents(es, a) == [b] && Dependents(es, b) == [b]
  {
    LoopEdges(a, b);
    TallyOne([], Edge(a, b));
    TallyOne([] + [Edge(a, b)], Edge(b, b));
    assert [] + [Edge(a, b)] == [Edge(a, b)];
  }

  lemma {:induction false} LoopRoots(a: string, b: string, es: seq<Edge>)
    requires InDegree(es, a) == 0 && InDegree(es, b) == 2
    ensures Roots([a, a, b], es) == [a, a]
  {
    RootsSnoc([], a, es);
    RootsSnoc([a], a, es);
    RootsSnoc([a, a], b, es);
    assert [a] == [] + [a] && [a, a] == [a] + [a] && [a, a, b] == [a, a] + [b];
  }

  lemma LoopStart(a: string, b: string)
    requires a != b
    ensures StartState(Loop(a, b)) == State(map[a := 0, b := 2], [a, a], [])
  {
    var es, names := Edges(Loop(a, b)), Tools(Loop(a, b));
    LoopTables(a, b);
    LoopRoots(a, b, es);
    assert names == [a, a, b];
    assert names[0] == a && names[2] == b;
  }

  lemma LoopSorted(a: string, b: string)
    requires a != b
    ensures SortedNames(Loop(a, b)) == [a, a, b]
  {
    var es := Edges(Loop(a, b));
    LoopTables(a, b);
    LoopStart(a, b);
    var s0, s1 := State(map[a := 0, b := 2], [a, a], []), State(map[a := 0, b := 1], [a], [a]);
    var s2, s3 := State(map[a := 0, b := 0], [b], [a, a]), State(map[a := 0, b := -1], [], [a, a, b]);
    DrainNext(es, s0, s1, b, 3);
    DrainNext(es, s1, s2, b, 2);
    DrainNext(es, s2, s3, b, 1);
  }

  /** A plan with a step that depends on itself is sorted: its other dependency is paid for twice. */
  lemma CyclicPlanIsSorted(a: string, b: string)
    requires a != b
    ensures var steps := Loop(a, b);
      && KnownDependencies(steps) && !Graphs.Acyclic(DependencyGraph(steps))
      && !RepeatedDependent(steps) && !(exists left :: Starved(steps, left))
      && SortedNames(steps) == [a, a, b]
  {
    var steps := Loop(a, b);
    LoopSorted(a, b);
    assert Tools(steps)[0] == a && Tools(steps)[2] == b;
    assert steps[2].dependsOn[0] == a && steps[2].dependsOn[1] == b;
    assert Graphs.IsCycle(DependencyGraph(steps), [b]);
    Verdict(steps);
  }

  // ----- a step before its dependency

  /** Two steps of one name `a`; `b` depends on `a` and on `c`, and `c` on `d`. */
  function Early(a: string, b: string, c: string, d: string): seq<Step> {
    [Step("x", a, []), Step("y", a, []), Step("x", d, []), Step("x", c, [d]), Step("x", b, [a, c])]
  }

  lemma EarlyEdges(a: string, b: string, c: string, d: string)
    ensures Edges(Early(a, b, c, d)) == [Edge(d, c)] + [Edge(a, b)] + [Edge(c, b)]
  {
    var p, q, r, s, t := Step("x", a, []), Step("y", a, []), Step("x", d, []), Step("x", c, [d]), Step("x", b, [a, c]);
    assert Edges([p, q]) == [] by {
      EdgesSnoc([], p);
      EdgesSnoc([p], q);
      assert [p] == [] + [p] && [p, q] == [p] + [q];
    }
    assert Edges([p, q, r, s]) == [Edge(d, c)] by {
      EdgesSnoc([p, q], r);
      EdgesSnoc([p, q, r], s);
      assert [p, q, r] == [p, q] + [r] && [p, q, r, s] == [p, q, r] + [s];
      assert StepEdges(s) == [Edge(d, c)];
    }
    EdgesSnoc([p, q, r, s], t);
    assert Early(a, b, c, d) == [p, q, r, s] + [t];
    assert StepEdges(t) == [Edge(a, b)] + [Edge(c, b)];
  }

  lemma {:induction false} EarlyTables(a: string, b: string, c: string, d: string)
    requires Distinct([a, b, c, d])
    ensures var es := Edges(Early(a, b, c, d));
      && InDegree(es, a) == 0 && InDegree(es, b) == 2 && InDegree(es, c) == 1 && InDegree(es, d) == 0
      && Dependents(es, a) == [b] && Dependents(es, b) == [] && Dependents(es, c) == [b] && Dependents(es, d) == [c]
  {
    EarlyEdges(a, b, c, d);
    Different(a, b, c, d);
    TallyOne([], Edge(d, c));
    TallyOne([] + [Edge(d, c)], Edge(a, b));
    TallyOne([] + [Edge(d, c)] + [Edge(a, b)], Edge(c, b));
    assert [] + [Edge(d, c)] == [Edge(d, c)];
  }

  lemma Different(a: string, b: string, c: string, d: string)
    requires Distinct([a, b, c, d])
    ensures a != b && a != c && a != d && b != c && b != d && c != d
  {
    var s := [a, b, c, d];
    assert s[0] == a && s[1] == b && s[2] == c && s[3] == d;
  }

  lemma EarlyStart(a: string, b: string, c: string, d: string)
    requires Distinct([a, b, c, d])
    ensures StartState(Early(a, b, c, d)) == State(map[a := 0, b := 2, c := 1, d := 0], [a, a, d], [])
  {
    EarlyTables(a, b, c, d);
    EarlyRoots(a, b, c, d, Edges(Early(a, b, c, d)));
    EarlyNames(a, b, c, d);
    Different(a, b, c, d);
    StartIs(Early(a, b, c, d), map[a := 0, b := 2, c := 1, d := 0], [a, a, d]);
  }

  lemma EarlyNames(a: string, b: string, c: string, d: string)
    ensures var names := Tools(Early(a, b, c, d));
      names == [a, a, d, c, b] && Elements(names) == {a, b, c, d}
  {
    var names := Tools(Early(a, b, c, d));
    assert names == [a, a, d, c, b];
    assert names[0] == a && names[2] == d && names[3] == c && names[4] == b;
  }

  lemma {:induction false} EarlyRoots(a: string, b: string, c: string, d: string, es: seq<Edge>)
    requires InDegree(es, a) == 0 && InDegree(es, b) == 2 && InDegree(es, c) == 1 && InDegree(es, d) == 0
    ensures Roots([a, a, d, c, b], es) == [a, a, d]
  {
    RootsSnoc([], a, es);
    RootsSnoc([a], a, es);
    RootsSnoc([a, a], d, es);
    RootsSnoc([a, a, d], c, es);
    RootsSnoc([a, a, d, c], b, es);
    assert [a] == [] + [a] && [a, a] == [a] + [a] && [a, a, d] == [a, a] + [d];
    assert [a, a, d, c] == [a, a, d] + [c] && [a, a, d, c, b] == [a, a, d, c] + [b];
  }

  function Counts(a: string, b: string, c: string, d: string, atB: int, atC: int): map<string, int> {
    map[a := 0, b := atB, c := atC, d := 0]
  }

  lemma {:induction false} EarlyTurns(es: seq<Edge>, a: string, b: string, c: string, d: string)
    requires Distinct([a, b, c, d]) && Dependents(es, a) == [b]
    ensures DrainAll(es, State(Counts(a, b, c, d, 2, 1), [a, a, d], []), 5) ==
            DrainAll(es, State(Counts(a, b, c, d, 0, 1), [d, b], [a, a]), 3)
  {
    Different(a, b, c, d);
    DrainNext(es, State(Counts(a, b, c, d, 2, 1), [a, a, d], []), State(Counts(a, b, c, d, 1, 1), [a, d], [a]), b, 5);
    DrainNext(es, State(Counts(a, b, c, d, 1, 1), [a, d], [a]), State(Counts(a, b, c, d, 0, 1), [d, b], [a, a]), b, 4);
  }

  lemma {:induction false} LateTurns(es: seq<Edge>, a: string, b: string, c: string, d: string)
    requires Distinct([a, b, c, d]) && Dependents(es, b) == [] && Dependents(es, c) == [b] && Dependents(es, d) == [c]
    ensures DrainAll(es, State(Counts(a, b, c, d, 0, 1), [d, b], [a, a]), 3).sorted == [a, a, d, b, c]
  {
    Different(a, b, c, d);
    var last := State(Counts(a, b, c, d, -1, 0), [], [a, a, d, b, c]);
    DrainNext(es, State(Counts(a, b, c, d, 0, 1), [d, b], [a, a]), State(Counts(a, b, c, d, 0, 0), [b, c], [a, a, d]),
      c, 3);
    DrainIdle(es, State(Counts(a, b, c, d, 0, 0), [b, c], [a, a, d]), 2);
    assert PopFront(State(Counts(a, b, c, d, 0, 0), [b, c], [a, a, d])) ==
      State(Counts(a, b, c, d, 0, 0), [c], [a, a, d, b]);
    DrainNext(es, State(Counts(a, b, c, d, 0, 0), [c], [a, a, d, b]), last, b, 1);
  }

  lemma EarlySorted(a: string, b: string, c: string, d: string)
    requires Distinct([a, b, c, d])
    ensures SortedNames(Early(a, b, c, d)) == [a, a, d, b, c]
  {
    EarlyTables(a, b, c, d);
    EarlyStart(a, b, c, d);
    EarlyTurns(Edges(Early(a, b, c, d)), a, b, c, d);
    LateTurns(Edges(Early(a, b, c, d)), a, b, c, d);
  }

  lemma EarlyAcyclic(a: string, b: string, c: string, d: string)
    requires Distinct([a, b, c, d])
    ensures Graphs.Acyclic(DependencyGraph(Early(a, b, c, d)))
  {
    Different(a, b, c, d);
    var steps := Early(a, b, c, d);
    var g, rank: map<string, int> := DependencyGraph(steps), map[a := 0, b := 2, c := 1, d := 0];
    forall x, y | x in g && y in g[x] ensures Graphs.Falls(rank, x, y) {
      var i, k :| 0 <= i < |steps| && steps[i].tool == x && 0 <= k < |steps[i].dependsOn| && steps[i].dependsOn[k] == y;
      assert i == 3 || i == 4;
    }
    Graphs.RankedIsAcyclic(g, rank);
  }

  lemma EarlyKnown(a: string, b: string, c: string, d: string)
    requires Distinct([a, b, c, d])
    ensures KnownDependencies(Early(a, b, c, d)) && !RepeatedDependent(Early(a, b, c, d))
  {
    Different(a, b, c, d);
    var names := Tools(Early(a, b, c, d));
    assert names == [a] + [a] + [d] + [c] + [b];
    assert names[0] == a && names[2] == d && names[3] == c;
    forall t ensures Count(names, t) == if t == a then 2 else if t in names then 1 else 0 {
      CountAppend([a] + [a] + [d] + [c], [b], t);
      CountAppend([a] + [a] + [d], [c], t);
      CountAppend([a] + [a], [d], t);
      CountAppend([a], [a], t);
    }
  }

  /** An acyclic plan is sorted with a step before one of its dependencies. */
  lemma StepBeforeItsDependency(a: string, b: string, c: string, d: string, order: seq<Step>)
    requires Distinct([a, b, c, d]) && Chosen(Early(a, b, c, d), order)
    ensures var steps := Early(a, b, c, d);
      && KnownDependencies(steps) && Graphs.Acyclic(DependencyGraph(steps)) && !RepeatedDependent(steps)
      && Tools(order) == [a, a, d, b, c] && !RespectsDependencies(order)
  {
    var steps := Early(a, b, c, d);
    EarlyKnown(a, b, c, d);
    EarlyAcyclic(a, b, c, d);
    EarlySorted(a, b, c, d);
    Different(a, b, c, d);
    assert Tools(order)[3] == order[3].tool == b;
    LastOfB(a, b, c, d);
    assert order[3].dependsOn[1] == c;
    assert Tools(order[..3]) == Tools(order)[..3] == [a, a, d];
  }

  lemma {:induction false} LastOfB(a: string, b: string, c: string, d: string)
    ensures b in Tools(Early(a, b, c, d)) && LastOf(Early(a, b, c, d), b) == Step("x", b, [a, c])
  {
    assert Tools(Early(a, b, c, d))[4] == b;
  }
}
