/** The pipeline planner's dependency sort: Kahn's algorithm with a FIFO queue. */
module TopologicalSort {
  import opened Common
  import Graphs

  datatype Step = Step(agent: string, tool: string, dependsOn: seq<string>)

  datatype PlanError = UnknownDependency(tool: string, dep: string) | CycleDetected

  function Tools(steps: seq<Step>): (ts: seq<string>) {
    seq(|steps|, i requires 0 <= i < |steps| => steps[i].tool)
  }

  ghost predicate KnownDependencies(steps: seq<Step>) {
    forall i, k :: 0 <= i < |steps| && 0 <= k < |steps[i].dependsOn| ==> steps[i].dependsOn[k] in Tools(steps)
  }

  ghost predicate DistinctTools(steps: seq<Step>) {
    Distinct(Tools(steps))
  }

  /** Each tool name with the names some step of that name depends on. */
  ghost function DependencyGraph(steps: seq<Step>): (g: Graphs.Graph)
  {
    map t | t in Tools(steps) :: set i, k | 0 <= i < |steps| && steps[i].tool == t && 0 <= k < |steps[i].dependsOn| ::
      steps[i].dependsOn[k]
  }

  // ----- what an execution order promises

  ghost predicate RespectsDependencies(order: seq<Step>) {
    forall j, k :: 0 <= j < |order| && 0 <= k < |order[j].dependsOn| ==>
      order[j].dependsOn[k] in Tools(order[..j])
  }

  /** Latest position in `names` of any of `deps`; -1 when there are none. */
  function LastPosition(names: seq<string>, deps: seq<string>): (p: int)
    ensures -1 <= p <= |names|
  {
    if deps == [] then -1
    else
      var rest := LastPosition(names, deps[..|deps| - 1]);
      var p := IndexOf(names, deps[|deps| - 1]);
      if rest < p then p else rest
  }

  lemma {:induction false} LastPositionFacts(names: seq<string>, deps: seq<string>)
    ensures forall k :: 0 <= k < |deps| ==> IndexOf(names, deps[k]) <= LastPosition(names, deps)
    ensures deps != [] ==> exists k :: 0 <= k < |deps| && IndexOf(names, deps[k]) == LastPosition(names, deps)
  {
    if deps != [] {
      LastPositionFacts(names, deps[..|deps| - 1]);
      assert IndexOf(names, deps[|deps| - 1]) <= LastPosition(names, deps);
    }
  }

  /** First come, first served: a step whose last dependency runs earlier goes first, and steps
      released by the same dependency keep their input order. */
  ghost predicate Precedes(input: seq<Step>, order: seq<Step>, i: nat, j: nat)
    requires i < |order| && j < |order|
  {
    var names := Tools(order);
    var pi, pj := LastPosition(names, order[i].dependsOn), LastPosition(names, order[j].dependsOn);
    pi < pj || (pi == pj && IndexOf(Tools(input), order[i].tool) < IndexOf(Tools(input), order[j].tool))
  }

  ghost predicate FirstComeFirstServed(input: seq<Step>, order: seq<Step>) {
    forall i, j :: 0 <= i < j < |order| ==> Precedes(input, order, i, j)
  }

  // ----- edges

  datatype Edge = Edge(dep: string, tool: string)

  function StepEdges(s: Step): seq<Edge> {
    seq(|s.dependsOn|, k requires 0 <= k < |s.dependsOn| => Edge(s.dependsOn[k], s.tool))
  }

  function Edges(steps: seq<Step>): seq<Edge> {
    if steps == [] then [] else Edges(steps[..|steps| - 1]) + StepEdges(steps[|steps| - 1])
  }

  function InDegree(es: seq<Edge>, t: string): nat {
    if es == [] then 0
    else InDegree(es[..|es| - 1], t) + if es[|es| - 1].tool == t then 1 else 0
  }

  function Dependents(es: seq<Edge>, d: string): seq<string> {
    if es == [] then []
    else Dependents(es[..|es| - 1], d) + if es[|es| - 1].dep == d then [es[|es| - 1].tool] else []
  }

  /** Edges into `t` whose source has not run yet. */
  function Waiting(es: seq<Edge>, done: set<string>, t: string): nat {
    if es == [] then 0
    else Waiting(es[..|es| - 1], done, t) + if es[|es| - 1].tool == t && es[|es| - 1].dep !in done then 1 else 0
  }

  /** Edges into `t`, each counted once for every time its source occurs in `done`. */
  function Paid(es: seq<Edge>, done: seq<string>, t: string): nat {
    if es == [] then 0
    else Paid(es[..|es| - 1], done, t) + if es[|es| - 1].tool == t then Count(done, es[|es| - 1].dep) else 0
  }

  /** Edges into `t`, each counted as often as `runs` says of its source. */
  function Supply(es: seq<Edge>, runs: map<string, nat>, t: string): nat {
    if es == [] then 0
    else
      var e := es[|es| - 1];
      Supply(es[..|es| - 1], runs, t) + if e.tool == t && e.dep in runs then runs[e.dep] else 0
  }

  /** How often the names outside `left` can leave the queue: a name without dependencies once per
      step of that name, any other once. */
  function Runs(steps: seq<Step>, left: set<string>): map<string, nat> {
    map t | t in Tools(steps) && t !in left :: if InDegree(Edges(steps), t) == 0 then Count(Tools(steps), t) else 1
  }

  /** All other names together pay off too few edges to release any of `left`. */
  ghost predicate Starved(steps: seq<Step>, left: set<string>) {
    && left != {} && left <= Elements(Tools(steps))
    && forall t :: t in left ==> Supply(Edges(steps), Runs(steps, left), t) < InDegree(Edges(steps), t)
  }

  lemma {:induction false} PaidAfter(es: seq<Edge>, done: seq<string>, p: string, t: string)
    ensures Paid(es, done + [p], t) == Paid(es, done, t) + Count(Dependents(es, p), t)
  {
    if es != [] {
      var n := |es| - 1;
      PaidAfter(es[..n], done, p, t);
      CountAppend(Dependents(es[..n], p), if es[n].dep == p then [es[n].tool] else [], t);
      CountAppend(done, [p], es[n].dep);
    }
  }

  lemma {:induction false} NothingPaid(es: seq<Edge>, t: string)
    ensures Paid(es, [], t) == 0
  {
    if es != [] {
      NothingPaid(es[..|es| - 1], t);
    }
  }

  function RunsOf(runs: map<string, nat>, p: string): nat {
    if p in runs then runs[p] else 0
  }

  lemma {:induction false} PaidWithinSupply(es: seq<Edge>, done: seq<string>, runs: map<string, nat>, t: string)
    requires forall p :: Count(done, p) <= RunsOf(runs, p)
    ensures Paid(es, done, t) <= Supply(es, runs, t)
  {
    if es != [] {
      PaidWithinSupply(es[..|es| - 1], done, runs, t);
      assert Count(done, es[|es| - 1].dep) <= RunsOf(runs, es[|es| - 1].dep);
    }
  }

  lemma {:induction false} SupplyWithinPaid(es: seq<Edge>, done: seq<string>, runs: map<string, nat>, t: string)
    requires forall p :: RunsOf(runs, p) <= Count(done, p)
    ensures Supply(es, runs, t) <= Paid(es, done, t)
  {
    if es != [] {
      SupplyWithinPaid(es[..|es| - 1], done, runs, t);
      assert RunsOf(runs, es[|es| - 1].dep) <= Count(done, es[|es| - 1].dep);
    }
  }

  lemma {:induction false} SupplyMeetsAll(es: seq<Edge>, runs: map<string, nat>, t: string)
    requires forall e :: e in es && e.tool == t ==> RunsOf(runs, e.dep) >= 1
    ensures Supply(es, runs, t) >= InDegree(es, t)
  {
    if es != [] {
      assert es == es[..|es| - 1] + [es[|es| - 1]];
      SupplyMeetsAll(es[..|es| - 1], runs, t);
      assert RunsOf(runs, es[|es| - 1].dep) >= 0;
    }
  }

  lemma {:induction false} EdgesOf(steps: seq<Step>, e: Edge)
    ensures e in Edges(steps) <==>
            exists i, k :: 0 <= i < |steps| && 0 <= k < |steps[i].dependsOn| &&
              e == Edge(steps[i].dependsOn[k], steps[i].tool)
  {
    if steps != [] {
      var n := |steps| - 1;
      EdgesOf(steps[..n], e);
      var last := StepEdges(steps[n]);
      if e in last {
        var k :| 0 <= k < |last| && last[k] == e;
        assert e == Edge(steps[n].dependsOn[k], steps[n].tool);
      }
      if i, k :| 0 <= i < |steps| && 0 <= k < |steps[i].dependsOn| && e == Edge(steps[i].dependsOn[k], steps[i].tool) {
        if i == n {
          assert last[k] == e;
        } else {
          assert steps[..n][i] == steps[i];
        }
      }
    }
  }

  lemma {:induction false} WaitingFacts(es: seq<Edge>, done: set<string>, t: string)
    ensures Waiting(es, done, t) <= InDegree(es, t)
    ensures done == {} ==> Waiting(es, done, t) == InDegree(es, t)
    ensures Waiting(es, done, t) > 0 <==> exists e :: e in es && e.tool == t && e.dep !in done
    ensures InDegree(es, t) > 0 <==> exists e :: e in es && e.tool == t
  {
    if es != [] {
      var n := |es| - 1;
      WaitingFacts(es[..n], done, t);
      assert es == es[..n] + [es[n]];
      assert forall e :: e in es <==> e in es[..n] || e == es[n];
    }
  }

  /** Running `p` for the first time pays off exactly its entries among the dependents. */
  lemma {:induction false} WaitingAfter(es: seq<Edge>, done: set<string>, p: string, t: string)
    requires p !in done
    ensures Waiting(es, done, t) == Waiting(es, done + {p}, t) + Count(Dependents(es, p), t)
  {
    if es != [] {
      var n := |es| - 1;
      WaitingAfter(es[..n], done, p, t);
      CountAppend(Dependents(es[..n], p), if es[n].dep == p then [es[n].tool] else [], t);
    }
  }

  lemma {:induction false} DependentsFacts(es: seq<Edge>, d: string, t: string)
    ensures t in Dependents(es, d) <==> Edge(d, t) in es
  {
    if es != [] {
      var n := |es| - 1;
      DependentsFacts(es[..n], d, t);
      assert es == es[..n] + [es[n]];
    }
  }

  lemma {:induction false} DependentsAppend(a: seq<Edge>, b: seq<Edge>, d: string)
    ensures Dependents(a + b, d) == Dependents(a, d) + Dependents(b, d)
  {
    if b == [] {
      assert a + b == a;
    } else {
      var n := |b| - 1;
      assert (a + b)[..|a + b| - 1] == a + b[..n];
      DependentsAppend(a, b[..n], d);
    }
  }

  lemma {:induction false} DependentsOfStep(s: Step, m: nat, d: string)
    requires m <= |s.dependsOn|
    ensures forall x :: x in Dependents(StepEdges(s)[..m], d) ==> x == s.tool
  {
    if m > 0 {
      DependentsOfStep(s, m - 1, d);
      assert StepEdges(s)[..m][..m - 1] == StepEdges(s)[..m - 1];
    }
  }

  ghost predicate InInputOrder(names: seq<string>, cs: seq<string>) {
    forall i, j :: 0 <= i <= j < |cs| ==> IndexOf(names, cs[i]) <= IndexOf(names, cs[j])
  }

  /** Dependents are recorded in the order of the steps. */
  lemma {:induction false} DependentsInOrder(steps: seq<Step>, d: string)
    requires DistinctTools(steps)
    ensures InInputOrder(Tools(steps), Dependents(Edges(steps), d))
    ensures forall x :: x in Dependents(Edges(steps), d) ==> x in Tools(steps)
  {
    if steps != [] {
      var n := |steps| - 1;
      var names, shorter := Tools(steps), Tools(steps[..n]);
      assert names == shorter + [steps[n].tool];
      assert forall i :: 0 <= i < n ==> shorter[i] == names[i];
      assert Distinct(shorter);
      DependentsInOrder(steps[..n], d);
      var a, b := Dependents(Edges(steps[..n]), d), Dependents(StepEdges(steps[n]), d);
      DependentsAppend(Edges(steps[..n]), StepEdges(steps[n]), d);
      DependentsOfStep(steps[n], |steps[n].dependsOn|, d);
      assert StepEdges(steps[n])[..|steps[n].dependsOn|] == StepEdges(steps[n]);
      assert forall i :: 0 <= i < |a| ==> a[i] in a;
      assert forall i :: 0 <= i < |b| ==> b[i] in b;
      LastInOrder(shorter, steps[n].tool, a, b);
    }
  }

  /** Names of the shorter list come before the name that is appended. */
  lemma LastInOrder(shorter: seq<string>, last: string, a: seq<string>, b: seq<string>)
    requires Distinct(shorter + [last]) && InInputOrder(shorter, a)
    requires forall i :: 0 <= i < |a| ==> a[i] in shorter
    requires forall i :: 0 <= i < |b| ==> b[i] == last
    ensures InInputOrder(shorter + [last], a + b)
  {
    var names := shorter + [last];
    forall i | 0 <= i < |a| ensures IndexOf(names, a[i]) == IndexOf(shorter, a[i]) < |shorter| {
      IndexOfExtend(shorter, [last], a[i]);
    }
    IndexOfDistinct(names, |shorter|);
  }

  // ----- the algorithm's state

  datatype State = State(inDegree: map<string, int>, queue: seq<string>, sorted: seq<string>) {
    /** Names in the order in which they were queued. */
    function Seen(): seq<string> { sorted + queue }
  }

  function ReleaseOne(st: State, child: string): State {
    if child !in st.inDegree then st
    else
      var left := st.inDegree[child] - 1;
      State(st.inDegree[child := left], if left == 0 then st.queue + [child] else st.queue, st.sorted)
  }

  function ReleaseEach(st: State, cs: seq<string>): State
    decreases |cs|
  {
    if cs == [] then st else ReleaseEach(ReleaseOne(st, cs[0]), cs[1..])
  }

  function PopFront(st: State): State
    requires st.queue != []
  {
    State(st.inDegree, st.queue[1..], st.sorted + [st.queue[0]])
  }

  /** One turn of the main loop: the first name leaves the queue and releases its dependents. */
  function Turn(es: seq<Edge>, st: State): State
    requires st.queue != []
  {
    ReleaseEach(PopFront(st), Dependents(es, st.queue[0]))
  }

  /** The main loop, for at most `n` turns. */
  function DrainAll(es: seq<Edge>, st: State, n: nat): State
    decreases n
  {
    if st.queue == [] || n == 0 then st else DrainAll(es, Turn(es, st), n - 1)
  }

  function StartState(steps: seq<Step>): State {
    State(map t | t in Tools(steps) :: InDegree(Edges(steps), t), Roots(Tools(steps), Edges(steps)), [])
  }

  function FinalState(steps: seq<Step>): State {
    DrainAll(Edges(steps), StartState(steps), |steps|)
  }

  /** The names in the order in which they leave the queue. */
  function SortedNames(steps: seq<Step>): seq<string> {
    FinalState(steps).sorted
  }

  /** The step a name stands for: the last one of that name. */
  function LastOf(steps: seq<Step>, t: string): Step
    requires t in Tools(steps)
  {
    var n := |steps| - 1;
    if steps[n].tool == t then steps[n]
    else
      assert Tools(steps) == Tools(steps[..n]) + [steps[n].tool];
      LastOf(steps[..n], t)
  }

  ghost predicate Chosen(steps: seq<Step>, order: seq<Step>) {
    Tools(order) == SortedNames(steps) &&
    forall j :: 0 <= j < |order| ==> order[j].tool in Tools(steps) && order[j] == LastOf(steps, order[j].tool)
  }

  /** Whatever the input: a name with no incoming edge is queued once per step of that name,
      any other at most once, and only when its count reaches zero. */
  ghost predicate Counted(names: seq<string>, es: seq<Edge>, st: State) {
    && st.inDegree.Keys == Elements(names)
    && (forall t :: t in names && InDegree(es, t) == 0 ==>
      st.inDegree[t] == 0 && Count(st.Seen(), t) == Count(names, t))
    && (forall t :: t in names && InDegree(es, t) > 0 ==> Count(st.Seen(), t) == if st.inDegree[t] <= 0 then 1 else 0)
    && (forall t :: t in st.Seen() ==> t in names)
  }

  /** The count of a name is what it waits for, plus what is due to it from the name sorted last. */
  ghost predicate Settled(es: seq<Edge>, st: State, due: seq<string>) {
    forall t :: t in st.inDegree ==> st.inDegree[t] == Waiting(es, Elements(st.sorted), t) + Count(due, t)
  }

  /** An edge is paid off each time its source leaves the queue, which repeated names may do twice. */
  ghost predicate Balanced(es: seq<Edge>, st: State, due: seq<string>) {
    forall t :: t in st.inDegree ==> st.inDegree[t] + Paid(es, st.sorted, t) == InDegree(es, t) + Count(due, t)
  }

  /** No starved name is ever queued. */
  ghost predicate Unfed(steps: seq<Step>, seen: seq<string>) {
    forall left, t {:trigger t in left, Starved(steps, left)} :: Starved(steps, left) && t in left ==> t !in seen
  }

  /** Every queued name comes after the names it depends on. */
  ghost predicate Grounded(es: seq<Edge>, seen: seq<string>) {
    forall j, e {:trigger seen[j], e in es} :: 0 <= j < |seen| && e in es && e.tool == seen[j] ==> e.dep in seen[..j]
  }

  /** Some tool name occurs twice and some step depends on it. */
  ghost predicate SharedDependency(steps: seq<Step>) {
    exists l, k :: 0 <= l < |steps| && 0 <= k < |steps[l].dependsOn| && Count(Tools(steps), steps[l].dependsOn[k]) >= 2
  }

  /** What the counts say, whatever names repeat. */
  ghost predicate Loose(steps: seq<Step>, st: State, due: seq<string>) {
    && Balanced(Edges(steps), st, due) && Unfed(steps, st.Seen())
    && (!SharedDependency(steps) ==> Settled(Edges(steps), st, due) && Grounded(Edges(steps), st.Seen()))
  }

  lemma {:induction false} ReleaseOneCounted(names: seq<string>, es: seq<Edge>, st: State, c: string)
    requires Counted(names, es, st) && c in names && InDegree(es, c) > 0
    ensures Counted(names, es, ReleaseOne(st, c))
  {
    var r := ReleaseOne(st, c);
    if r.inDegree[c] == 0 {
      assert r.Seen() == st.Seen() + [c];
      forall t ensures Count(r.Seen(), t) == Count(st.Seen(), t) + if t == c then 1 else 0 {
        CountAppend(st.Seen(), [c], t);
      }
    } else {
      assert r.Seen() == st.Seen();
    }
  }

  lemma PopCounted(names: seq<string>, es: seq<Edge>, st: State)
    requires Counted(names, es, st) && st.queue != []
    ensures Counted(names, es, PopFront(st))
  {
    assert PopFront(st).Seen() == st.Seen();
  }

  lemma CountedBound(names: seq<string>, es: seq<Edge>, st: State)
    requires Counted(names, es, st)
    ensures multiset(st.Seen()) <= multiset(names)
    ensures |st.sorted| + |st.queue| <= |names|
  {
    forall t ensures multiset(st.Seen())[t] <= multiset(names)[t] {
      CountIsMultiset(st.Seen(), t);
      CountIsMultiset(names, t);
      CountPositive(st.Seen(), t);
      CountPositive(names, t);
    }
    SubMultisetCard(multiset(st.Seen()), multiset(names));
  }

  // ----- queue order, for distinct tool names

  /** Why a name is where it is in the queue: the position of the name that released it
      (-1 for a step without dependencies) and its place in the input. */
  datatype Slot = Slot(release: int, index: nat)

  /** `done` holds all of `deps`, and its last name is one of them. */
  ghost predicate ReleasedBy(deps: seq<string>, done: seq<string>) {
    && (forall d :: d in deps ==> d in done)
    && (done != [] ==> done[|done| - 1] in deps)
  }

  ghost predicate SlotOk(steps: seq<Step>, seen: seq<string>, x: string, s: Slot) {
    && s.index < |steps| && steps[s.index].tool == x
    && -1 <= s.release < |seen|
    && ReleasedBy(steps[s.index].dependsOn, seen[..s.release + 1])
  }

  ghost predicate Slotted(steps: seq<Step>, seen: seq<string>, slots: seq<Slot>) {
    |slots| == |seen| && forall j {:trigger slots[j]} :: 0 <= j < |seen| ==>
      SlotOk(steps, seen, seen[j], slots[j]) && slots[j].release < j
  }

  ghost predicate Sorted(slots: seq<Slot>) {
    forall i, j :: 0 <= i < j < |slots| ==>
      slots[i].release < slots[j].release || (slots[i].release == slots[j].release && slots[i].index < slots[j].index)
  }

  /** Slots from `base` on were released by the `k`-th name, at input positions up to `top`;
      the others earlier. */
  ghost predicate Staged(slots: seq<Slot>, base: nat, k: int, top: int) {
    && base <= |slots|
    && (forall j :: 0 <= j < base ==> slots[j].release < k)
    && (forall j :: base <= j < |slots| ==> slots[j].release == k && slots[j].index <= top)
  }

  lemma SlotStable(steps: seq<Step>, seen: seq<string>, c: string, x: string, s: Slot)
    requires SlotOk(steps, seen, x, s)
    ensures SlotOk(steps, seen + [c], x, s)
  {
    assert (seen + [c])[..s.release + 1] == seen[..s.release + 1];
  }

  lemma AppendSlotted(steps: seq<Step>, seen: seq<string>, slots: seq<Slot>, c: string, s: Slot)
    requires Slotted(steps, seen, slots) && SlotOk(steps, seen, c, s)
    ensures Slotted(steps, seen + [c], slots + [s])
  {
    var seen', slots' := seen + [c], slots + [s];
    forall j | 0 <= j < |seen'| ensures SlotOk(steps, seen', seen'[j], slots'[j]) && slots'[j].release < j {
      if j < |seen| {
        assert slots'[j] == slots[j] && seen'[j] == seen[j];
        SlotStable(steps, seen, c, seen[j], slots[j]);
      } else {
        SlotStable(steps, seen, c, c, s);
      }
    }
  }

  lemma AppendSorted(slots: seq<Slot>, base: nat, top: int, s: Slot)
    requires Sorted(slots) && Staged(slots, base, s.release, top) && top < s.index
    ensures Sorted(slots + [s]) && Staged(slots + [s], base, s.release, s.index)
  {
  }

  /** The index of the dependent looked at before the `m`-th. */
  function TopBefore(steps: seq<Step>, cs: seq<string>, m: nat): int
    requires m <= |cs|
  {
    if m == 0 then -1 else IndexOf(Tools(steps), cs[m - 1])
  }

  ghost predicate Queued(steps: seq<Step>, st: State, slots: seq<Slot>) {
    && Slotted(steps, st.Seen(), slots) && Sorted(slots)
    && (forall j :: 0 <= j < |slots| ==> slots[j].release < |st.sorted|)
  }

  lemma {:induction false} IntoStep(steps: seq<Step>, t: string, d: string)
    requires DistinctTools(steps) && t in Tools(steps)
    ensures Edge(d, t) in Edges(steps) <==> d in steps[IndexOf(Tools(steps), t)].dependsOn
  {
    var i := IndexOf(Tools(steps), t);
    EdgesOf(steps, Edge(d, t));
    if Edge(d, t) in Edges(steps) {
      var j, k :| 0 <= j < |steps| && 0 <= k < |steps[j].dependsOn| &&
        Edge(d, t) == Edge(steps[j].dependsOn[k], steps[j].tool);
      IndexOfDistinct(Tools(steps), j);
    }
    if d in steps[i].dependsOn {
      var k :| 0 <= k < |steps[i].dependsOn| && steps[i].dependsOn[k] == d;
      assert Edge(d, t) == Edge(steps[i].dependsOn[k], steps[i].tool);
    }
  }

  lemma CountedDistinct(names: seq<string>, es: seq<Edge>, st: State)
    requires Distinct(names) && Counted(names, es, st)
    ensures Distinct(st.Seen())
  {
    CountedBound(names, es, st);
    forall t ensures multiset(st.Seen())[t] <= 1 {
      DistinctMultiset(names, t);
    }
    MultisetDistinct(st.Seen());
  }

  /** A dependent whose count stands at one is released by the name sorted last. */
  lemma {:induction false} DueNow(steps: seq<Step>, st: State, cs: seq<string>, m: nat)
    requires DistinctTools(steps)
    requires m < |cs| && cs[m] in st.inDegree && st.inDegree[cs[m]] == 1 && st.sorted != []
    requires Counted(Tools(steps), Edges(steps), st) && Settled(Edges(steps), st, cs[m..])
    requires cs == Dependents(Edges(steps), st.sorted[|st.sorted| - 1])
    ensures SlotOk(steps, st.Seen(), cs[m], Slot(|st.sorted| - 1, IndexOf(Tools(steps), cs[m])))
    ensures cs[m] !in st.Seen()
  {
    var c, p := cs[m], st.sorted[|st.sorted| - 1];
    DependentsFacts(Edges(steps), p, c);
    WaitingFacts(Edges(steps), Elements(st.sorted), c);
    CountPositive(cs[m..], c);
    CountPositive(st.Seen(), c);
    assert cs[m..][0] == c;
    var deps := steps[IndexOf(Tools(steps), c)].dependsOn;
    IntoStep(steps, c, p);
    forall d | d in deps ensures d in st.sorted {
      IntoStep(steps, c, d);
    }
    assert st.Seen()[..|st.sorted|] == st.sorted;
  }

  /** Names not yet queued sit at other input positions than the queued ones. */
  lemma {:induction false} StagedBelow(steps: seq<Step>, seen: seq<string>, slots: seq<Slot>, base: nat, k: int,
                                       top: int, c: string)
    requires Slotted(steps, seen, slots) && Staged(slots, base, k, top)
    requires c !in seen && c in Tools(steps) && top <= IndexOf(Tools(steps), c)
    ensures Staged(slots, base, k, IndexOf(Tools(steps), c) - 1)
  {
    forall j | base <= j < |slots| ensures slots[j].index < IndexOf(Tools(steps), c) {
      assert SlotOk(steps, seen, seen[j], slots[j]);
      assert seen[j] in seen;
    }
  }

  lemma {:induction false} TopRises(steps: seq<Step>, p: string, m: nat)
    requires DistinctTools(steps) && m < |Dependents(Edges(steps), p)|
    ensures var cs := Dependents(Edges(steps), p);
      TopBefore(steps, cs, m) <= IndexOf(Tools(steps), cs[m]) && cs[m] in Tools(steps)
  {
    DependentsInOrder(steps, p);
  }

  /** Where the queued names stand while the first `m` dependents `cs` of the last sorted name are released. */
  ghost predicate Releasing(steps: seq<Step>, st: State, slots: seq<Slot>, base: nat, cs: seq<string>, m: nat)
    requires m <= |cs|
  {
    && Slotted(steps, st.Seen(), slots) && Sorted(slots)
    && Staged(slots, base, |st.sorted| - 1, TopBefore(steps, cs, m))
  }

  lemma ReleaseOneSlots(steps: seq<Step>, st: State, slots: seq<Slot>, base: nat, cs: seq<string>,
                        m: nat)
    returns (slots': seq<Slot>)
    requires DistinctTools(steps) && m < |cs| && cs[m] in st.inDegree && st.sorted != []
    requires Counted(Tools(steps), Edges(steps), st) && Settled(Edges(steps), st, cs[m..])
    requires cs == Dependents(Edges(steps), st.sorted[|st.sorted| - 1])
    requires Releasing(steps, st, slots, base, cs, m)
    ensures Releasing(steps, ReleaseOne(st, cs[m]), slots', base, cs, m + 1)
  {
    var c, k := cs[m], |st.sorted| - 1;
    TopRises(steps, st.sorted[k], m);
    if st.inDegree[c] == 1 {
      var s := Slot(k, IndexOf(Tools(steps), c));
      DueNow(steps, st, cs, m);
      StagedBelow(steps, st.Seen(), slots, base, k, TopBefore(steps, cs, m), c);
      AppendSlotted(steps, st.Seen(), slots, c, s);
      AppendSorted(slots, base, s.index - 1, s);
      assert ReleaseOne(st, c).Seen() == st.Seen() + [c];
      slots' := slots + [s];
    } else {
      assert ReleaseOne(st, c).Seen() == st.Seen();
      slots' := slots;
    }
  }

  lemma {:induction false} DependentsKnown(steps: seq<Step>, p: string)
    ensures forall c :: c in Dependents(Edges(steps), p) ==> c in Tools(steps) && InDegree(Edges(steps), c) > 0
  {
    var names, es := Tools(steps), Edges(steps);
    forall c | c in Dependents(es, p) ensures c in names && InDegree(es, c) > 0 {
      DependentsFacts(es, p, c);
      EdgesOf(steps, Edge(p, c));
      var i, k :| 0 <= i < |steps| && 0 <= k < |steps[i].dependsOn| &&
        Edge(p, c) == Edge(steps[i].dependsOn[k], steps[i].tool);
      assert names[i] == c;
      WaitingFacts(es, {}, c);
    }
  }

  // ----- repeated tool names

  lemma {:induction false} CountTwice(s: seq<string>, i: nat, j: nat)
    requires i < j < |s| && s[i] == s[j]
    ensures Count(s, s[i]) >= 2
  {
    assert s == s[..j] + s[j..];
    CountAppend(s[..j], s[j..], s[i]);
    assert s[..j][i] == s[i] && s[j..][0] == s[i];
    CountPositive(s[..j], s[i]);
    CountPositive(s[j..], s[i]);
  }

  lemma {:induction false} SharedWhen(steps: seq<Step>, p: string, c: string)
    requires Count(Tools(steps), p) >= 2 && Edge(p, c) in Edges(steps)
    ensures SharedDependency(steps)
  {
    EdgesOf(steps, Edge(p, c));
  }

  /** A name that leaves the queue a second time has no dependents, unless it is shared. */
  lemma {:induction false} SecondTimeIdle(steps: seq<Step>, st: State)
    requires Counted(Tools(steps), Edges(steps), st)
    requires st.queue != [] && st.queue[0] in st.sorted
    ensures SharedDependency(steps) || Dependents(Edges(steps), st.queue[0]) == []
  {
    var p, es, seen := st.queue[0], Edges(steps), st.Seen();
    var a :| 0 <= a < |st.sorted| && st.sorted[a] == p;
    assert seen[a] == seen[|st.sorted|] == p;
    CountTwice(seen, a, |st.sorted|);
    CountedBound(Tools(steps), es, st);
    CountIsMultiset(seen, p);
    CountIsMultiset(Tools(steps), p);
    if Dependents(es, p) != [] {
      var c := Dependents(es, p)[0];
      DependentsFacts(es, p, c);
      SharedWhen(steps, p, c);
    }
  }

  lemma {:induction false} PopBalanced(es: seq<Edge>, st: State)
    requires Balanced(es, st, []) && st.queue != []
    ensures Balanced(es, PopFront(st), Dependents(es, st.queue[0]))
  {
    forall t {
      PaidAfter(es, st.sorted, st.queue[0], t);
    }
  }

  lemma {:induction false} PopSettled(steps: seq<Step>, st: State)
    requires !SharedDependency(steps) && Counted(Tools(steps), Edges(steps), st) && Settled(Edges(steps), st, [])
    requires st.queue != []
    ensures Settled(Edges(steps), PopFront(st), Dependents(Edges(steps), st.queue[0]))
  {
    var es, p, st1 := Edges(steps), st.queue[0], PopFront(st);
    assert Elements(st1.sorted) == Elements(st.sorted) + {p};
    if p in st.sorted {
      SecondTimeIdle(steps, st);
      assert Elements(st1.sorted) == Elements(st.sorted);
    } else {
      forall t | t in st1.inDegree
        ensures st1.inDegree[t] == Waiting(es, Elements(st1.sorted), t) + Count(Dependents(es, p), t)
      {
        WaitingAfter(es, Elements(st.sorted), p, t);
      }
    }
  }

  lemma {:induction false} PopLoose(steps: seq<Step>, st: State)
    requires Counted(Tools(steps), Edges(steps), st) && Loose(steps, st, []) && st.queue != []
    ensures Loose(steps, PopFront(st), Dependents(Edges(steps), st.queue[0]))
  {
    PopBalanced(Edges(steps), st);
    assert PopFront(st).Seen() == st.Seen();
    if !SharedDependency(steps) {
      PopSettled(steps, st);
    }
  }

  lemma ReleaseBalanced(es: seq<Edge>, st: State, cs: seq<string>, m: nat)
    requires m < |cs| && cs[m] in st.inDegree && Balanced(es, st, cs[m..])
    ensures Balanced(es, ReleaseOne(st, cs[m]), cs[m + 1..])
  {
    assert cs[m..][1..] == cs[m + 1..];
  }

  /** Names outside a starved set pay for too little to release a member. */
  lemma {:induction false} StarvedWaits(steps: seq<Step>, st: State, left: set<string>, c: string)
    requires Counted(Tools(steps), Edges(steps), st) && Unfed(steps, st.Seen())
    requires Starved(steps, left) && c in left
    ensures Paid(Edges(steps), st.sorted, c) < InDegree(Edges(steps), c)
  {
    var runs := Runs(steps, left);
    forall p ensures Count(st.sorted, p) <= RunsOf(runs, p) {
      CountPositive(st.sorted, p);
      CountAppend(st.sorted, st.queue, p);
      if p in st.sorted {
        assert p in st.Seen();
        assert p in Tools(steps) && p !in left;
      }
    }
    PaidWithinSupply(Edges(steps), st.sorted, runs, c);
  }

  lemma {:induction false} ReleaseUnfed(steps: seq<Step>, st: State, cs: seq<string>, m: nat)
    requires m < |cs| && cs[m] in st.inDegree && Balanced(Edges(steps), st, cs[m..])
    requires Counted(Tools(steps), Edges(steps), st) && Unfed(steps, st.Seen())
    ensures Unfed(steps, ReleaseOne(st, cs[m]).Seen())
  {
    var c, seen, seen' := cs[m], st.Seen(), ReleaseOne(st, cs[m]).Seen();
    assert cs[m..][0] == c;
    CountPositive(cs[m..], c);
    forall left | Starved(steps, left) && c in left ensures st.inDegree[c] > 1 {
      StarvedWaits(steps, st, left, c);
    }
    assert forall t :: t in seen' ==> t in seen || (t == c && st.inDegree[c] == 1);
  }

  lemma ReleaseSettled(es: seq<Edge>, st: State, cs: seq<string>, m: nat)
    requires m < |cs| && cs[m] in st.inDegree && Settled(es, st, cs[m..])
    ensures Settled(es, ReleaseOne(st, cs[m]), cs[m + 1..])
  {
    assert cs[m..][1..] == cs[m + 1..];
  }

  /** A name whose count reaches zero has all its dependencies sorted. */
  lemma ReleaseGrounded(es: seq<Edge>, st: State, cs: seq<string>, m: nat)
    requires m < |cs| && cs[m] in st.inDegree && Settled(es, st, cs[m..]) && Grounded(es, st.Seen())
    ensures Grounded(es, ReleaseOne(st, cs[m]).Seen())
  {
    var c, seen, seen' := cs[m], st.Seen(), ReleaseOne(st, cs[m]).Seen();
    if st.inDegree[c] == 1 {
      assert seen' == seen + [c];
      assert cs[m..][0] == c;
      CountPositive(cs[m..], c);
      WaitingFacts(es, Elements(st.sorted), c);
      forall j, e | 0 <= j < |seen'| && e in es && e.tool == seen'[j] ensures e.dep in seen'[..j] {
        if j < |seen| {
          assert seen'[..j] == seen[..j] && seen[j] == seen'[j];
        } else {
          assert e.dep in Elements(st.sorted);
          var i :| 0 <= i < |st.sorted| && st.sorted[i] == e.dep;
          assert seen'[..j][i] == e.dep;
        }
      }
    } else {
      assert seen' == seen;
    }
  }

  lemma {:induction false} ReleaseLoose(steps: seq<Step>, st: State, cs: seq<string>, m: nat)
    requires m < |cs| && Loose(steps, st, cs[m..])
    requires Counted(Tools(steps), Edges(steps), st)
    requires cs[m] in Tools(steps) && InDegree(Edges(steps), cs[m]) > 0
    ensures cs[m] in st.inDegree && Counted(Tools(steps), Edges(steps), ReleaseOne(st, cs[m]))
    ensures Loose(steps, ReleaseOne(st, cs[m]), cs[m + 1..])
  {
    ReleaseOneCounted(Tools(steps), Edges(steps), st, cs[m]);
    ReleaseBalanced(Edges(steps), st, cs, m);
    ReleaseUnfed(steps, st, cs, m);
    if !SharedDependency(steps) {
      ReleaseSettled(Edges(steps), st, cs, m);
      ReleaseGrounded(Edges(steps), st, cs, m);
    }
  }

  lemma DistinctSharesNothing(steps: seq<Step>)
    requires DistinctTools(steps)
    ensures !SharedDependency(steps) && !RepeatedDependent(steps)
  {
    forall t ensures Count(Tools(steps), t) <= 1 {
      CountIsMultiset(Tools(steps), t);
      DistinctMultiset(Tools(steps), t);
    }
  }

  /** Between turns. The slots say where each queued name stands, when tool names are distinct. */
  ghost predicate Between(steps: seq<Step>, st: State, slots: seq<Slot>) {
    && Counted(Tools(steps), Edges(steps), st) && Loose(steps, st, [])
    && (DistinctTools(steps) ==> Queued(steps, st, slots))
  }

  ghost predicate During(steps: seq<Step>, st: State, slots: seq<Slot>, base: nat, m: nat) {
    var cs := if st.sorted == [] then [] else Dependents(Edges(steps), st.sorted[|st.sorted| - 1]);
    && m <= |cs| && st.sorted != []
    && Counted(Tools(steps), Edges(steps), st) && Loose(steps, st, cs[m..])
    && (DistinctTools(steps) ==> Releasing(steps, st, slots, base, cs, m))
  }

  lemma Pop(steps: seq<Step>, st: State, slots: seq<Slot>)
    requires Between(steps, st, slots) && st.queue != []
    ensures During(steps, PopFront(st), slots, |slots|, 0)
    ensures st.queue[0] in Tools(steps)
  {
    PopCounted(Tools(steps), Edges(steps), st);
    PopLoose(steps, st);
    assert st.Seen()[|st.sorted|] == st.queue[0];
    assert Dependents(Edges(steps), st.queue[0])[0..] == Dependents(Edges(steps), st.queue[0]);
    if DistinctTools(steps) {
      DistinctSharesNothing(steps);
      assert PopFront(st).Seen() == st.Seen();
    }
  }

  lemma ReleaseChild(steps: seq<Step>, st: State, slots: seq<Slot>, base: nat, m: nat)
    returns (slots': seq<Slot>)
    requires During(steps, st, slots, base, m) && m < |Dependents(Edges(steps), st.sorted[|st.sorted| - 1])|
    ensures var c := Dependents(Edges(steps), st.sorted[|st.sorted| - 1])[m];
      c in st.inDegree && During(steps, ReleaseOne(st, c), slots', base, m + 1)
  {
    var cs := Dependents(Edges(steps), st.sorted[|st.sorted| - 1]);
    DependentsKnown(steps, st.sorted[|st.sorted| - 1]);
    assert cs[m] in cs;
    ReleaseLoose(steps, st, cs, m);
    slots' := slots;
    if DistinctTools(steps) {
      DistinctSharesNothing(steps);
      slots' := ReleaseOneSlots(steps, st, slots, base, cs, m);
    }
  }

  lemma {:induction false} AllReleased(steps: seq<Step>, st: State, slots: seq<Slot>, base: nat)
    requires st.sorted != [] && During(steps, st, slots, base, |Dependents(Edges(steps), st.sorted[|st.sorted| - 1])|)
    ensures Between(steps, st, slots)
  {
    var cs := Dependents(Edges(steps), st.sorted[|st.sorted| - 1]);
    assert cs[|cs|..] == [];
  }

  // ----- the initial state

  function Roots(names: seq<string>, es: seq<Edge>): seq<string> {
    if names == [] then []
    else
      var n := |names| - 1;
      Roots(names[..n], es) + if InDegree(es, names[n]) == 0 then [names[n]] else []
  }

  lemma {:induction false} RootsCount(names: seq<string>, es: seq<Edge>, t: string)
    ensures Count(Roots(names, es), t) == if InDegree(es, t) == 0 then Count(names, t) else 0
  {
    if names != [] {
      var n := |names| - 1;
      RootsCount(names[..n], es, t);
      assert names == names[..n] + [names[n]];
      CountAppend(names[..n], [names[n]], t);
      CountAppend(Roots(names[..n], es), if InDegree(es, names[n]) == 0 then [names[n]] else [], t);
    }
  }

  ghost predicate RootSlots(steps: seq<Step>, roots: seq<string>, slots: seq<Slot>, n: nat) {
    && |slots| == |roots| && n <= |steps|
    && (forall j {:trigger slots[j]} :: 0 <= j < |slots| ==>
          slots[j].release == -1 && slots[j].index < n &&
            steps[slots[j].index] == Step(steps[slots[j].index].agent, roots[j], []))
    && Sorted(slots)
  }

  lemma {:induction false} RootsSlotted(steps: seq<Step>, n: nat) returns (slots: seq<Slot>)
    requires n <= |steps|
    ensures RootSlots(steps, Roots(Tools(steps)[..n], Edges(steps)), slots, n)
  {
    if n == 0 {
      slots := [];
    } else {
      slots := RootsSlotted(steps, n - 1);
      var s := steps[n - 1];
      assert Tools(steps)[..n][..n - 1] == Tools(steps)[..n - 1];
      if InDegree(Edges(steps), s.tool) == 0 {
        slots := slots + [Slot(-1, n - 1)];
        if s.dependsOn != [] {
          var e := Edge(s.dependsOn[0], s.tool);
          EdgesOf(steps, e);
          WaitingFacts(Edges(steps), {}, s.tool);
          assert false;
        }
      }
    }
  }

  ghost predicate Fresh(steps: seq<Step>, st: State) {
    && st.sorted == [] && st.queue == Roots(Tools(steps), Edges(steps))
    && st.inDegree.Keys == Elements(Tools(steps))
    && forall t :: t in st.inDegree ==> st.inDegree[t] == InDegree(Edges(steps), t)
  }

  lemma {:induction false} RootsGrounded(names: seq<string>, es: seq<Edge>)
    ensures Grounded(es, Roots(names, es))
    ensures forall t :: t in Roots(names, es) ==> t in names && InDegree(es, t) == 0
  {
    var roots := Roots(names, es);
    forall t | t in roots ensures t in names && InDegree(es, t) == 0 {
      RootsCount(names, es, t);
      CountPositive(roots, t);
      CountPositive(names, t);
    }
    forall e | e in es ensures e.tool !in roots {
      WaitingFacts(es, {}, e.tool);
    }
    assert forall j :: 0 <= j < |roots| ==> roots[j] in roots;
  }

  lemma {:induction false} FreshCounted(steps: seq<Step>, st: State)
    requires Fresh(steps, st)
    ensures Counted(Tools(steps), Edges(steps), st)
  {
    var names, es := Tools(steps), Edges(steps);
    assert st.Seen() == st.queue;
    RootsGrounded(names, es);
    forall t ensures Count(st.Seen(), t) == if InDegree(es, t) == 0 then Count(names, t) else 0 {
      RootsCount(names, es, t);
    }
    assert forall t :: t in names ==> t in Elements(names);
  }

  lemma FreshLoose(steps: seq<Step>, st: State)
    requires Fresh(steps, st)
    ensures Loose(steps, st, [])
  {
    var es := Edges(steps);
    assert st.Seen() == st.queue;
    RootsGrounded(Tools(steps), es);
    forall t | t in st.inDegree
      ensures st.inDegree[t] == Waiting(es, Elements(st.sorted), t) + Count([], t)
      ensures Paid(es, st.sorted, t) == 0
    {
      WaitingFacts(es, Elements(st.sorted), t);
      NothingPaid(es, t);
    }
  }

  lemma FreshQueued(steps: seq<Step>, st: State) returns (slots: seq<Slot>)
    requires Fresh(steps, st)
    ensures Queued(steps, st, slots)
  {
    assert st.Seen() == st.queue;
    slots := RootsSlotted(steps, |steps|);
    assert Tools(steps)[..|steps|] == Tools(steps);
    forall j | 0 <= j < |slots| ensures SlotOk(steps, st.Seen(), st.Seen()[j], slots[j]) {
      assert st.Seen()[..0] == [];
    }
  }

  lemma Initial(steps: seq<Step>, st: State) returns (slots: seq<Slot>)
    requires Fresh(steps, st)
    ensures Between(steps, st, slots)
  {
    FreshCounted(steps, st);
    FreshLoose(steps, st);
    slots := FreshQueued(steps, st);
  }

  // ----- the whole run

  lemma {:induction false} ReleaseEachNext(st: State, cs: seq<string>, m: nat)
    requires m < |cs|
    ensures ReleaseEach(st, cs[m..]) == ReleaseEach(ReleaseOne(st, cs[m]), cs[m + 1..])
  {
    assert cs[m..][1..] == cs[m + 1..];
  }

  lemma {:induction false} ReleaseKeepsSorted(st: State, cs: seq<string>)
    ensures ReleaseEach(st, cs).sorted == st.sorted
    decreases |cs|
  {
    if cs != [] {
      ReleaseKeepsSorted(ReleaseOne(st, cs[0]), cs[1..]);
    }
  }

  lemma {:induction false} ReleaseRest(steps: seq<Step>, st: State, slots: seq<Slot>, base: nat, m: nat)
    returns (slots': seq<Slot>)
    requires During(steps, st, slots, base, m)
    ensures Between(steps, ReleaseEach(st, Dependents(Edges(steps), st.sorted[|st.sorted| - 1])[m..]), slots')
    decreases |Dependents(Edges(steps), st.sorted[|st.sorted| - 1])| - m
  {
    var cs := Dependents(Edges(steps), st.sorted[|st.sorted| - 1]);
    slots' := slots;
    if m == |cs| {
      AllReleased(steps, st, slots, base);
      assert cs[m..] == [];
    } else {
      slots' := ReleaseChild(steps, st, slots, base, m);
      slots' := ReleaseRest(steps, ReleaseOne(st, cs[m]), slots', base, m + 1);
      ReleaseEachNext(st, cs, m);
    }
  }

  lemma TurnKeeps(steps: seq<Step>, st: State, slots: seq<Slot>) returns (slots': seq<Slot>)
    requires Between(steps, st, slots) && st.queue != []
    ensures Between(steps, Turn(Edges(steps), st), slots')
    ensures Turn(Edges(steps), st).sorted == st.sorted + [st.queue[0]]
  {
    Pop(steps, st, slots);
    slots' := ReleaseRest(steps, PopFront(st), slots, |slots|, 0);
    var cs := Dependents(Edges(steps), st.queue[0]);
    assert cs[0..] == cs;
    ReleaseKeepsSorted(PopFront(st), cs);
  }

  lemma {:induction false} DrainKeeps(steps: seq<Step>, st: State, slots: seq<Slot>, n: nat) returns (slots': seq<Slot>)
    requires Between(steps, st, slots)
    ensures var end := DrainAll(Edges(steps), st, n);
      Between(steps, end, slots') && (end.queue != [] ==> |end.sorted| == |st.sorted| + n)
    decreases n
  {
    slots' := slots;
    if st.queue != [] && n > 0 {
      slots' := TurnKeeps(steps, st, slots);
      slots' := DrainKeeps(steps, Turn(Edges(steps), st), slots', n - 1);
    }
  }

  lemma FinalKeeps(steps: seq<Step>) returns (slots: seq<Slot>)
    ensures Between(steps, FinalState(steps), slots) && FinalState(steps).queue == []
  {
    slots := Initial(steps, StartState(steps));
    slots := DrainKeeps(steps, StartState(steps), slots, |steps|);
    CountedBound(Tools(steps), Edges(steps), FinalState(steps));
  }

  lemma {:induction false} DrainSplit(es: seq<Edge>, st: State, a: nat, b: nat)
    ensures DrainAll(es, st, a + b) == DrainAll(es, DrainAll(es, st, a), b)
    decreases a
  {
    if st.queue != [] && a > 0 {
      DrainSplit(es, Turn(es, st), a - 1, b);
    }
  }

  function StateAfter(steps: seq<Step>, n: nat): State {
    DrainAll(Edges(steps), StartState(steps), n)
  }

  lemma {:induction false} AfterOneMore(steps: seq<Step>, n: nat)
    requires StateAfter(steps, n).queue != []
    ensures StateAfter(steps, n + 1) == Turn(Edges(steps), StateAfter(steps, n))
  {
    var next := Turn(Edges(steps), StateAfter(steps, n));
    DrainSplit(Edges(steps), StartState(steps), n, 1);
    assert DrainAll(Edges(steps), next, 0) == next;
  }

  lemma AfterLast(steps: seq<Step>, n: nat)
    requires n <= |steps| && StateAfter(steps, n).queue == []
    ensures StateAfter(steps, n) == FinalState(steps)
  {
    DrainSplit(Edges(steps), StartState(steps), n, |steps| - n);
  }

  lemma {:induction false} RoomAfter(steps: seq<Step>, n: nat)
    requires StateAfter(steps, n).queue != []
    ensures n < |steps| && StateAfter(steps, n).queue[0] in Tools(steps)
    ensures forall c :: c in Dependents(Edges(steps), StateAfter(steps, n).queue[0]) ==>
      c in StateAfter(steps, n).inDegree
  {
    var slots := Initial(steps, StartState(steps));
    slots := DrainKeeps(steps, StartState(steps), slots, n);
    RoomForTurn(steps, StateAfter(steps, n), slots);
  }

  lemma {:induction false} RoomForTurn(steps: seq<Step>, st: State, slots: seq<Slot>)
    requires Between(steps, st, slots) && st.queue != []
    ensures |st.sorted| < |steps| && st.queue[0] in Tools(steps)
    ensures forall c :: c in Dependents(Edges(steps), st.queue[0]) ==> c in st.inDegree
  {
    CountedBound(Tools(steps), Edges(steps), st);
    assert st.Seen()[|st.sorted|] == st.queue[0];
    DependentsKnown(steps, st.queue[0]);
  }

  // ----- what the final state says

  lemma {:induction false} ReleaseIsLastPosition(names: seq<string>, deps: seq<string>, release: int)
    requires Distinct(names) && -1 <= release < |names| && ReleasedBy(deps, names[..release + 1])
    ensures LastPosition(names, deps) == release
  {
    LastPositionFacts(names, deps);
    forall k | 0 <= k < |deps| ensures IndexOf(names, deps[k]) <= release {
      assert deps[k] in names[..release + 1];
      var i :| 0 <= i < release + 1 && names[..release + 1][i] == deps[k];
      IndexOfDistinct(names, i);
    }
    if release >= 0 {
      assert names[..release + 1][release] == names[release];
      var k :| 0 <= k < |deps| && deps[k] == names[release];
      IndexOfDistinct(names, release);
    } else {
      assert names[..0] == [];
    }
  }

  lemma FinalOrder(steps: seq<Step>, st: State, slots: seq<Slot>, order: seq<Step>)
    requires DistinctTools(steps) && Between(steps, st, slots) && st.queue == []
    requires |order| == |st.sorted|
    requires forall j :: 0 <= j < |order| ==> order[j] in steps && order[j].tool == st.sorted[j]
    ensures Tools(order) == st.sorted && Distinct(Tools(order))
    ensures FirstComeFirstServed(steps, order)
  {
    var names := Tools(order);
    assert names == st.sorted == st.Seen();
    CountedDistinct(Tools(steps), Edges(steps), st);
    forall j | 0 <= j < |order|
      ensures order[j] == steps[slots[j].index] && IndexOf(Tools(steps), order[j].tool) == slots[j].index
      ensures LastPosition(names, order[j].dependsOn) == slots[j].release
    {
      SlotMeans(steps, names, order[j], slots[j], j);
    }
  }

  /** What the slot of the `j`-th sorted name says about the step put there. */
  lemma {:induction false} SlotMeans(steps: seq<Step>, names: seq<string>, s: Step, slot: Slot, j: nat)
    requires DistinctTools(steps) && Distinct(names) && j < |names| && s in steps && s.tool == names[j]
    requires SlotOk(steps, names, names[j], slot)
    ensures s == steps[slot.index] && IndexOf(Tools(steps), s.tool) == slot.index
    ensures LastPosition(names, s.dependsOn) == slot.release
  {
    var i :| 0 <= i < |steps| && steps[i] == s;
    assert Tools(steps)[i] == Tools(steps)[slot.index];
    IndexOfDistinct(Tools(steps), i);
    ReleaseIsLastPosition(names, s.dependsOn, slot.release);
  }

  lemma AllNamesSorted(names: seq<string>, es: seq<Edge>, st: State)
    requires Counted(names, es, st) && st.queue == [] && |st.sorted| == |names|
    ensures multiset(st.sorted) == multiset(names)
  {
    CountedBound(names, es, st);
    assert st.Seen() == st.sorted;
    FullSubMultiset(multiset(st.sorted), multiset(names));
  }

  lemma NameSorted(names: seq<string>, es: seq<Edge>, st: State, t: string)
    requires Counted(names, es, st) && st.queue == [] && |st.sorted| == |names| && t in names
    ensures t in st.sorted
  {
    AllNamesSorted(names, es, st);
    assert t in multiset(names);
  }

  /** Some tool name occurs twice and one of its steps has a dependency. */
  ghost predicate RepeatedDependent(steps: seq<Step>) {
    exists i :: 0 <= i < |steps| && steps[i].dependsOn != [] && Count(Tools(steps), steps[i].tool) >= 2
  }

  lemma {:induction false} HasIncomingEdge(steps: seq<Step>, i: nat)
    requires i < |steps| && steps[i].dependsOn != []
    ensures InDegree(Edges(steps), steps[i].tool) > 0
  {
    EdgesOf(steps, Edge(steps[i].dependsOn[0], steps[i].tool));
    WaitingFacts(Edges(steps), {}, steps[i].tool);
  }

  lemma {:induction false} RepeatedDependentFallsShort(steps: seq<Step>, st: State)
    requires RepeatedDependent(steps) && Counted(Tools(steps), Edges(steps), st) && st.queue == []
    ensures |st.sorted| != |steps|
  {
    var i :| 0 <= i < |steps| && steps[i].dependsOn != [] && Count(Tools(steps), steps[i].tool) >= 2;
    var names, t := Tools(steps), steps[i].tool;
    assert names[i] == t;
    assert st.Seen() == st.sorted;
    HasIncomingEdge(steps, i);
    assert t in names && Count(st.sorted, t) <= 1;
    CountIsMultiset(st.sorted, t);
    CountIsMultiset(names, t);
    if |st.sorted| == |steps| {
      AllNamesSorted(names, Edges(steps), st);
    }
  }

  /** What is left when the queue runs dry is starved. */
  lemma {:induction false} LeftoverStarved(steps: seq<Step>, st: State, left: set<string>)
    requires Counted(Tools(steps), Edges(steps), st) && Balanced(Edges(steps), st, [])
    requires st.queue == [] && left == (set t | t in Tools(steps) && t !in st.sorted) && left != {}
    ensures Starved(steps, left)
  {
    var runs := Runs(steps, left);
    assert st.Seen() == st.sorted;
    forall p ensures RunsOf(runs, p) <= Count(st.sorted, p) {
      CountPositive(st.sorted, p);
    }
    forall t | t in left ensures Supply(Edges(steps), runs, t) < InDegree(Edges(steps), t) {
      CountPositive(st.sorted, t);
      CountPositive(Tools(steps), t);
      SupplyWithinPaid(Edges(steps), st.sorted, runs, t);
    }
  }

  /** Starved names depend on each other in a circle. */
  lemma StarvedHasCycle(steps: seq<Step>, left: set<string>)
    requires KnownDependencies(steps) && Starved(steps, left)
    ensures !Graphs.Acyclic(DependencyGraph(steps))
  {
    var g := DependencyGraph(steps);
    forall t | t in left ensures Graphs.Continues(g, left, t) {
      StarvedDepends(steps, left, t);
    }
    var start :| start in left;
    Graphs.StuckHasCycle(g, left, start);
  }

  lemma StarvedDepends(steps: seq<Step>, left: set<string>, t: string)
    requires KnownDependencies(steps) && Starved(steps, left) && t in left
    ensures exists y :: y in DependencyGraph(steps)[t] && y in left
  {
    var runs, es := Runs(steps, left), Edges(steps);
    if forall e :: e in es && e.tool == t ==> RunsOf(runs, e.dep) >= 1 {
      SupplyMeetsAll(es, runs, t);
      assert false;
    }
    var e :| e in es && e.tool == t && RunsOf(runs, e.dep) == 0;
    EdgesOf(steps, e);
    var i, k :| 0 <= i < |steps| && 0 <= k < |steps[i].dependsOn| && e == Edge(steps[i].dependsOn[k], steps[i].tool);
    assert e.dep in DependencyGraph(steps)[t];
    CountPositive(Tools(steps), e.dep);
  }

  /** When the queue runs dry early, the names left over depend on each other in a circle. */
  lemma {:induction false} LeftoverHasCycle(steps: seq<Step>, st: State)
    requires !RepeatedDependent(steps) && KnownDependencies(steps)
    requires Counted(Tools(steps), Edges(steps), st) && Balanced(Edges(steps), st, [])
    requires st.queue == [] && |st.sorted| != |steps|
    ensures !Graphs.Acyclic(DependencyGraph(steps))
    ensures exists left :: Starved(steps, left)
  {
    var left := set t | t in Tools(steps) && t !in st.sorted;
    SomethingLeft(steps, st);
    var start :| start in Tools(steps) && start !in st.sorted;
    assert start in left;
    LeftoverStarved(steps, st, left);
    StarvedHasCycle(steps, left);
  }

  lemma {:induction false} RepeatedWhen(steps: seq<Step>, t: string)
    requires Count(Tools(steps), t) >= 2 && InDegree(Edges(steps), t) > 0
    ensures RepeatedDependent(steps)
  {
    WaitingFacts(Edges(steps), {}, t);
    var e :| e in Edges(steps) && e.tool == t;
    EdgesOf(steps, e);
  }

  lemma {:induction false} SomethingLeft(steps: seq<Step>, st: State)
    requires !RepeatedDependent(steps) && Counted(Tools(steps), Edges(steps), st)
    requires st.queue == [] && |st.sorted| != |steps|
    ensures exists t :: t in Tools(steps) && t !in st.sorted
  {
    var names := Tools(steps);
    CountedBound(names, Edges(steps), st);
    assert st.Seen() == st.sorted;
    if forall t :: t in names ==> t in st.sorted {
      forall t ensures multiset(names)[t] <= multiset(st.sorted)[t] {
        CountIsMultiset(names, t);
        CountIsMultiset(st.sorted, t);
        CountPositive(names, t);
        CountPositive(st.sorted, t);
        if InDegree(Edges(steps), t) > 0 && Count(names, t) >= 2 {
          RepeatedWhen(steps, t);
        }
      }
      SubMultisetCard(multiset(names), multiset(st.sorted));
    }
  }

  /** Steps chosen for grounded names run after the steps they depend on. */
  lemma {:induction false} GroundedRespects(steps: seq<Step>, sorted: seq<string>, order: seq<Step>)
    requires Grounded(Edges(steps), sorted) && |order| == |sorted|
    requires forall j :: 0 <= j < |order| ==> order[j] in steps && order[j].tool == sorted[j]
    ensures RespectsDependencies(order)
  {
    forall j, k | 0 <= j < |order| && 0 <= k < |order[j].dependsOn| ensures order[j].dependsOn[k] in Tools(order[..j]) {
      var e := Edge(order[j].dependsOn[k], order[j].tool);
      var i :| 0 <= i < |steps| && steps[i] == order[j];
      EdgesOf(steps, e);
      assert e in Edges(steps) && e.tool == sorted[j];
      assert Tools(order[..j]) == sorted[..j];
    }
  }

  lemma {:induction false} GroundedAcyclic(steps: seq<Step>, sorted: seq<string>)
    requires Grounded(Edges(steps), sorted) && forall t :: t in Tools(steps) ==> t in sorted
    ensures Graphs.Acyclic(DependencyGraph(steps))
  {
    var g, es := DependencyGraph(steps), Edges(steps);
    var rank: map<string, int> := map t | t in sorted :: IndexOf(sorted, t);
    forall x, y | x in g && y in g[x] ensures Graphs.Falls(rank, x, y) {
      EdgesOf(steps, Edge(y, x));
      var j := IndexOf(sorted, x);
      assert Edge(y, x) in es && sorted[j] == x;
      assert y in sorted[..j] && sorted == sorted[..j] + sorted[j..];
      IndexOfExtend(sorted[..j], sorted[j..], y);
    }
    Graphs.RankedIsAcyclic(g, rank);
  }

  // ----- theorems about execution orders

  lemma {:induction false} DependencyRunsEarlier(steps: seq<Step>, order: seq<Step>, x: string, y: string)
    requires Distinct(Tools(order)) && RespectsDependencies(order) && multiset(order) == multiset(steps)
    requires x in Tools(steps) && y in DependencyGraph(steps)[x]
    ensures x in Tools(order) && y in Tools(order) && IndexOf(Tools(order), y) < IndexOf(Tools(order), x)
  {
    var i, k :| 0 <= i < |steps| && steps[i].tool == x && 0 <= k < |steps[i].dependsOn| && steps[i].dependsOn[k] == y;
    assert steps[i] in multiset(order);
    var j :| 0 <= j < |order| && order[j] == steps[i];
    assert Tools(order)[j] == x;
    IndexOfDistinct(Tools(order), j);
    EarlierPosition(order, j, k);
  }

  /** A plan that can be ordered has no dependency cycle. */
  lemma OrderExcludesCycles(steps: seq<Step>, order: seq<Step>)
    requires Distinct(Tools(order)) && RespectsDependencies(order)
    requires multiset(order) == multiset(steps)
    ensures Graphs.Acyclic(DependencyGraph(steps))
  {
    var g, names := DependencyGraph(steps), Tools(order);
    var rank: map<string, int> := map t | t in names :: IndexOf(names, t);
    forall x, y | x in g && y in g[x] ensures Graphs.Falls(rank, x, y) {
      DependencyRunsEarlier(steps, order, x, y);
    }
    Graphs.RankedIsAcyclic(g, rank);
  }

  /** `c` lists steps' positions in `order`, each step depending on the tool before it. */
  ghost predicate DependencyChain(order: seq<Step>, c: seq<nat>) {
    && |c| > 0
    && (forall i :: 0 <= i < |c| ==> c[i] < |order|)
    && (forall i :: 0 <= i < |c| - 1 ==> order[c[i]].tool in order[c[i + 1]].dependsOn)
  }

  lemma NeverBackwards(input: seq<Step>, order: seq<Step>, i: nat, j: nat)
    requires FirstComeFirstServed(input, order) && i <= j < |order|
    ensures LastPosition(Tools(order), order[i].dependsOn) <= LastPosition(Tools(order), order[j].dependsOn)
  {
    if i < j {
      assert Precedes(input, order, i, j);
    }
  }

  /** The longest chain of dependencies ending in a step never gets shorter along the order. */
  lemma {:induction false} DepthNeverFalls(input: seq<Step>, order: seq<Step>, i: nat, j: nat, c: seq<nat>)
    returns (d: seq<nat>)
    requires Distinct(Tools(order)) && RespectsDependencies(order) && FirstComeFirstServed(input, order)
    requires i <= j < |order| && DependencyChain(order, c) && c[|c| - 1] == i
    ensures DependencyChain(order, d) && d[|d| - 1] == j && |d| >= |c|
    decreases i
  {
    if |c| == 1 {
      d := [j];
    } else {
      var p := c[|c| - 2];
      var q := LaterDependency(input, order, p, i, j);
      d := DepthNeverFalls(input, order, p, q, c[..|c| - 1]);
      d := d + [j];
    }
  }

  /** A later step has a dependency at least as late as any dependency of an earlier step. */
  lemma LaterDependency(input: seq<Step>, order: seq<Step>, p: nat, i: nat, j: nat) returns (q: nat)
    requires Distinct(Tools(order)) && RespectsDependencies(order) && FirstComeFirstServed(input, order)
    requires i <= j < |order| && p < |order| && order[p].tool in order[i].dependsOn
    ensures p <= q < j && p < i && order[q].tool in order[j].dependsOn
  {
    var names := Tools(order);
    var k :| 0 <= k < |order[i].dependsOn| && order[i].dependsOn[k] == names[p];
    IndexOfDistinct(names, p);
    EarlierPosition(order, i, k);
    LastPositionFacts(names, order[i].dependsOn);
    NeverBackwards(input, order, i, j);
    LastPositionFacts(names, order[j].dependsOn);
    var last := LastPosition(names, order[j].dependsOn);
    assert order[j].dependsOn != [];
    var m :| 0 <= m < |order[j].dependsOn| && IndexOf(names, order[j].dependsOn[m]) == last;
    EarlierPosition(order, j, m);
    q := last;
  }

  lemma EarlierPosition(order: seq<Step>, j: nat, k: nat)
    requires Distinct(Tools(order)) && RespectsDependencies(order)
    requires j < |order| && k < |order[j].dependsOn|
    ensures IndexOf(Tools(order), order[j].dependsOn[k]) < j
    ensures IndexOf(Tools(order), order[j].dependsOn[k]) == IndexOf(Tools(order[..j]), order[j].dependsOn[k])
    ensures Tools(order)[IndexOf(Tools(order), order[j].dependsOn[k])] == order[j].dependsOn[k]
  {
    assert Tools(order) == Tools(order[..j]) + Tools(order[j..]);
    assert order[j].dependsOn[k] in Tools(order[..j]);
    IndexOfExtend(Tools(order[..j]), Tools(order[j..]), order[j].dependsOn[k]);
  }

  lemma {:induction false} SamePositions(a: seq<string>, b: seq<string>, n: nat, deps: seq<string>)
    requires n <= |a| && n <= |b| && a[..n] == b[..n]
    requires forall k :: 0 <= k < |deps| ==> deps[k] in a[..n]
    ensures LastPosition(a, deps) == LastPosition(b, deps)
  {
    if deps != [] {
      var d := deps[|deps| - 1];
      SamePositions(a, b, n, deps[..|deps| - 1]);
      assert a == a[..n] + a[n..] && b == b[..n] + b[n..];
      IndexOfExtend(a[..n], a[n..], d);
      IndexOfExtend(b[..n], b[n..], d);
    }
  }

  /** Where `x` sits in a permutation that agrees with another on the first `n` places. */
  lemma LaterPlace(a: seq<Step>, b: seq<Step>, n: nat) returns (k: nat)
    requires multiset(a) == multiset(b) && Distinct(Tools(a)) && n < |a| && n <= |b| && a[..n] == b[..n]
    ensures n <= k < |b| && b[k] == a[n]
  {
    assert a[n] in multiset(b);
    assert forall i :: 0 <= i < n ==> a[..n][i] == b[..n][i] && Tools(a)[i] != Tools(a)[n];
    k :| 0 <= k < |b| && b[k] == a[n];
  }

  lemma SameKey(input: seq<Step>, a: seq<Step>, b: seq<Step>, n: nat, i: nat, j: nat)
    requires RespectsDependencies(a) && RespectsDependencies(b)
    requires n <= |a| && n <= |b| && a[..n] == b[..n]
    requires i < |a| && j < |b| && a[i] == b[j] && (i == n || j == n)
    ensures LastPosition(Tools(a), a[i].dependsOn) == LastPosition(Tools(b), b[j].dependsOn)
  {
    var deps := a[i].dependsOn;
    assert Tools(a)[..n] == Tools(a[..n]) == Tools(b[..n]) == Tools(b)[..n];
    forall k | 0 <= k < |deps| ensures deps[k] in Tools(a)[..n] {
      if i == n {
        assert a[i].dependsOn[k] in Tools(a[..i]);
      } else {
        assert b[j].dependsOn[k] in Tools(b[..j]);
      }
    }
    SamePositions(Tools(a), Tools(b), n, deps);
  }

  /** The order is fully determined: two orders of one plan that both respect the
      dependencies and the first-come rule are the same. */
  lemma {:induction false} OrderIsUnique(input: seq<Step>, a: seq<Step>, b: seq<Step>, n: nat)
    requires multiset(a) == multiset(b) && Distinct(Tools(a)) && Distinct(Tools(b))
    requires RespectsDependencies(a) && RespectsDependencies(b)
    requires FirstComeFirstServed(input, a) && FirstComeFirstServed(input, b)
    requires n <= |a|
    ensures |a| == |b| && a[..n] == b[..n]
  {
    assert |multiset(a)| == |a| && |multiset(b)| == |b|;
    if n > 0 {
      var m := n - 1;
      OrderIsUnique(input, a, b, m);
      var k := LaterPlace(a, b, m);
      var l := LaterPlace(b, a, m);
      SameKey(input, a, b, m, m, k);
      SameKey(input, a, b, m, l, m);
      assert k != m ==> Precedes(input, b, m, k);
      assert l != m ==> Precedes(input, a, m, l);
      assert a[..n] == a[..m] + [a[m]] && b[..n] == b[..m] + [b[m]];
    }
  }

  /** Without dependencies the input order is kept. */
  lemma NoDependenciesKeepsOrder(steps: seq<Step>, order: seq<Step>)
    requires DistinctTools(steps) && Distinct(Tools(order)) && multiset(order) == multiset(steps)
    requires forall s :: s in steps ==> s.dependsOn == []
    requires FirstComeFirstServed(steps, order)
    ensures order == steps
  {
    forall s | s in order ensures s.dependsOn == [] {
      assert s in multiset(steps);
    }
    forall i, j | 0 <= i < j < |steps| ensures Precedes(steps, steps, i, j) {
      IndexOfDistinct(Tools(steps), i);
      IndexOfDistinct(Tools(steps), j);
    }
    OrderIsUnique(steps, order, steps, |order|);
    assert order[..|order|] == order && steps[..|order|] == steps;
  }

  ghost predicate SameNameSameStep(steps: seq<Step>) {
    forall i, j :: 0 <= i < |steps| && 0 <= j < |steps| && steps[i].tool == steps[j].tool ==> steps[i] == steps[j]
  }

  lemma {:induction false} CountOfName(steps: seq<Step>, s: Step)
    requires forall x :: x in steps && x.tool == s.tool ==> x == s
    ensures multiset(steps)[s] == multiset(Tools(steps))[s.tool]
  {
    if steps != [] {
      var n := |steps| - 1;
      CountOfName(steps[..n], s);
      assert steps == steps[..n] + [steps[n]];
      assert Tools(steps) == Tools(steps[..n]) + [steps[n].tool];
    }
  }

  /** Looking steps up by name loses none of them exactly when steps of one name are equal. */
  lemma LookupLosesNothing(steps: seq<Step>, order: seq<Step>)
    requires multiset(Tools(order)) == multiset(Tools(steps)) && SameNameSameStep(order)
    requires forall s :: s in order ==> s in steps
    ensures multiset(order) == multiset(steps) <==> SameNameSameStep(steps)
  {
    if multiset(order) == multiset(steps) {
      forall i, j | 0 <= i < |steps| && 0 <= j < |steps| && steps[i].tool == steps[j].tool
        ensures steps[i] == steps[j]
      {
        assert steps[i] in multiset(order) && steps[j] in multiset(order);
      }
    }
    if SameNameSameStep(steps) {
      forall s ensures multiset(order)[s] == multiset(steps)[s] {
        if s in steps {
          CountOfName(steps, s);
          CountOfName(order, s);
        } else {
          assert s !in order;
        }
      }
    }
  }

  // ----- the method

  lemma EdgesPrefix(steps: seq<Step>, i: nat)
    requires i < |steps|
    ensures Edges(steps[..i + 1]) == Edges(steps[..i]) + StepEdges(steps[i])
  {
    assert steps[..i + 1][..i] == steps[..i];
  }

  ghost predicate Tallied(names: seq<string>, es: seq<Edge>, inDegree: map<string, int>,
                          dependents: map<string, seq<string>>) {
    && inDegree.Keys == Elements(names) && dependents.Keys == Elements(names)
    && (forall t :: t in inDegree ==> inDegree[t] == InDegree(es, t))
    && (forall t :: t in dependents ==> dependents[t] == Dependents(es, t))
  }

  /** In-degree and dependents of every tool, counted over the edges in order. */
  method CountDependencies(steps: seq<Step>) returns (inDegree: map<string, int>, dependents: map<string, seq<string>>)
    requires KnownDependencies(steps)
    ensures Tallied(Tools(steps), Edges(steps), inDegree, dependents)
  {
    inDegree := map t | t in Tools(steps) :: 0;
    dependents := map t | t in Tools(steps) :: [];
    for i := 0 to |steps|
      invariant Tallied(Tools(steps), Edges(steps[..i]), inDegree, dependents)
    {
      var s := steps[i];
      assert s.tool == Tools(steps)[i];
      inDegree, dependents := CountStep(Tools(steps), s, Edges(steps[..i]), inDegree, dependents);
      EdgesPrefix(steps, i);
    }
    assert steps[..|steps|] == steps;
  }

  method CountStep(names: seq<string>, s: Step, ghost es: seq<Edge>, inDegree0: map<string, int>,
                   dependents0: map<string, seq<string>>)
    returns (inDegree: map<string, int>, dependents: map<string, seq<string>>)
    requires Tallied(names, es, inDegree0, dependents0)
    requires s.tool in names && forall k :: 0 <= k < |s.dependsOn| ==> s.dependsOn[k] in names
    ensures Tallied(names, es + StepEdges(s), inDegree, dependents)
  {
    inDegree, dependents := inDegree0, dependents0;
    assert es + [] == es;
    for k := 0 to |s.dependsOn|
      invariant Tallied(names, es + StepEdges(s)[..k], inDegree, dependents)
    {
      inDegree, dependents := CountEdge(names, es + StepEdges(s)[..k], s.dependsOn[k], s.tool, inDegree, dependents);
      assert es + StepEdges(s)[..k + 1] == es + StepEdges(s)[..k] + [Edge(s.dependsOn[k], s.tool)];
    }
    assert StepEdges(s)[..|s.dependsOn|] == StepEdges(s);
  }

  method CountEdge(names: seq<string>, ghost es: seq<Edge>, dep: string, tool: string,
                   inDegree0: map<string, int>, dependents0: map<string, seq<string>>)
    returns (inDegree: map<string, int>, dependents: map<string, seq<string>>)
    requires Tallied(names, es, inDegree0, dependents0) && dep in names && tool in names
    ensures Tallied(names, es + [Edge(dep, tool)], inDegree, dependents)
  {
    assert tool in Elements(names) && dep in Elements(names);
    inDegree := inDegree0[tool := inDegree0[tool] + 1];
    dependents := dependents0[dep := dependents0[dep] + [tool]];
    TallyOne(es, Edge(dep, tool));
    assert inDegree.Keys == inDegree0.Keys && dependents.Keys == dependents0.Keys;
  }

  lemma {:induction false} TallyOne(es: seq<Edge>, e: Edge)
    ensures forall t :: InDegree(es + [e], t) == InDegree(es, t) + if e.tool == t then 1 else 0
    ensures forall t :: Dependents(es + [e], t) == Dependents(es, t) + if e.dep == t then [e.tool] else []
  {
    assert (es + [e])[..|es|] == es;
  }

  /** All names are known in the steps before the `i`-th, and in that one before its `k`-th dependency. */
  ghost predicate KnownUpTo(steps: seq<Step>, i: nat, k: nat)
    requires i < |steps| && k <= |steps[i].dependsOn|
  {
    && (forall j, m :: 0 <= j < i && 0 <= m < |steps[j].dependsOn| ==> steps[j].dependsOn[m] in Tools(steps))
    && (forall m :: 0 <= m < k ==> steps[i].dependsOn[m] in Tools(steps))
  }

  method FindUnknownDependency(steps: seq<Step>) returns (e: Option<PlanError>)
    ensures e.None? <==> KnownDependencies(steps)
    ensures e.Some? ==> e.value.UnknownDependency? && e.value.dep !in Tools(steps)
    ensures e.Some? ==> exists i, k :: 0 <= i < |steps| && 0 <= k < |steps[i].dependsOn| &&
                                       e.value == UnknownDependency(steps[i].tool, steps[i].dependsOn[k]) &&
                                       KnownUpTo(steps, i, k)
  {
    for i := 0 to |steps|
      invariant forall j, k :: 0 <= j < i && 0 <= k < |steps[j].dependsOn| ==> steps[j].dependsOn[k] in Tools(steps)
    {
      for k := 0 to |steps[i].dependsOn|
        invariant forall m :: 0 <= m < k ==> steps[i].dependsOn[m] in Tools(steps)
      {
        if steps[i].dependsOn[k] !in Tools(steps) {
          return Some(UnknownDependency(steps[i].tool, steps[i].dependsOn[k]));
        }
      }
    }
    return None;
  }

  method IndexByTool(steps: seq<Step>) returns (byTool: map<string, Step>)
    ensures byTool.Keys == Elements(Tools(steps))
    ensures forall t :: t in byTool ==> byTool[t] == LastOf(steps, t)
  {
    byTool := map[];
    for i := 0 to |steps|
      invariant byTool.Keys == Elements(Tools(steps[..i]))
      invariant forall t :: t in byTool ==> byTool[t] == LastOf(steps[..i], t)
    {
      assert steps[..i + 1][..i] == steps[..i];
      assert Tools(steps[..i + 1]) == Tools(steps[..i]) + [steps[i].tool];
      byTool := byTool[steps[i].tool := steps[i]];
    }
    assert steps[..|steps|] == steps;
  }

  /** A name stands for the last step of that name. */
  lemma {:induction false} LastOfHolds(steps: seq<Step>, t: string)
    requires t in Tools(steps)
    ensures LastOf(steps, t) in steps && LastOf(steps, t).tool == t
    ensures exists i :: 0 <= i < |steps| && LastOf(steps, t) == steps[i] && IsLast(steps, t, i)
  {
    var n := |steps| - 1;
    if steps[n].tool != t {
      assert Tools(steps) == Tools(steps[..n]) + [steps[n].tool];
      LastOfHolds(steps[..n], t);
      var i :| 0 <= i < n && LastOf(steps[..n], t) == steps[..n][i] && IsLast(steps[..n], t, i);
      assert forall j :: i < j < n ==> steps[j] == steps[..n][j];
      assert steps[i] == steps[..n][i] && IsLast(steps, t, i);
    } else {
      assert IsLast(steps, t, n);
    }
  }

  ghost predicate IsLast(steps: seq<Step>, t: string, i: int)
    requires 0 <= i < |steps|
  {
    steps[i].tool == t && forall j :: i < j < |steps| ==> steps[j].tool != t
  }

  /** Each step of the order is the last one of its name among the steps. */
  ghost predicate LastOfEach(steps: seq<Step>, order: seq<Step>) {
    forall j :: 0 <= j < |order| ==>
      exists i :: 0 <= i < |steps| && order[j] == steps[i] && IsLast(steps, order[j].tool, i)
  }

  lemma {:induction false} ChosenAreLast(steps: seq<Step>, order: seq<Step>)
    requires Chosen(steps, order)
    ensures LastOfEach(steps, order)
  {
    forall j | 0 <= j < |order|
      ensures exists i :: 0 <= i < |steps| && order[j] == steps[i] && IsLast(steps, order[j].tool, i)
    {
      LastOfHolds(steps, order[j].tool);
    }
  }

  method FindRoots(steps: seq<Step>, inDegree: map<string, int>) returns (queue: seq<string>)
    requires inDegree.Keys == Elements(Tools(steps))
    requires forall t :: t in inDegree ==> inDegree[t] == InDegree(Edges(steps), t)
    ensures queue == Roots(Tools(steps), Edges(steps))
  {
    queue := [];
    for i := 0 to |steps|
      invariant queue == Roots(Tools(steps)[..i], Edges(steps))
    {
      assert Tools(steps)[..i + 1][..i] == Tools(steps)[..i];
      assert Tools(steps)[i] == steps[i].tool;
      if inDegree[steps[i].tool] == 0 {
        queue := queue + [steps[i].tool];
      }
    }
    assert Tools(steps)[..|steps|] == Tools(steps);
  }

  ghost predicate FaithfulOrder(steps: seq<Step>, order: seq<Step>) {
    && multiset(order) == multiset(steps) && Distinct(Tools(order))
    && RespectsDependencies(order) && FirstComeFirstServed(steps, order)
  }

  lemma Conclude(steps: seq<Step>, order: seq<Step>)
    requires Chosen(steps, order) && |order| == |steps|
    ensures multiset(Tools(order)) == multiset(Tools(steps))
    ensures multiset(order) == multiset(steps) <==> SameNameSameStep(steps)
    ensures !SharedDependency(steps) ==> RespectsDependencies(order) && Graphs.Acyclic(DependencyGraph(steps))
    ensures DistinctTools(steps) ==> FaithfulOrder(steps, order)
  {
    var st := FinalState(steps);
    var slots := FinalKeeps(steps);
    AllNamesSorted(Tools(steps), Edges(steps), st);
    assert st.Seen() == st.sorted;
    forall j | 0 <= j < |order| ensures order[j] in steps && order[j].tool == st.sorted[j] {
      assert Tools(order)[j] == order[j].tool;
      LastOfHolds(steps, order[j].tool);
    }
    LookupLosesNothing(steps, order);
    if !SharedDependency(steps) {
      GroundedRespects(steps, st.sorted, order);
      AllSortedAcyclic(steps, st);
    }
    if DistinctTools(steps) {
      FinalOrder(steps, st, slots, order);
      SameNameForDistinct(steps);
      DistinctSharesNothing(steps);
    }
  }

  lemma SameNameForDistinct(steps: seq<Step>)
    requires DistinctTools(steps)
    ensures SameNameSameStep(steps)
  {
    forall i, j | 0 <= i < |steps| && 0 <= j < |steps| && steps[i].tool == steps[j].tool ensures i == j {
      assert Tools(steps)[i] == Tools(steps)[j];
    }
  }

  /** Release every dependent of the name sorted last. */
  method ReleaseDependents(ghost sorted: seq<string>, children: seq<string>,
                           inDegree0: map<string, int>, queue0: seq<string>)
    returns (inDegree: map<string, int>, queue: seq<string>)
    requires forall c :: c in children ==> c in inDegree0
    ensures State(inDegree, queue, sorted) == ReleaseEach(State(inDegree0, queue0, sorted), children)
  {
    inDegree, queue := inDegree0, queue0;
    ghost var end := ReleaseEach(State(inDegree0, queue0, sorted), children);
    assert children[0..] == children;
    for m := 0 to |children|
      invariant inDegree.Keys == inDegree0.Keys
      invariant ReleaseEach(State(inDegree, queue, sorted), children[m..]) == end
    {
      var child := children[m];
      assert children[m..][0] == child && children[m..][1..] == children[m + 1..];
      inDegree := inDegree[child := inDegree[child] - 1];
      if inDegree[child] == 0 {
        queue := queue + [child];
      }
    }
  }

  method TakeTurn(ghost es: seq<Edge>, dependents: map<string, seq<string>>, sorted0: seq<string>,
                  inDegree0: map<string, int>, queue0: seq<string>)
    returns (sorted: seq<string>, inDegree: map<string, int>, queue: seq<string>)
    requires queue0 != [] && queue0[0] in dependents && dependents[queue0[0]] == Dependents(es, queue0[0])
    requires forall c :: c in Dependents(es, queue0[0]) ==> c in inDegree0
    ensures State(inDegree, queue, sorted) == Turn(es, State(inDegree0, queue0, sorted0))
    ensures |sorted| == |sorted0| + 1
  {
    sorted := sorted0 + [queue0[0]];
    inDegree, queue := ReleaseDependents(sorted, dependents[queue0[0]], inDegree0, queue0[1..]);
  }

  /** The main loop: names in the order in which they leave the queue. */
  method Drain(steps: seq<Step>, inDegree0: map<string, int>, dependents: map<string, seq<string>>, queue0: seq<string>)
    returns (sorted: seq<string>)
    requires Tallied(Tools(steps), Edges(steps), inDegree0, dependents)
    requires queue0 == Roots(Tools(steps), Edges(steps))
    ensures sorted == SortedNames(steps)
  {
    var inDegree, queue := inDegree0, queue0;
    sorted := [];
    assert State(inDegree, queue, sorted) == StartState(steps);
    while queue != []
      invariant |sorted| <= |steps|
      invariant State(inDegree, queue, sorted) == StateAfter(steps, |sorted|)
      decreases |steps| - |sorted|
    {
      RoomAfter(steps, |sorted|);
      AfterOneMore(steps, |sorted|);
      sorted, inDegree, queue := TakeTurn(Edges(steps), dependents, sorted, inDegree, queue);
    }
    AfterLast(steps, |sorted|);
  }

  method LookUp(ghost steps: seq<Step>, byTool: map<string, Step>, sorted: seq<string>) returns (order: seq<Step>)
    requires byTool.Keys == Elements(Tools(steps)) && forall t :: t in byTool ==> byTool[t] == LastOf(steps, t)
    requires sorted == SortedNames(steps)
    ensures Chosen(steps, order) && |order| == |sorted|
  {
    NamesAreKnown(steps);
    order := seq(|sorted|, j requires 0 <= j < |sorted| => byTool[sorted[j]]);
    forall j | 0 <= j < |sorted| ensures order[j].tool == sorted[j] {
      LastOfHolds(steps, sorted[j]);
    }
    assert Tools(order) == sorted;
  }

  /** `_topological_sort`. Total: repeated tool names are not excluded. */
  method Sort(steps: seq<Step>) returns (r: Result<seq<Step>, PlanError>)
    ensures r.Failure? && r.error.UnknownDependency? <==> !KnownDependencies(steps)
    ensures r.Success? <==>
      KnownDependencies(steps) && !RepeatedDependent(steps) && !exists left :: Starved(steps, left)
    ensures KnownDependencies(steps) && Graphs.Acyclic(DependencyGraph(steps)) ==>
      (r.Success? <==> !RepeatedDependent(steps))
    ensures DistinctTools(steps) ==>
      (r.Success? <==> KnownDependencies(steps) && Graphs.Acyclic(DependencyGraph(steps)))
    ensures r.Success? ==> Chosen(steps, r.value)
    ensures r.Success? ==> LastOfEach(steps, r.value)
    ensures r.Success? && !SharedDependency(steps) ==>
      Graphs.Acyclic(DependencyGraph(steps)) && RespectsDependencies(r.value)
    ensures r.Success? && DistinctTools(steps) ==> FaithfulOrder(steps, r.value)
    ensures r.Success? ==> multiset(Tools(r.value)) == multiset(Tools(steps))
    ensures r.Success? ==> (multiset(r.value) == multiset(steps) <==> SameNameSameStep(steps))
  {
    var byTool := IndexByTool(steps);
    var unknown := FindUnknownDependency(steps);
    if unknown.Some? {
      return Failure(unknown.value);
    }
    var inDegree, dependents := CountDependencies(steps);
    var queue := FindRoots(steps, inDegree);
    var sorted := Drain(steps, inDegree, dependents, queue);
    Verdict(steps);
    if |sorted| != |steps| {
      return Failure(CycleDetected);
    }
    var order := LookUp(steps, byTool, sorted);
    ChosenAreLast(steps, order);
    Conclude(steps, order);
    return Success(order);
  }

  /** What the length test says. */
  lemma Verdict(steps: seq<Step>)
    requires KnownDependencies(steps)
    ensures |SortedNames(steps)| == |steps| <==> !RepeatedDependent(steps) && !exists left :: Starved(steps, left)
    ensures Graphs.Acyclic(DependencyGraph(steps)) ==> !exists left :: Starved(steps, left)
    ensures DistinctTools(steps) && |SortedNames(steps)| == |steps| ==> Graphs.Acyclic(DependencyGraph(steps))
    ensures DistinctTools(steps) ==> !RepeatedDependent(steps)
  {
    var st := FinalState(steps);
    var slots := FinalKeeps(steps);
    if RepeatedDependent(steps) {
      RepeatedDependentFallsShort(steps, st);
    } else if |st.sorted| != |steps| {
      LeftoverHasCycle(steps, st);
    }
    forall left | Starved(steps, left) ensures |st.sorted| != |steps| && !Graphs.Acyclic(DependencyGraph(steps)) {
      StarvedHasCycle(steps, left);
      StarvedFallsShort(steps, st, left);
    }
    if DistinctTools(steps) {
      DistinctSharesNothing(steps);
      if |st.sorted| == |steps| {
        AllSortedAcyclic(steps, st);
      }
    }
  }

  lemma {:induction false} StarvedFallsShort(steps: seq<Step>, st: State, left: set<string>)
    requires Counted(Tools(steps), Edges(steps), st) && Unfed(steps, st.Seen()) && st.queue == []
    requires Starved(steps, left)
    ensures |st.sorted| != |steps|
  {
    var t :| t in left;
    assert t in Tools(steps) && t !in st.Seen() && st.Seen() == st.sorted;
    if |st.sorted| == |steps| {
      NameSorted(Tools(steps), Edges(steps), st, t);
    }
  }

  lemma {:induction false} AllSortedAcyclic(steps: seq<Step>, st: State)
    requires Counted(Tools(steps), Edges(steps), st) && Loose(steps, st, []) && st.queue == []
    requires !SharedDependency(steps) && |st.sorted| == |steps|
    ensures Graphs.Acyclic(DependencyGraph(steps))
  {
    AllNamesSorted(Tools(steps), Edges(steps), st);
    assert st.Seen() == st.sorted;
    assert forall t :: t in Tools(steps) ==> t in multiset(st.sorted);
    GroundedAcyclic(steps, st.sorted);
  }

  lemma NamesAreKnown(steps: seq<Step>)
    ensures forall j :: 0 <= j < |SortedNames(steps)| ==> SortedNames(steps)[j] in Tools(steps)
  {
    var slots := FinalKeeps(steps);
    CountedInNames(Tools(steps), Edges(steps), FinalState(steps));
  }

  lemma {:induction false} CountedInNames(names: seq<string>, es: seq<Edge>, st: State)
    requires Counted(names, es, st)
    ensures forall j :: 0 <= j < |st.sorted| ==> st.sorted[j] in names
  {
    forall j | 0 <= j < |st.sorted| ensures st.sorted[j] in names {
      assert st.Seen()[j] == st.sorted[j];
      assert st.Seen()[j] in st.Seen();
    }
  }

  /** With repeated names the length test reports cycles that are not there. */
  lemma RepeatedNamesReportFalseCycle()
    ensures var steps := [Step("x", "a", []), Step("x", "b", ["a"]), Step("y", "b", ["a"])];
      KnownDependencies(steps) && Graphs.Acyclic(DependencyGraph(steps)) && RepeatedDependent(steps)
  {
    var steps := [Step("x", "a", []), Step("x", "b", ["a"]), Step("y", "b", ["a"])];
    var g, rank: map<string, int> := DependencyGraph(steps), map["a" := 0, "b" := 1];
    assert Tools(steps) == ["a", "b", "b"];
    forall x, y | x in g && y in g[x] ensures Graphs.Falls(rank, x, y) {
      var i, k :| 0 <= i < |steps| && steps[i].tool == x && 0 <= k < |steps[i].dependsOn| && steps[i].dependsOn[k] == y;
      assert i == 0 || i == 1 || i == 2;
    }
    Graphs.RankedIsAcyclic(g, rank);
    assert Tools(steps)[0] == "a";
    assert Count(["a", "b", "b"], "b") == 2;
    assert steps[1].tool == "b" && steps[1].dependsOn != [];
  }
}
