/** Walks and cycles in a finite graph given by successor sets. */
module Graphs {

  type Graph = map<string, set<string>>

  ghost predicate IsPath(g: Graph, p: seq<string>) {
    |p| > 0 && forall i :: 0 <= i < |p| - 1 ==> p[i] in g && p[i + 1] in g[p[i]]
  }

  ghost predicate IsCycle(g: Graph, c: seq<string>) {
    IsPath(g, c) && c[|c| - 1] in g && c[0] in g[c[|c| - 1]]
  }

  ghost predicate Acyclic(g: Graph) {
    forall c :: !IsCycle(g, c)
  }

  /** `p` leaves from `start`, stays in `nodes`, and either stops at an exit or closes a cycle. */
  ghost predicate Escapes(g: Graph, nodes: set<string>, exits: set<string>, start: string, p: seq<string>) {
    && IsPath(g, p) && p[0] == start
    && (forall i :: 0 <= i < |p| ==> p[i] in nodes)
    && (forall i :: 0 <= i < |p| - 1 ==> p[i] !in exits)
    && (p[|p| - 1] in exits || exists k :: 0 <= k < |p| && IsCycle(g, p[k..]))
  }

  ghost predicate Continues(g: Graph, nodes: set<string>, x: string) {
    x in g && exists y :: y in g[x] && y in nodes
  }

  /** Every node that is not an exit has a successor among the nodes. */
  ghost predicate NoDeadEnd(g: Graph, nodes: set<string>, exits: set<string>) {
    forall x {:trigger Continues(g, nodes, x)} :: x in nodes && x !in exits ==> Continues(g, nodes, x)
  }

  /** In a finite set of nodes where every non-exit has a successor in the set,
      each walk reaches an exit or runs into itself. */
  lemma {:induction false} WalkEscapes(g: Graph, nodes: set<string>, exits: set<string>, p: seq<string>)
    returns (q: seq<string>)
    requires NoDeadEnd(g, nodes, exits)
    requires IsPath(g, p) && forall i :: 0 <= i < |p| ==> p[i] in nodes
    requires forall i :: 0 <= i < |p| - 1 ==> p[i] !in exits
    requires forall i, j :: 0 <= i < j < |p| ==> p[i] != p[j]
    ensures Escapes(g, nodes, exits, p[0], q)
    decreases nodes - set x | x in p
  {
    var last := p[|p| - 1];
    if last in exits {
      q := p;
    } else {
      assert Continues(g, nodes, last);
      var y :| y in g[last] && y in nodes;
      if y in p {
        var k :| 0 <= k < |p| && p[k] == y;
        assert IsCycle(g, p[k..]);
        q := p;
      } else {
        assert y in nodes - set x | x in p;
        q := WalkEscapes(g, nodes, exits, p + [y]);
      }
    }
  }

  lemma StuckHasCycle(g: Graph, nodes: set<string>, start: string)
    requires NoDeadEnd(g, nodes, {}) && start in nodes
    ensures !Acyclic(g)
  {
    var p := WalkEscapes(g, nodes, {}, [start]);
    var k :| 0 <= k < |p| && IsCycle(g, p[k..]);
  }

  ghost predicate Falls(rank: map<string, int>, x: string, y: string) {
    x in rank && y in rank && rank[y] < rank[x]
  }

  ghost predicate Ranks(rank: map<string, int>, g: Graph) {
    forall x, y :: x in g && y in g[x] ==> Falls(rank, x, y)
  }

  /** A strictly decreasing rank along every edge excludes cycles. */
  lemma RankedIsAcyclic(g: Graph, rank: map<string, int>)
    requires Ranks(rank, g)
    ensures Acyclic(g)
  {
    forall c | IsCycle(g, c) ensures false {
      RankFalls(g, rank, c, |c| - 1);
    }
  }

  lemma {:induction false} RankFalls(g: Graph, rank: map<string, int>, c: seq<string>, k: nat)
    requires Ranks(rank, g)
    requires IsCycle(g, c) && k < |c|
    ensures c[0] in rank && c[k] in rank && rank[c[k]] <= rank[c[0]]
  {
    assert c[|c| - 1] in rank && c[0] in rank;
    if k > 0 {
      RankFalls(g, rank, c, k - 1);
      assert c[k] in g[c[k - 1]];
    }
  }
}
