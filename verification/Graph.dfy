/** Directed graphs stored as the flat, row-major adjacency matrix that Tarjan's algorithm reads. */
module Graphs {

  /** Cell `v * n + w` of `A` is nonzero exactly when there is an edge from `v` to `w`. */
  datatype Graph = Graph(n: nat, A: seq<int>)

  lemma CellInRange(v: nat, w: nat, n: nat)
    requires v < n && w < n
    ensures 0 <= v * n + w < n * n
  {
    assert v * n <= (n - 1) * n;
  }

  predicate ValidGraph(g: Graph) {
    |g.A| == g.n * g.n
  }

  predicate Edge(g: Graph, v: nat, w: nat) {
    && v < g.n
    && w < g.n
    && ValidGraph(g)
    && (CellInRange(v, w, g.n); g.A[v * g.n + w] != 0)
  }

  /** `p` is a walk: at least one node, every step an edge. */
  ghost predicate IsWalk(g: Graph, p: seq<nat>) {
    && |p| > 0
    && forall i :: 0 <= i < |p| - 1 ==> Edge(g, p[i], p[i + 1])
  }

  ghost predicate WalkFromTo(g: Graph, p: seq<nat>, x: nat, y: nat) {
    IsWalk(g, p) && p[0] == x && p[|p| - 1] == y
  }

  /** `y` can be reached from `x` in zero or more steps. */
  ghost predicate Reach(g: Graph, x: nat, y: nat) {
    exists p :: WalkFromTo(g, p, x, y)
  }

  /** `x` lies on a cycle, a self-loop being the shortest one. */
  ghost predicate OnCycle(g: Graph, x: nat) {
    exists w :: Edge(g, x, w) && Reach(g, w, x)
  }

  ghost predicate ClosedSet(g: Graph, s: set<nat>) {
    forall v, w :: v in s && Edge(g, v, w) ==> w in s
  }

  lemma ReachRefl(g: Graph, x: nat)
    ensures Reach(g, x, x)
  {
    assert WalkFromTo(g, [x], x, x);
  }

  lemma ReachTrans(g: Graph, x: nat, y: nat, z: nat)
    requires Reach(g, x, y) && Reach(g, y, z)
    ensures Reach(g, x, z)
  {
    var p :| WalkFromTo(g, p, x, y);
    var q :| WalkFromTo(g, q, y, z);
    assert WalkFromTo(g, p + q[1..], x, z);
  }

  lemma ReachEdge(g: Graph, x: nat, y: nat)
    requires Edge(g, x, y)
    ensures Reach(g, x, y)
  {
    assert WalkFromTo(g, [x, y], x, y);
  }

  /** A walk that starts inside `s` and ends outside crosses the border of `s` along some edge. */
  lemma {:induction false} BorderCrossing(g: Graph, s: set<nat>, x: nat, y: nat) returns (a: nat, b: nat)
    requires x in s && y !in s && Reach(g, x, y)
    ensures a in s && b !in s && Edge(g, a, b) && Reach(g, x, a) && Reach(g, b, y)
  {
    var p :| WalkFromTo(g, p, x, y);
    a, b := BorderOfWalk(g, s, p);
  }

  lemma {:induction false} BorderOfWalk(g: Graph, s: set<nat>, p: seq<nat>) returns (a: nat, b: nat)
    requires IsWalk(g, p) && p[0] in s && p[|p| - 1] !in s
    ensures a in s && b !in s && Edge(g, a, b)
    ensures Reach(g, p[0], a) && Reach(g, b, p[|p| - 1])
  {
    if p[1] !in s {
      a, b := p[0], p[1];
      ReachRefl(g, a);
      assert WalkFromTo(g, p[1..], b, p[|p| - 1]);
    } else {
      assert IsWalk(g, p[1..]);
      a, b := BorderOfWalk(g, s, p[1..]);
      ReachEdge(g, p[0], p[1]);
      ReachTrans(g, p[0], p[1], a);
    }
  }

  lemma ClosedSetKeepsReach(g: Graph, s: set<nat>, x: nat, y: nat)
    requires ClosedSet(g, s) && x in s && Reach(g, x, y)
    ensures y in s
  {
    if y !in s {
      var a, b := BorderCrossing(g, s, x, y);
      assert false;
    }
  }

  /** A walk to a different node starts with an edge. */
  lemma FirstStep(g: Graph, x: nat, y: nat) returns (w: nat)
    requires Reach(g, x, y) && x != y
    ensures Edge(g, x, w) && Reach(g, w, y)
  {
    var p :| WalkFromTo(g, p, x, y);
    w := p[1];
    assert WalkFromTo(g, p[1..], w, y);
  }
}
