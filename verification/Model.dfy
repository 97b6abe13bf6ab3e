/**
  The runtime evaluation order of a model: components are ordered by their dependencies, and loops
  are broken by decoupling connections until an order exists or nothing more can be decoupled.
*/
module Model {
  import opened Collections
  import opened Graphs
  import opened TarjanState
  import opened Dependency
  import opened SubModel
  import Tarjan

  // ---------------------------------------------------------------------------------------------
  // Specification: cycles of dependencies, and what decoupling may do

  /** `g` has an edge from every component to each component it depends on. */
  ghost predicate IsGraphOf(g: Graph, comps: seq<Component>, d: set<Connection>) {
    && g.n == |comps|
    && ValidGraph(g)
    && forall v: nat, w: nat :: Edge(g, v, w) <==> DependsOn(comps, d, v, w)
  }

  /** `p` goes round a loop of components each of which depends on the next. */
  ghost predicate IsCycle(comps: seq<Component>, d: set<Connection>, p: seq<nat>) {
    && |p| >= 2
    && p[0] == p[|p| - 1]
    && forall i :: 0 <= i < |p| - 1 ==> DependsOn(comps, d, p[i], p[i + 1])
  }

  /** No step of `p` goes along a bundle that may be decoupled. */
  ghost predicate Unbreakable(comps: seq<Component>, d: set<Connection>, p: seq<nat>) {
    forall i :: 0 <= i < |p| - 1 ==> !Breakable(comps, d, p[i + 1], p[i])
  }

  ghost predicate UnbreakableCycle(comps: seq<Component>, d: set<Connection>) {
    exists p :: IsCycle(comps, d, p) && Unbreakable(comps, d, p)
  }

  predicate SameBundle(c: Connection, e: Connection) {
    c.source == e.source && c.target == e.target
  }

  /** From `d0` to `d` only whole bundles that could be decoupled have been decoupled. */
  ghost predicate BreaksWhole(comps: seq<Component>, d0: set<Connection>, d: set<Connection>) {
    && (forall c :: c in Conns(comps) && c in d0 ==> c in d)
    && (forall c :: c in Conns(comps) && c in d && c !in d0 ==> Breakable(comps, d0, c.source, c.target))
    && (forall c, e :: c in Conns(comps) && e in Conns(comps) && c in d && c !in d0 && SameBundle(c, e) ==> e in d)
  }

  /** `order` holds every component exactly once, each one after all components it depends on. */
  ghost predicate IsEvaluationOrder(comps: seq<Component>, d: set<Connection>, order: seq<CompAndGroup>) {
    && |order| == |comps|
    && (forall i :: 0 <= i < |order| ==> order[i].comp < |comps| && order[i].group == 0)
    && (forall i, j :: 0 <= i < j < |order| ==> order[i].comp != order[j].comp)
    && (forall v: nat :: v < |comps| ==> CompAndGroup(v, 0) in order)
    && (forall i, j :: 0 <= i < |order| && 0 <= j < |order| ==>
          DependsOn(comps, d, order[i].comp, order[j].comp) ==> j < i)
  }

  // ---------------------------------------------------------------------------------------------
  // Decoupling whole bundles neither makes nor breaks an unbreakable cycle

  /** A bundle that still has a connection not decoupled has not been touched since `d0`. */
  lemma BundleUntouched(comps: seq<Component>, d0: set<Connection>, d: set<Connection>, c: Connection)
    requires BreaksWhole(comps, d0, d) && c in Conns(comps)
    requires c !in d || !Breakable(comps, d0, c.source, c.target)
    ensures Breakable(comps, d0, c.source, c.target) <==> Breakable(comps, d, c.source, c.target)
    ensures c in d <==> c in d0
  {
    hide Conns, Breakable;
    assert forall e :: e in Conns(comps) && SameBundle(c, e) ==> (e in d <==> e in d0);
    PrioritySame(comps, d0, d, c.source, c.target);
  }

  lemma BreaksWholeTrans(comps: seq<Component>, d0: set<Connection>, d1: set<Connection>, d2: set<Connection>)
    requires BreaksWhole(comps, d0, d1) && BreaksWhole(comps, d1, d2)
    ensures BreaksWhole(comps, d0, d2)
  {
    hide Conns, Breakable;
    forall c | c in Conns(comps) && c in d2 && c !in d0
      ensures Breakable(comps, d0, c.source, c.target)
    {
      if c !in d1 {
        BundleUntouched(comps, d0, d1, c);
      }
    }
  }

  /** The connection behind a dependency. */
  lemma DependencyConnection(comps: seq<Component>, d: set<Connection>, v: nat, w: nat) returns (c: Connection, ch: nat)
    requires Wired(comps) && DependsOn(comps, d, v, w)
    ensures v < |comps| && ch < |comps[v].inputs| && comps[v].inputs[ch] == c
    ensures c in Conns(comps) && c.source == w && c.target == v && c !in d
    ensures forall e :: c !in e ==> DependsOn(comps, e, v, w)
  {
    hide Conns;
    ch :| Demands(comps[v], d, ch, w);
    c := comps[v].inputs[ch];
    forall e | c !in e
      ensures DependsOn(comps, e, v, w)
    {
      assert Demands(comps[v], e, ch, w);
    }
  }

  lemma StepStays(comps: seq<Component>, d0: set<Connection>, d: set<Connection>, v: nat, w: nat)
    requires Wired(comps) && BreaksWhole(comps, d0, d)
    ensures DependsOn(comps, d, v, w) && !Breakable(comps, d, w, v)
      <==> DependsOn(comps, d0, v, w) && !Breakable(comps, d0, w, v)
  {
    hide Conns, Breakable, Wired, DependsOn;
    if DependsOn(comps, d, v, w) {
      var c, ch := DependencyConnection(comps, d, v, w);
      BundleUntouched(comps, d0, d, c);
    }
    if DependsOn(comps, d0, v, w) && !Breakable(comps, d0, w, v) {
      var c, ch := DependencyConnection(comps, d0, v, w);
      BundleUntouched(comps, d0, d, c);
    }
  }

  /** Decoupling never changes which cycles are unbreakable. */
  lemma UnbreakableCyclesStay(comps: seq<Component>, d0: set<Connection>, d: set<Connection>)
    requires Wired(comps) && BreaksWhole(comps, d0, d)
    ensures UnbreakableCycle(comps, d0) <==> UnbreakableCycle(comps, d)
  {
    hide Conns, Breakable, Wired, DependsOn, BreaksWhole;
    forall p
      ensures IsCycle(comps, d0, p) && Unbreakable(comps, d0, p) <==> IsCycle(comps, d, p) && Unbreakable(comps, d, p)
    {
      forall i | 0 <= i < |p| - 1
        ensures DependsOn(comps, d, p[i], p[i + 1]) && !Breakable(comps, d, p[i + 1], p[i])
          <==> DependsOn(comps, d0, p[i], p[i + 1]) && !Breakable(comps, d0, p[i + 1], p[i])
      {
        StepStays(comps, d0, d, p[i], p[i + 1]);
      }
    }
  }

  // ---------------------------------------------------------------------------------------------
  // One pass decouples whole bundles only, and makes progress

  lemma PassBreaksWhole(comps: seq<Component>, d0: set<Connection>, d: set<Connection>, groups: seq<NodeGroup>)
    requires PassStarted(comps, d0, d, groups)
    ensures BreaksWhole(comps, d0, d)
  {
    hide Conns, Breakable, NoneAbove, IsPriority, Inside, InSomeLoop;
    var k :| 0 <= k <= |groups| && PassDone(comps, d0, d, groups, k);
    forall c | c in Conns(comps) && (c in d <==> c !in d0)
      ensures c in d && Breakable(comps, d0, c.source, c.target)
      ensures forall e :: e in Conns(comps) && SameBundle(c, e) ==> e in d
    {
      BundleOfLoop(comps, d0, d, groups, k, c);
    }
  }

  /** A connection whose flag changed belongs to the best bundle of a loop group. */
  lemma BundleOfLoop(comps: seq<Component>, d0: set<Connection>, d: set<Connection>, groups: seq<NodeGroup>,
                     k: nat, c: Connection)
    requires k <= |groups| && PassDone(comps, d0, d, groups, k)
    requires c in Conns(comps) && (c in d <==> c !in d0)
    ensures c in d && Breakable(comps, d0, c.source, c.target)
    ensures forall e :: e in Conns(comps) && SameBundle(c, e) ==> e in d
  {
    hide Conns, Breakable, NoneAbove, IsPriority;
    var i :| 0 <= i < k && groups[i].isLoop && Inside(c, groups[i].nodes);
    assert Broken(comps, d0, d, groups[i].nodes);
    var f, t :| IsBest(comps, d0, groups[i].nodes, f, t) && OnlyBundleAdded(comps, d0, d, groups[i].nodes, f, t);
    forall e | e in Conns(comps) && SameBundle(c, e)
      ensures e in d
    {
      assert Inside(e, groups[i].nodes);
    }
  }

  /** A broken loop has a connection that was not decoupled before. */
  lemma ChangedInside(comps: seq<Component>, d0: set<Connection>, d: set<Connection>, nodes: seq<nat>)
    returns (c: Connection)
    requires Broken(comps, d0, d, nodes)
    ensures c in Conns(comps) && c in d && c !in d0 && Inside(c, nodes)
  {
    hide Conns, NoneAbove, IsPriority;
    var f, t :| IsBest(comps, d0, nodes, f, t) && OnlyBundleAdded(comps, d0, d, nodes, f, t);
    c :| c in Conns(comps) && Open(d0, c, f, t);
    assert Inside(c, nodes);
  }

  /** A pass over a model with a loop decouples at least one connection. */
  lemma PassProgress(comps: seq<Component>, d0: set<Connection>, d: set<Connection>, groups: seq<NodeGroup>)
    requires PassDone(comps, d0, d, groups, |groups|)
    requires exists k :: 0 <= k < |groups| && groups[k].isLoop
    ensures |Conns(comps) - d| < |Conns(comps) - d0|
  {
    hide Conns, Broken, Breakable, InSomeLoop;
    var k :| 0 <= k < |groups| && groups[k].isLoop;
    var c := ChangedInside(comps, d0, d, groups[k].nodes);
    PassBreaksWhole(comps, d0, d, groups);
    assert Conns(comps) - d <= Conns(comps) - d0 - {c};
    SubsetSize(Conns(comps) - d, Conns(comps) - d0 - {c});
  }

  // ---------------------------------------------------------------------------------------------
  // Loops of the graph and cycles of dependencies

  lemma WalkToCycle(g: Graph, comps: seq<Component>, d: set<Connection>, x: nat) returns (p: seq<nat>)
    requires IsGraphOf(g, comps, d) && OnCycle(g, x)
    ensures IsCycle(comps, d, p)
    ensures forall i :: 0 <= i < |p| ==> Reach(g, x, p[i]) && Reach(g, p[i], x)
  {
    hide DependsOn, Edge;
    var w :| Edge(g, x, w) && Reach(g, w, x);
    var q :| WalkFromTo(g, q, w, x);
    p := [x] + q;
    assert IsWalk(g, p);
    forall i | 0 <= i < |p|
      ensures Reach(g, x, p[i]) && Reach(g, p[i], x)
    {
      assert WalkFromTo(g, p[..i + 1], x, p[i]);
      assert WalkFromTo(g, p[i..], p[i], x);
    }
    forall i | 0 <= i < |p| - 1
      ensures DependsOn(comps, d, p[i], p[i + 1])
    {
      assert Edge(g, p[i], p[i + 1]);
    }
  }

  lemma CycleToWalk(g: Graph, comps: seq<Component>, d: set<Connection>, p: seq<nat>)
    requires IsGraphOf(g, comps, d) && IsCycle(comps, d, p)
    ensures OnCycle(g, p[0])
  {
    hide DependsOn, Edge;
    assert forall i :: 0 <= i < |p| - 1 ==> Edge(g, p[i], p[i + 1]);
    assert WalkFromTo(g, p[1..], p[1], p[0]);
    assert Edge(g, p[0], p[1]);
  }

  /** A loop group without a bundle to offer contains an unbreakable cycle. */
  lemma StuckMeansUnbreakable(g: Graph, groups: seq<NodeGroup>, comps: seq<Component>, d: set<Connection>, k: nat)
    requires IsGraphOf(g, comps, d) && IsOrder(g, groups)
    requires k < |groups| && groups[k].isLoop && NoneBreakable(comps, d, groups[k].nodes)
    ensures UnbreakableCycle(comps, d)
  {
    hide DependsOn, Edge, Breakable, Reach, IsOrder;
    var x := GroupHasNode(g, groups, k);
    FlagMeansCycle(g, groups, k, x);
    var p := WalkToCycle(g, comps, d, x);
    forall i | 0 <= i < |p|
      ensures p[i] in groups[k].nodes
    {
      OrderIsPartition(g, groups, p[i]);
      assert p[i] < g.n by {
        hide IsGraphOf;
        WalkNode(g, comps, d, p, i);
      }
      var l :| 0 <= l < |groups| && p[i] in groups[l].nodes;
      GroupsAreComponents(g, groups, k, l, x, p[i]);
    }
  }

  lemma WalkNode(g: Graph, comps: seq<Component>, d: set<Connection>, p: seq<nat>, i: nat)
    requires IsGraphOf(g, comps, d) && IsCycle(comps, d, p) && i < |p|
    ensures p[i] < g.n
  {
    var j := if i < |p| - 1 then i else 0;
    assert DependsOn(comps, d, p[j], p[j + 1]);
  }

  /** Without a loop group there is no cycle, breakable or not. */
  lemma AcyclicMeansNone(g: Graph, groups: seq<NodeGroup>, comps: seq<Component>, d: set<Connection>)
    requires IsGraphOf(g, comps, d) && IsOrder(g, groups)
    requires forall k :: 0 <= k < |groups| ==> !groups[k].isLoop
    ensures !UnbreakableCycle(comps, d)
  {
    hide IsGraphOf, IsOrder, Breakable, DependsOn;
    LoopsExistIffCycle(g, groups);
    forall p
      ensures !IsCycle(comps, d, p)
    {
      if IsCycle(comps, d, p) {
        CycleToWalk(g, comps, d, p);
      }
    }
  }

  // ---------------------------------------------------------------------------------------------
  // What a pass does, told by the cycles of dependencies alone

  /** Some cycle of dependencies runs through both components. */
  ghost predicate OnOneLoop(comps: seq<Component>, d: set<Connection>, x: nat, y: nat) {
    exists p :: IsCycle(comps, d, p) && x in p && y in p
  }

  /** The bundle from `f` to `t` can be decoupled, and none on the same loop has a higher priority. */
  ghost predicate BestOnLoop(comps: seq<Component>, d: set<Connection>, f: nat, t: nat) {
    && OnOneLoop(comps, d, f, t)
    && Breakable(comps, d, f, t)
    && forall g, u, p, q ::
         OnOneLoop(comps, d, f, g) && OnOneLoop(comps, d, f, u) ==>
           IsPriority(comps, d, f, t, p) && IsPriority(comps, d, g, u, q) ==> q <= p
  }

  predicate Newly(d: set<Connection>, e: set<Connection>, c: Connection) {
    c in e && c !in d
  }

  /** A best bundle of the loop through `x` has been decoupled. */
  ghost predicate LoopBroken(comps: seq<Component>, d: set<Connection>, e: set<Connection>, x: nat) {
    exists c :: c in Conns(comps) && Newly(d, e, c) && OnOneLoop(comps, d, x, c.source)
  }

  /**
    A pass from `d` to `e`: there was a loop, and on the loops at most one whole bundle each has been decoupled,
    a best one, and nothing else; a complete pass has left out no loop.
  */
  ghost predicate IsPass(comps: seq<Component>, d: set<Connection>, e: set<Connection>, complete: bool) {
    && (exists p :: IsCycle(comps, d, p))
    && (forall c :: c in Conns(comps) && c in d ==> c in e)
    && (forall c :: c in Conns(comps) && Newly(d, e, c) ==> BestOnLoop(comps, d, c.source, c.target))
    && (forall c, b :: c in Conns(comps) && b in Conns(comps) && Newly(d, e, c) && SameBundle(c, b) ==> b in e)
    && (forall c, b :: c in Conns(comps) && b in Conns(comps) && Newly(d, e, c) && Newly(d, e, b) ==>
          OnOneLoop(comps, d, c.source, b.source) ==> SameBundle(c, b))
    && (complete ==> forall x :: OnOneLoop(comps, d, x, x) ==> LoopBroken(comps, d, e, x))
  }

  /** The flags between the passes; all passes were complete, the last one perhaps only if `done`. */
  ghost predicate IsHistory(comps: seq<Component>, h: seq<set<Connection>>, done: bool) {
    |h| > 0 && forall i :: 0 <= i < |h| - 1 ==> IsPass(comps, h[i], h[i + 1], done || i < |h| - 2)
  }

  ghost predicate InOneGroup(groups: seq<NodeGroup>, x: nat, y: nat) {
    exists k :: 0 <= k < |groups| && groups[k].isLoop && x in groups[k].nodes && y in groups[k].nodes
  }

  /** The loop groups are the loops. */
  lemma LoopsAreGroups(g: Graph, groups: seq<NodeGroup>, comps: seq<Component>, d: set<Connection>, x: nat, y: nat)
    requires IsGraphOf(g, comps, d) && IsOrder(g, groups)
    ensures OnOneLoop(comps, d, x, y) <==> InOneGroup(groups, x, y)
  {
    hide DependsOn, Edge, Reach, IsOrder, IsGraphOf, IsCycle;
    if OnOneLoop(comps, d, x, y) {
      var p :| IsCycle(comps, d, p) && x in p && y in p;
      CycleInGroup(g, groups, comps, d, p, x, y);
    }
    if k :| 0 <= k < |groups| && groups[k].isLoop && x in groups[k].nodes && y in groups[k].nodes {
      GroupsAreComponents(g, groups, k, k, x, y);
      FlagMeansCycle(g, groups, k, x);
      var p := CycleThrough(g, comps, d, x, y);
    }
  }

  lemma CycleInGroup(g: Graph, groups: seq<NodeGroup>, comps: seq<Component>, d: set<Connection>, p: seq<nat>,
                     x: nat, y: nat)
    requires IsGraphOf(g, comps, d) && IsOrder(g, groups) && IsCycle(comps, d, p) && x in p && y in p
    ensures InOneGroup(groups, x, y)
  {
    hide DependsOn, Edge, Reach, IsOrder;
    var i :| 0 <= i < |p| && p[i] == x;
    var j :| 0 <= j < |p| && p[j] == y;
    WalkNode(g, comps, d, p, i);
    WalkNode(g, comps, d, p, j);
    CycleToWalk(g, comps, d, p);
    OrderIsPartition(g, groups, x);
    OrderIsPartition(g, groups, y);
    OrderIsPartition(g, groups, p[0]);
    WalkNode(g, comps, d, p, 0);
    AroundCycle(g, comps, d, p, i);
    AroundCycle(g, comps, d, p, j);
    var m :| 0 <= m < |groups| && p[0] in groups[m].nodes;
    var k :| 0 <= k < |groups| && x in groups[k].nodes;
    var l :| 0 <= l < |groups| && y in groups[l].nodes;
    GroupsAreComponents(g, groups, m, k, p[0], x);
    GroupsAreComponents(g, groups, m, l, p[0], y);
    FlagMeansCycle(g, groups, m, p[0]);
  }

  lemma AroundCycle(g: Graph, comps: seq<Component>, d: set<Connection>, p: seq<nat>, i: nat)
    requires IsGraphOf(g, comps, d) && IsCycle(comps, d, p) && i < |p|
    ensures Reach(g, p[0], p[i]) && Reach(g, p[i], p[0])
  {
    hide DependsOn, Edge;
    assert forall j :: 0 <= j < |p| - 1 ==> Edge(g, p[j], p[j + 1]);
    assert WalkFromTo(g, p[..i + 1], p[0], p[i]);
    assert WalkFromTo(g, p[i..], p[i], p[0]);
  }

  lemma CycleThrough(g: Graph, comps: seq<Component>, d: set<Connection>, x: nat, y: nat) returns (p: seq<nat>)
    requires IsGraphOf(g, comps, d) && OnCycle(g, x) && Reach(g, x, y) && Reach(g, y, x)
    ensures IsCycle(comps, d, p) && x in p && y in p
  {
    hide DependsOn, Edge;
    if x == y {
      p := WalkToCycle(g, comps, d, x);
      var w :| Edge(g, x, w) && Reach(g, w, x);
      var q :| WalkFromTo(g, q, w, x);
      p := [x] + q;
    } else {
      var a :| WalkFromTo(g, a, x, y);
      var b :| WalkFromTo(g, b, y, x);
      p := a + b[1..];
      assert p[|a| - 1] == y;
    }
    assert IsWalk(g, p);
    assert forall i :: 0 <= i < |p| - 1 ==> Edge(g, p[i], p[i + 1]);
  }

  /** A connection whose flag changed belongs to the best bundle of its loop, and to no other group. */
  lemma NewlyInLoop(g: Graph, comps: seq<Component>, d: set<Connection>, e: set<Connection>, groups: seq<NodeGroup>,
                    k: nat, c: Connection) returns (i: nat, f: nat, t: nat)
    requires k <= |groups| && PassDone(comps, d, e, groups, k) && c in Conns(comps) && (c in e <==> c !in d)
    ensures i < k && groups[i].isLoop && Inside(c, groups[i].nodes)
    ensures IsBest(comps, d, groups[i].nodes, f, t) && OnlyBundleAdded(comps, d, e, groups[i].nodes, f, t)
    ensures c in e && c.source == f && c.target == t
  {
    hide Conns, IsBest;
    i :| 0 <= i < k && groups[i].isLoop && Inside(c, groups[i].nodes);
    assert Broken(comps, d, e, groups[i].nodes);
    f, t :| IsBest(comps, d, groups[i].nodes, f, t) && OnlyBundleAdded(comps, d, e, groups[i].nodes, f, t);
  }

  lemma BestIsBest(g: Graph, groups: seq<NodeGroup>, comps: seq<Component>, d: set<Connection>, i: nat, f: nat, t: nat)
    requires IsGraphOf(g, comps, d) && IsOrder(g, groups) && i < |groups| && groups[i].isLoop
    requires IsBest(comps, d, groups[i].nodes, f, t)
    ensures BestOnLoop(comps, d, f, t)
  {
    hide IsGraphOf, IsOrder, IsPriority, Breakable, OnOneLoop;
    LoopsAreGroups(g, groups, comps, d, f, t);
    forall h, u, p, q | OnOneLoop(comps, d, f, h) && OnOneLoop(comps, d, f, u) &&
      IsPriority(comps, d, f, t, p) && IsPriority(comps, d, h, u, q)
      ensures q <= p
    {
      SameGroup(g, groups, comps, d, i, f, h);
      SameGroup(g, groups, comps, d, i, f, u);
      assert NoneAbove(comps, d, h, u, p);
    }
  }

  lemma SameGroup(g: Graph, groups: seq<NodeGroup>, comps: seq<Component>, d: set<Connection>, i: nat, x: nat, y: nat)
    requires IsGraphOf(g, comps, d) && IsOrder(g, groups) && i < |groups| && x in groups[i].nodes
    requires OnOneLoop(comps, d, x, y)
    ensures groups[i].isLoop && y in groups[i].nodes
  {
    hide IsGraphOf, IsOrder, OnOneLoop;
    LoopsAreGroups(g, groups, comps, d, x, y);
    OrderWithin(g, groups);
  }

  lemma PassIsPass(g: Graph, groups: seq<NodeGroup>, comps: seq<Component>, d: set<Connection>, e: set<Connection>,
                   k: nat)
    requires IsGraphOf(g, comps, d) && IsOrder(g, groups) && k <= |groups| && PassDone(comps, d, e, groups, k)
    requires exists i :: 0 <= i < |groups| && groups[i].isLoop
    ensures IsPass(comps, d, e, k == |groups|)
  {
    hide IsGraphOf, IsOrder, IsBest, BestOnLoop, OnOneLoop, Conns, PassDone, OnlyBundleAdded, IsCycle;
    CycleExists(g, groups, comps, d);
    forall c | c in Conns(comps) && (c in e <==> c !in d)
      ensures c in e && BestOnLoop(comps, d, c.source, c.target)
    {
      var i, f, t := NewlyInLoop(g, comps, d, e, groups, k, c);
      BestIsBest(g, groups, comps, d, i, f, t);
    }
    forall c, b | c in Conns(comps) && b in Conns(comps) && Newly(d, e, c)
      ensures SameBundle(c, b) ==> b in e
      ensures Newly(d, e, b) && OnOneLoop(comps, d, c.source, b.source) ==> SameBundle(c, b)
    {
      BundlesApart(g, groups, comps, d, e, k, c, b);
    }
    if k == |groups| {
      forall x | OnOneLoop(comps, d, x, x)
        ensures LoopBroken(comps, d, e, x)
      {
        EveryLoopBroken(g, groups, comps, d, e, x);
      }
    }
  }

  lemma CycleExists(g: Graph, groups: seq<NodeGroup>, comps: seq<Component>, d: set<Connection>)
    requires IsGraphOf(g, comps, d) && IsOrder(g, groups) && exists i :: 0 <= i < |groups| && groups[i].isLoop
    ensures exists p :: IsCycle(comps, d, p)
  {
    hide IsGraphOf, IsOrder, IsCycle;
    var i :| 0 <= i < |groups| && groups[i].isLoop;
    var x := GroupHasNode(g, groups, i);
    LoopsAreGroups(g, groups, comps, d, x, x);
  }

  lemma BundlesApart(g: Graph, groups: seq<NodeGroup>, comps: seq<Component>, d: set<Connection>, e: set<Connection>,
                     k: nat, c: Connection, b: Connection)
    requires IsGraphOf(g, comps, d) && IsOrder(g, groups) && k <= |groups| && PassDone(comps, d, e, groups, k)
    requires c in Conns(comps) && b in Conns(comps) && Newly(d, e, c)
    ensures SameBundle(c, b) ==> b in e
    ensures Newly(d, e, b) && OnOneLoop(comps, d, c.source, b.source) ==> SameBundle(c, b)
  {
    hide IsGraphOf, IsOrder, IsBest, OnOneLoop, Conns, PassDone;
    var i, f, t := NewlyInLoop(g, comps, d, e, groups, k, c);
    if SameBundle(c, b) {
      assert Inside(b, groups[i].nodes);
    }
    if Newly(d, e, b) && OnOneLoop(comps, d, c.source, b.source) {
      var j, f', t' := NewlyInLoop(g, comps, d, e, groups, k, b);
      SameGroup(g, groups, comps, d, i, c.source, b.source);
      OrderWithin(g, groups);
      assert i == j;
    }
  }

  lemma EveryLoopBroken(g: Graph, groups: seq<NodeGroup>, comps: seq<Component>, d: set<Connection>,
                        e: set<Connection>, x: nat)
    requires IsGraphOf(g, comps, d) && IsOrder(g, groups) && PassDone(comps, d, e, groups, |groups|)
    requires OnOneLoop(comps, d, x, x)
    ensures LoopBroken(comps, d, e, x)
  {
    hide IsGraphOf, IsOrder, OnOneLoop, Conns, Broken, Breakable;
    LoopsAreGroups(g, groups, comps, d, x, x);
    var k :| 0 <= k < |groups| && groups[k].isLoop && x in groups[k].nodes;
    var c := ChangedInside(comps, d, e, groups[k].nodes);
    LoopsAreGroups(g, groups, comps, d, x, c.source);
  }

  // ---------------------------------------------------------------------------------------------
  // The evaluation list

  lemma OrderWithin(g: Graph, groups: seq<NodeGroup>)
    requires IsOrder(g, groups)
    ensures GroupsWithin(groups, g.n)
    ensures forall k :: 0 <= k < |groups| ==> Distinct(groups[k].nodes)
  {
    hide IsOrder;
    OrderIsPartition(g, groups, 0);
    forall k, x | 0 <= k < |groups| && x in groups[k].nodes
      ensures x < g.n && forall l :: k < l < |groups| ==> x !in groups[l].nodes
    {
      OrderIsPartition(g, groups, x);
    }
  }

  function Elems(s: seq<nat>): set<nat> {
    set x | x in s
  }

  lemma {:induction false} DistinctSize(s: seq<nat>, k: nat)
    requires Distinct(s) && k <= |s|
    ensures |Elems(s[..k])| == k
  {
    if k > 0 {
      DistinctSize(s, k - 1);
      var last := s[k - 1];
      assert s[..k] == s[..k - 1] + [last];
      assert last !in s[..k - 1];
      hide Distinct;
      assert Elems(s[..k]) == Elems(s[..k - 1]) + {last};
      assert last !in Elems(s[..k - 1]);
    }
  }

  lemma GroupSize(c: NodeGroup)
    requires Distinct(c.nodes)
    ensures |NodeSet(c)| == |c.nodes|
  {
    DistinctSize(c.nodes, |c.nodes|);
    hide Distinct;
    assert c.nodes[..|c.nodes|] == c.nodes;
    assert NodeSet(c) == Elems(c.nodes);
  }

  lemma GroupIsNew(g: Graph, groups: seq<NodeGroup>, k: nat)
    requires GroupsOk(g, groups) && k < |groups|
    ensures Distinct(groups[k].nodes) && NodesUpTo(groups, k) !! NodeSet(groups[k])
  {
    hide Reach, Edge, StronglyConnected, ClosedSet, OnCycle;
    assert GroupOk(g, groups[k], NodesUpTo(groups, k));
  }

  /** The groups of an order hold as many nodes as the graph has. */
  lemma {:induction false} SizesAddUp(g: Graph, groups: seq<NodeGroup>, k: nat)
    requires GroupsOk(g, groups) && k <= |groups|
    ensures SumSizes(groups, k) == |NodesUpTo(groups, k)|
  {
    hide GroupsOk, Distinct, NodeSet;
    if k > 0 {
      SizesAddUp(g, groups, k - 1);
      GroupIsNew(g, groups, k - 1);
      GroupSize(groups[k - 1]);
    }
  }

  lemma OrderSize(g: Graph, groups: seq<NodeGroup>)
    requires IsOrder(g, groups)
    ensures SumSizes(groups, |groups|) == g.n
  {
    hide GroupsOk;
    SizesAddUp(g, groups, |groups|);
  }

  /** Without loops every group is a single node that has no edge to itself. */
  lemma SingleNode(g: Graph, groups: seq<NodeGroup>, k: nat)
    requires IsOrder(g, groups) && k < |groups| && !groups[k].isLoop
    ensures |groups[k].nodes| == 1
    ensures !Edge(g, groups[k].nodes[0], groups[k].nodes[0])
  {
    hide Reach, Edge, ClosedSet;
    assert GroupOk(g, groups[k], NodesUpTo(groups, k));
    var x := groups[k].nodes[0];
    assert x in groups[k].nodes;
    ReachRefl(g, x);
    if |groups[k].nodes| > 1 {
      var y := groups[k].nodes[1];
      assert y in NodeSet(groups[k]) && x in NodeSet(groups[k]);
      var w := FirstStep(g, x, y);
      ReachTrans(g, w, y, x);
    }
  }

  lemma {:induction false} SumOfSingles(groups: seq<NodeGroup>, k: nat)
    requires k <= |groups| && forall i :: 0 <= i < |groups| ==> |groups[i].nodes| == 1
    ensures SumSizes(groups, k) == k
  {
    if k > 0 {
      SumOfSingles(groups, k - 1);
    }
  }

  /** The nodes of all groups, one group after the other. */
  function Flat(groups: seq<NodeGroup>, k: nat): (s: seq<nat>)
    requires k <= |groups|
    ensures |s| == SumSizes(groups, k)
  {
    if k == 0 then [] else Flat(groups, k - 1) + groups[k - 1].nodes
  }

  function Min(a: nat, b: nat): nat {
    if a <= b then a else b
  }

  /** Writes out the groups; the list never grows beyond the node map. */
  method GetEvaluationList(nodes: seq<CompAndGroup>, groups: seq<NodeGroup>) returns (order: seq<CompAndGroup>)
    requires forall k, x :: 0 <= k < |groups| && x in groups[k].nodes ==> x < |nodes|
    ensures |order| == Min(SumSizes(groups, |groups|), |nodes|)
    ensures forall i :: 0 <= i < |order| ==>
      Flat(groups, |groups|)[i] < |nodes| && order[i] == nodes[Flat(groups, |groups|)[i]]
  {
    order := [];
    var elem := 0;
    for i := 0 to |groups|
      invariant |order| == elem == Min(SumSizes(groups, i), |nodes|)
      invariant forall k :: 0 <= k < |order| ==> Flat(groups, i)[k] < |nodes| && order[k] == nodes[Flat(groups, i)[k]]
    {
      ghost var flat := Flat(groups, i);
      for j := 0 to |groups[i].nodes|
        invariant |order| == elem == Min(|flat| + j, |nodes|)
        invariant forall k :: 0 <= k < |order| ==>
          var s := flat + groups[i].nodes; s[k] < |nodes| && order[k] == nodes[s[k]]
      {
        assert groups[i].nodes[j] in groups[i].nodes;
        if elem < |nodes| {
          order := order + [nodes[groups[i].nodes[j]]];
          elem := elem + 1;
        }
      }
    }
  }

  lemma {:induction false} FlatOfSingles(groups: seq<NodeGroup>, k: nat, i: nat)
    requires i < k <= |groups| && forall j :: 0 <= j < |groups| ==> |groups[j].nodes| == 1
    requires SumSizes(groups, k) == k && SumSizes(groups, k - 1) == k - 1
    ensures Flat(groups, k)[i] == groups[i].nodes[0]
  {
    if i < k - 1 {
      SumOfSingles(groups, k - 2);
      FlatOfSingles(groups, k - 1, i);
    }
  }

  /** Places in the flat list are places in the list of groups when all groups are single nodes. */
  lemma SinglesInOrder(g: Graph, groups: seq<NodeGroup>)
    requires IsOrder(g, groups) && forall k :: 0 <= k < |groups| ==> !groups[k].isLoop
    ensures |groups| == g.n == |Flat(groups, |groups|)|
    ensures forall k :: 0 <= k < |groups| ==> |groups[k].nodes| == 1 && Flat(groups, |groups|)[k] == groups[k].nodes[0]
  {
    hide IsOrder;
    forall k | 0 <= k < |groups|
      ensures |groups[k].nodes| == 1
    {
      SingleNode(g, groups, k);
    }
    OrderSize(g, groups);
    SumOfSingles(groups, |groups|);
    forall k | 0 <= k < |groups|
      ensures Flat(groups, |groups|)[k] == groups[k].nodes[0]
    {
      SumOfSingles(groups, |groups| - 1);
      FlatOfSingles(groups, |groups|, k);
    }
  }

  lemma EvaluationOrderHolds(g: Graph, groups: seq<NodeGroup>, comps: seq<Component>, d: set<Connection>,
                             order: seq<CompAndGroup>)
    requires IsGraphOf(g, comps, d) && IsOrder(g, groups)
    requires forall k :: 0 <= k < |groups| ==> !groups[k].isLoop
    requires |order| == |Flat(groups, |groups|)|
    requires forall i :: 0 <= i < |order| ==> order[i] == CompAndGroup(Flat(groups, |groups|)[i], 0)
    ensures IsEvaluationOrder(comps, d, order)
  {
    hide IsOrder, DependsOn, Edge, Flat, SumSizes;
    SinglesInOrder(g, groups);
    forall i | 0 <= i < |order|
      ensures order[i].comp in groups[i].nodes
    {
    }
    OrderWithin(g, groups);
    forall v: nat | v < |comps|
      ensures CompAndGroup(v, 0) in order
    {
      OrderIsPartition(g, groups, v);
      var k :| 0 <= k < |groups| && v in groups[k].nodes;
      assert order[k] == CompAndGroup(v, 0);
    }
    forall i, j | 0 <= i < |order| && 0 <= j < |order| && DependsOn(comps, d, order[i].comp, order[j].comp)
      ensures j < i
    {
      ReachEdge(g, order[i].comp, order[j].comp);
      DependenciesFirst(g, groups, i, j, order[i].comp, order[j].comp);
      SingleNode(g, groups, i);
    }
  }

  /** The components with no outputs that take no part in the initialization, among the first `k`. */
  function WithoutPlace(comps: seq<Component>, k: nat): (n: nat)
    requires k <= |comps|
    ensures n <= k
  {
    if k == 0 then 0
    else
      var comp := comps[k - 1];
      WithoutPlace(comps, k - 1) + if !comp.partOfInitCalculation && |comp.outputs| == 0 then 1 else 0
  }

  predicate HasNoPlace(comp: Component) {
    !comp.partOfInitCalculation && |comp.outputs| == 0
  }

  lemma {:induction false} WithoutPlaceCounts(comps: seq<Component>, k: nat)
    requires k <= |comps|
    ensures WithoutPlace(comps, k) == |NoPlaces(comps, k)|
  {
    if k > 0 {
      WithoutPlaceCounts(comps, k - 1);
      assert WithoutPlace(comps, k) == WithoutPlace(comps, k - 1) + if HasNoPlace(comps[k - 1]) then 1 else 0;
      NoPlacesNext(comps, k);
      hide NoPlaces;
    }
  }

  /** The components among the first `k` that have no place. */
  function NoPlaces(comps: seq<Component>, k: nat): set<nat>
    requires k <= |comps|
  {
    set i: nat | i < k && HasNoPlace(comps[i])
  }

  lemma NoPlacesNext(comps: seq<Component>, k: nat)
    requires 0 < k <= |comps|
    ensures NoPlaces(comps, k) == NoPlaces(comps, k - 1) + if HasNoPlace(comps[k - 1]) then {k - 1} else {}
    ensures k - 1 !in NoPlaces(comps, k - 1)
    ensures |NoPlaces(comps, k)| == |NoPlaces(comps, k - 1)| + if HasNoPlace(comps[k - 1]) then 1 else 0
  {
    hide HasNoPlace;
  }

  /** `elements` names the components of a list, each once and in the order in which they first occur. */
  ghost predicate FirstOccurrences(order: seq<CompAndGroup>, elements: seq<nat>) {
    && Distinct(elements)
    && (forall i :: 0 <= i < |order| ==> order[i].comp in elements)
    && (forall k: nat :: k < |elements| ==> HasFirst(order, elements, k))
  }

  ghost predicate HasFirst(order: seq<CompAndGroup>, elements: seq<nat>, k: nat) {
    exists i: nat :: FirstAt(order, elements, k, i)
  }

  /** Entry `i` of the list is the first one of component `elements[k]`, and only earlier elements stand before it. */
  ghost predicate FirstAt(order: seq<CompAndGroup>, elements: seq<nat>, k: nat, i: nat) {
    && k < |elements|
    && i < |order|
    && order[i].comp == elements[k]
    && forall j :: 0 <= j < i ==> order[j].comp in elements[..k]
  }

  method GetComponentsOfEvaluationList(order: seq<CompAndGroup>) returns (elements: seq<nat>)
    ensures FirstOccurrences(order, elements)
  {
    elements := [];
    for i := 0 to |order|
      invariant FirstOccurrences(order[..i], elements)
    {
      var j := 0;
      while j < |elements| && elements[j] != order[i].comp
        invariant 0 <= j <= |elements| && order[i].comp !in elements[..j]
      {
        j := j + 1;
      }
      ghost var before := elements;
      if j == |elements| {
        elements := elements + [order[i].comp];
      }
      OneMoreEntry(order, i, before, elements);
    }
    assert order[..|order|] == order;
  }

  lemma OneMoreEntry(order: seq<CompAndGroup>, i: nat, before: seq<nat>, elements: seq<nat>)
    requires i < |order| && FirstOccurrences(order[..i], before)
    requires elements == if order[i].comp in before then before else before + [order[i].comp]
    ensures FirstOccurrences(order[..i + 1], elements)
  {
    var shorter, longer := order[..i], order[..i + 1];
    assert forall j :: 0 <= j < i ==> longer[j] == shorter[j] && shorter[j].comp in before;
    forall k: nat | k < |elements|
      ensures HasFirst(longer, elements, k)
    {
      if k < |before| {
        assert HasFirst(shorter, before, k);
        var i': nat :| FirstAt(shorter, before, k, i');
        assert elements[..k] == before[..k];
        assert FirstAt(longer, elements, k, i');
      } else {
        assert elements[..k] == before;
        assert FirstAt(longer, elements, k, i);
      }
    }
  }

  /** When no component occurs twice, its place among the elements is its place in the list. */
  lemma {:induction false} ElementsInOrder(order: seq<CompAndGroup>, elements: seq<nat>, k: nat)
    requires FirstOccurrences(order, elements) && k < |elements|
    requires forall i, j :: 0 <= i < j < |order| ==> order[i].comp != order[j].comp
    ensures k < |order| && elements[k] == order[k].comp
  {
    assert HasFirst(order, elements, k);
    var i: nat :| FirstAt(order, elements, k, i);
    forall j: nat | j < k
      ensures j < |order| && elements[j] == order[j].comp
    {
      ElementsInOrder(order, elements, j);
    }
  }

  /**
    Refuses an order with loops, or with fewer groups than components that need a place in it;
    otherwise writes out the evaluation list and the components in it.
  */
  method CreateSubModelOfAllNodes(comps: seq<Component>, nodes: seq<CompAndGroup>, groups: seq<NodeGroup>)
    returns (order: Option<seq<CompAndGroup>>, elements: seq<nat>)
    requires forall k, x :: 0 <= k < |groups| && x in groups[k].nodes ==> x < |nodes|
    ensures order.Some? <==>
      |comps| - WithoutPlace(comps, |comps|) <= |groups| && forall k :: 0 <= k < |groups| ==> !groups[k].isLoop
    ensures order.Some? ==> |order.value| == Min(|Flat(groups, |groups|)|, |nodes|)
    ensures order.Some? ==> FirstOccurrences(order.value, elements)
    ensures order.Some? ==> forall i :: 0 <= i < |order.value| ==>
      Flat(groups, |groups|)[i] < |nodes| && order.value[i] == nodes[Flat(groups, |groups|)[i]]
  {
    hide FirstOccurrences;
    elements := [];
    var withoutPlace := 0;
    for i := 0 to |comps|
      invariant withoutPlace == WithoutPlace(comps, i)
    {
      if !comps[i].partOfInitCalculation && |comps[i].outputs| == 0 {
        withoutPlace := withoutPlace + 1;
      }
    }
    if |comps| - withoutPlace > |groups| {
      return None, elements;
    }
    var loops := OrderedNodesCheckIfLoopsExist(groups);
    if loops {
      return None, elements;
    }
    var list := GetEvaluationList(nodes, groups);
    elements := GetComponentsOfEvaluationList(list);
    order := Some(list);
  }

  // ---------------------------------------------------------------------------------------------
  // The loop that decouples and orders again

  /** The groups are an order of the graph of dependencies. */
  ghost predicate OrdersModel(comps: seq<Component>, d: set<Connection>, groups: seq<NodeGroup>) {
    exists g: Graph :: IsGraphOf(g, comps, d) && IsOrder(g, groups)
  }

  method CreateOrderedNodes(comps: seq<Component>, nodes: seq<CompAndGroup>) returns (groups: seq<NodeGroup>)
    requires Wired(comps)
    requires |nodes| == |comps| && forall i :: 0 <= i < |comps| ==> nodes[i] == CompAndGroup(i, 0)
    ensures OrdersModel(comps, Decoupled(Conns(comps)), groups)
  {
    hide Conns, Decoupled, DependsOn, IsOrder;
    var a := CreateDependencyMatrix(comps, nodes);
    ghost var g := Graph(|nodes|, a.deps[..]);
    MatrixGraph(a, comps, Decoupled(Conns(comps)));
    groups := Tarjan.Tarjan(a.deps[..], |nodes|);
  }

  lemma MatrixGraph(a: Dependencies, comps: seq<Component>, d: set<Connection>)
    requires IsMatrixOf(a, comps, d)
    ensures IsGraphOf(Graph(|comps|, a.deps[..]), comps, d)
  {
    hide Edge;
    var g := Graph(|comps|, a.deps[..]);
    forall v: nat, w: nat
      ensures Edge(g, v, w) <==> DependsOn(comps, d, v, w)
    {
      if v < |comps| && w < |comps| {
        MatrixEdges(a, v, w);
      } else {
        NoEdgeOutside(g, v, w);
      }
    }
  }

  lemma NoEdgeOutside(g: Graph, v: nat, w: nat)
    requires v >= g.n || w >= g.n
    ensures !Edge(g, v, w)
  {
  }

  /** One failed pass: the model was stuck, or the components are not listed by their id. */
  lemma FailedPass(g: Graph, groups: seq<NodeGroup>, comps: seq<Component>, d: set<Connection>, e: set<Connection>)
    requires IsGraphOf(g, comps, d) && IsOrder(g, groups) && StuckSomewhere(comps, d, e, groups)
    ensures UnbreakableCycle(comps, d)
  {
    hide IsGraphOf, IsOrder, PassDone, NoneBreakable, UnbreakableCycle;
    var k :| 0 <= k < |groups| && groups[k].isLoop &&
      PassDone(comps, d, e, groups, k) && NoneBreakable(comps, d, groups[k].nodes);
    StuckMeansUnbreakable(g, groups, comps, d, k);
  }

  lemma FinishedPass(comps: seq<Component>, d0: set<Connection>, d: set<Connection>, e: set<Connection>,
                     groups: seq<NodeGroup>)
    requires BreaksWhole(comps, d0, d) && PassStarted(comps, d, e, groups)
    ensures BreaksWhole(comps, d0, e)
  {
    hide *;
    PassBreaksWhole(comps, d, e, groups);
    BreaksWholeTrans(comps, d0, d, e);
  }

  /**
    Orders the components of a model. The order, when there is one, respects every dependency left;
    and there is one exactly when no cycle of dependencies runs along unbreakable bundles only. The history
    tells the flags before and after every pass: without a loop nothing is decoupled, and with one only what
    is best on a loop.
  */
  method ModelConnectionsDone(comps: seq<Component>)
    returns (order: Option<seq<CompAndGroup>>, elements: seq<nat>, ghost history: seq<set<Connection>>)
    requires Wired(comps)
    modifies Conns(comps)
    ensures BreaksWhole(comps, old(Decoupled(Conns(comps))), Decoupled(Conns(comps)))
    ensures order.Some? ==> IsEvaluationOrder(comps, Decoupled(Conns(comps)), order.value)
    ensures order.Some? ==> FirstOccurrences(order.value, elements)
    ensures order.Some? ==> !UnbreakableCycle(comps, old(Decoupled(Conns(comps))))
    ensures OrderedById(comps) && order.None? ==> UnbreakableCycle(comps, old(Decoupled(Conns(comps))))
    ensures IsHistory(comps, history, order.Some?)
    ensures history[0] == old(Decoupled(Conns(comps))) && history[|history| - 1] == Decoupled(Conns(comps))
    ensures (forall p :: !IsCycle(comps, old(Decoupled(Conns(comps))), p)) ==>
      Decoupled(Conns(comps)) == old(Decoupled(Conns(comps)))
  {
    hide IsHistory, IsCycle;
    hide Wired, Conns, Decoupled, UnbreakableCycle, BreaksWhole, IsGraphOf, IsOrder, IsEvaluationOrder, StuckSomewhere,
         PassDone, PassStarted, OrderedById, SumSizes, Flat, GroupsWithin, FirstOccurrences;
    ghost var d0 := Decoupled(Conns(comps));
    history := [d0];
    HistoryStarts(comps, d0);
    var nodes := FillNodeMap(comps);
    var groups;
    ghost var g;
    groups := CreateOrderedNodes(comps, nodes);
    g :| IsGraphOf(g, comps, Decoupled(Conns(comps))) && IsOrder(g, groups);
    assert BreaksWhole(comps, d0, d0) by { BreaksNothing(comps, d0); }
    var loops := OrderedNodesCheckIfLoopsExist(groups);
    while loops
      invariant IsGraphOf(g, comps, Decoupled(Conns(comps))) && IsOrder(g, groups)
      invariant BreaksWhole(comps, d0, Decoupled(Conns(comps)))
      invariant loops <==> exists k :: 0 <= k < |groups| && groups[k].isLoop
      invariant |history| > 0 && IsHistory(comps, history, true)
      invariant history[0] == d0 && history[|history| - 1] == Decoupled(Conns(comps))
      decreases |Conns(comps) - Decoupled(Conns(comps))|
    {
      ghost var d := Decoupled(Conns(comps));
      GraphFacts(g, groups, comps, d);
      var r := OrderedNodesDecoupleConnections(groups, comps);
      ghost var e := Decoupled(Conns(comps));
      FinishedPass(comps, d0, d, e, groups);
      HistoryGrows(g, groups, comps, history, e, r == Ok);
      history := history + [e];
      if r != Ok {
        if r == NoBundle {
          FailedPass(g, groups, comps, d, e);
          UnbreakableCyclesStay(comps, d0, d);
        }
        NoLoopNothingDecoupled(comps, history, false);
        return None, [], history;
      }
      PassProgress(comps, d, e, groups);
      groups := CreateOrderedNodes(comps, nodes);
      g :| IsGraphOf(g, comps, Decoupled(Conns(comps))) && IsOrder(g, groups);
      loops := OrderedNodesCheckIfLoopsExist(groups);
    }
    ghost var d := Decoupled(Conns(comps));
    GraphFacts(g, groups, comps, d);
    AcyclicMeansNone(g, groups, comps, d);
    UnbreakableCyclesStay(comps, d0, d);
    SinglesInOrder(g, groups);
    order, elements := CreateSubModelOfAllNodes(comps, nodes, groups);
    EvaluationOrderHolds(g, groups, comps, d, order.value);
    NoLoopNothingDecoupled(comps, history, true);
  }

  /** One more pass. */
  lemma HistoryGrows(g: Graph, groups: seq<NodeGroup>, comps: seq<Component>, h: seq<set<Connection>>,
                     e: set<Connection>, done: bool)
    requires |h| > 0 && IsHistory(comps, h, true)
    requires var d := h[|h| - 1];
      IsGraphOf(g, comps, d) && IsOrder(g, groups) && PassStarted(comps, d, e, groups) &&
      (done ==> PassDone(comps, d, e, groups, |groups|))
    requires exists k :: 0 <= k < |groups| && groups[k].isLoop
    ensures IsHistory(comps, h + [e], done)
  {
    hide IsGraphOf, IsOrder, PassDone, IsPass;
    var d := h[|h| - 1];
    var k :| 0 <= k <= |groups| && PassDone(comps, d, e, groups, k);
    if done {
      PassIsPass(g, groups, comps, d, e, |groups|);
    } else {
      PassIsPass(g, groups, comps, d, e, k);
      PassNotComplete(comps, d, e, k == |groups|);
    }
    assert forall i :: 0 <= i < |h| ==> (h + [e])[i] == h[i];
  }

  lemma PassNotComplete(comps: seq<Component>, d: set<Connection>, e: set<Connection>, complete: bool)
    requires IsPass(comps, d, e, complete)
    ensures IsPass(comps, d, e, false)
  {
  }

  lemma HistoryStarts(comps: seq<Component>, d: set<Connection>)
    ensures IsHistory(comps, [d], true)
  {
  }

  /** Without a loop nothing is decoupled. */
  lemma NoLoopNothingDecoupled(comps: seq<Component>, h: seq<set<Connection>>, done: bool)
    requires |h| > 0 && IsHistory(comps, h, done)
    ensures (forall p :: !IsCycle(comps, h[0], p)) ==> h[|h| - 1] == h[0]
  {
    hide IsCycle;
    if |h| > 1 {
      assert IsPass(comps, h[0], h[1], done || 0 < |h| - 2);
    }
  }

  lemma BreaksNothing(comps: seq<Component>, d: set<Connection>)
    ensures BreaksWhole(comps, d, d)
  {
    hide Breakable, Conns;
  }

  lemma GraphFacts(g: Graph, groups: seq<NodeGroup>, comps: seq<Component>, d: set<Connection>)
    requires IsGraphOf(g, comps, d) && IsOrder(g, groups)
    ensures g.n == |comps| && GroupsWithin(groups, |comps|) && SumSizes(groups, |groups|) == |comps|
    ensures forall k, x :: 0 <= k < |groups| && x in groups[k].nodes ==> x < |comps|
  {
    hide IsOrder, DependsOn, Edge;
    OrderWithin(g, groups);
    OrderSize(g, groups);
  }

  // ---------------------------------------------------------------------------------------------
  // When an order is sure to exist, and what is never decoupled

  /** If every connection still in force may be decoupled when needed, no cycle is unbreakable. */
  lemma IfNeededAlwaysOrders(comps: seq<Component>, d: set<Connection>)
    requires Wired(comps)
    requires forall c :: c in Conns(comps) && c !in d ==> c.decoupleType == IfNeeded && c.priority >= 0
    ensures !UnbreakableCycle(comps, d)
  {
    hide Conns, Wired, DependsOn;
    forall p
      ensures !(IsCycle(comps, d, p) && Unbreakable(comps, d, p))
    {
      if IsCycle(comps, d, p) {
        var c, ch := DependencyConnection(comps, d, p[0], p[1]);
        assert Open(d, c, p[1], p[0]);
        assert Breakable(comps, d, p[1], p[0]);
      }
    }
  }

  /** Round an unbreakable cycle the trigger sequence never changes. */
  lemma {:induction false} SequenceConstant(comps: seq<Component>, d: set<Connection>, p: seq<nat>, i: nat)
    requires Wired(comps) && IsCycle(comps, d, p) && Unbreakable(comps, d, p) && i < |p|
    requires forall j :: 0 <= j < |p| ==> p[j] < |comps|
    ensures comps[p[i]].sequenceNumber <= comps[p[0]].sequenceNumber
    ensures comps[p[|p| - 1]].sequenceNumber <= comps[p[|p| - 1 - i]].sequenceNumber
  {
    hide Conns, Wired, DependsOn;
    if i > 0 {
      SequenceConstant(comps, d, p, i - 1);
      StepAlongSequence(comps, d, p, i - 1);
      StepAlongSequence(comps, d, p, |p| - 1 - i);
    }
  }

  lemma StepAlongSequence(comps: seq<Component>, d: set<Connection>, p: seq<nat>, i: nat)
    requires Wired(comps) && IsCycle(comps, d, p) && Unbreakable(comps, d, p) && i < |p| - 1
    requires p[i] < |comps| && p[i + 1] < |comps|
    ensures comps[p[i + 1]].sequenceNumber <= comps[p[i]].sequenceNumber
  {
    hide Conns, Wired, DependsOn;
    var c, ch := DependencyConnection(comps, d, p[i], p[i + 1]);
    assert Open(d, c, p[i + 1], p[i]);
    assert HasOpen(comps, d, p[i + 1], p[i]);
    assert !Breakable(comps, d, p[i + 1], p[i]);
  }

  /** With pairwise different trigger numbers, only a component that depends on itself stands in the way. */
  lemma TriggerSequenceOrders(comps: seq<Component>, d: set<Connection>)
    requires Wired(comps)
    requires forall v, w :: 0 <= v < w < |comps| ==> comps[v].sequenceNumber != comps[w].sequenceNumber
    ensures UnbreakableCycle(comps, d) <==> exists v :: DependsOn(comps, d, v, v) && !Breakable(comps, d, v, v)
  {
    hide Conns, Wired, DependsOn, Breakable;
    if UnbreakableCycle(comps, d) {
      var p :| IsCycle(comps, d, p) && Unbreakable(comps, d, p);
      assert DependsOn(comps, d, p[0], p[1]);
      forall j | 0 <= j < |p|
        ensures p[j] < |comps|
      {
        CycleNode(comps, d, p, j);
      }
      SequenceConstant(comps, d, p, 1);
      SequenceConstant(comps, d, p, |p| - 2);
      assert !Breakable(comps, d, p[1], p[0]);
      assert p[1] == p[0];
    }
    if v :| DependsOn(comps, d, v, v) && !Breakable(comps, d, v, v) {
      assert IsCycle(comps, d, [v, v]) && Unbreakable(comps, d, [v, v]);
    }
  }

  lemma CycleNode(comps: seq<Component>, d: set<Connection>, p: seq<nat>, i: nat)
    requires IsCycle(comps, d, p) && i < |p|
    ensures p[i] < |comps|
  {
    var j := if i < |p| - 1 then i else 0;
    assert DependsOn(comps, d, p[j], p[j + 1]);
  }

  /** A connection that must never be decoupled is decoupled only against the trigger sequence. */
  lemma NeverOnlyAgainstSequence(comps: seq<Component>, d0: set<Connection>, d: set<Connection>, c: Connection)
    requires Wired(comps) && BreaksWhole(comps, d0, d)
    requires c in Conns(comps) && c in d && c !in d0 && c.decoupleType == Never
    ensures c.source < |comps| && c.target < |comps|
    ensures comps[c.source].sequenceNumber > comps[c.target].sequenceNumber
  {
    hide Conns;
    assert Breakable(comps, d0, c.source, c.target);
    assert Open(d0, c, c.source, c.target);
  }
}
