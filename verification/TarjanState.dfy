/**
  The state of Tarjan's algorithm as a value, the invariant it keeps while it runs, and the steps
  of the proof that the invariant survives each thing `tarjan_connect` does to the state.

  The nodes whose call of `tarjan_connect` has not returned yet are called gray. The program keeps
  no record of them (they are its call stack), so they are a ghost parameter here.
*/
module TarjanState {
  import opened Collections
  import opened Graphs

  /** The largest `size_t`, which marks an undefined index. */
  const SIZE_T_ERROR: nat := 0xFFFF_FFFF_FFFF_FFFF

  datatype NodeGroup = NodeGroup(nodes: seq<nat>, isLoop: bool)

  datatype State = State(index: nat, vindex: seq<nat>, low: seq<nat>, stack: seq<nat>, groups: seq<NodeGroup>)

  function NodeSet(c: NodeGroup): set<nat> {
    set x | x in c.nodes
  }

  /** The nodes of the first `k` groups. */
  function NodesUpTo(groups: seq<NodeGroup>, k: nat): set<nat>
    requires k <= |groups|
  {
    if k == 0 then {} else NodesUpTo(groups, k - 1) + NodeSet(groups[k - 1])
  }

  function AllNodes(groups: seq<NodeGroup>): set<nat> {
    NodesUpTo(groups, |groups|)
  }

  ghost predicate Distinct(s: seq<nat>) {
    forall i, j :: 0 <= i < j < |s| ==> s[i] != s[j]
  }

  ghost predicate StronglyConnected(g: Graph, s: set<nat>) {
    forall x, y :: x in s && y in s ==> Reach(g, x, y)
  }

  /**
    `c` may follow groups holding the nodes `before`: its nodes are new, reach each other, and have
    no edge to anything later; the loop flag is right.
  */
  ghost predicate GroupOk(g: Graph, c: NodeGroup, before: set<nat>) {
    && |c.nodes| > 0
    && Distinct(c.nodes)
    && (forall x :: x in c.nodes ==> x < g.n && x !in before)
    && StronglyConnected(g, NodeSet(c))
    && ClosedSet(g, before + NodeSet(c))
    && (forall x :: x in c.nodes ==> (c.isLoop <==> OnCycle(g, x)))
  }

  ghost predicate GroupsOk(g: Graph, groups: seq<NodeGroup>) {
    forall k :: 0 <= k < |groups| ==> GroupOk(g, groups[k], NodesUpTo(groups, k))
  }

  /** The index of `v`, undefined before its visit. */
  function Num(st: State, v: nat): nat {
    if v < |st.vindex| then st.vindex[v] else SIZE_T_ERROR
  }

  function Low(st: State, v: nat): nat {
    if v < |st.low| then st.low[v] else SIZE_T_ERROR
  }

  predicate Visited(st: State, v: nat) {
    Num(st, v) != SIZE_T_ERROR
  }

  function VisitedSet(st: State): set<nat> {
    set v: nat | v < |st.vindex| && Visited(st, v)
  }

  ghost predicate Shape(g: Graph, st: State) {
    && |st.vindex| == |st.low| == g.n
    && g.n <= SIZE_T_ERROR
    && st.index == |VisitedSet(st)| <= g.n
    && (forall v: nat :: Visited(st, v) ==> Num(st, v) < st.index)
  }

  ghost predicate StackOk(st: State) {
    && (forall v :: v in st.stack ==> Visited(st, v))
    && (forall i, j :: 0 <= i < j < |st.stack| ==> Num(st, st.stack[i]) < Num(st, st.stack[j]))
  }

  /** Every visited node is on the stack or in a finished group, and never in both. */
  ghost predicate Placed(st: State) {
    && (forall v: nat :: Visited(st, v) <==> v in st.stack || v in AllNodes(st.groups))
    && (forall v :: v in st.stack ==> v !in AllNodes(st.groups))
  }

  /** `y` reaches a gray node that was visited no later than `y`. */
  ghost predicate HasGray(g: Graph, st: State, gray: set<nat>, y: nat) {
    exists x :: x in gray && Num(st, x) <= Num(st, y) && Reach(g, y, x)
  }

  ghost predicate ReachesGray(g: Graph, st: State, gray: set<nat>) {
    forall y :: y in st.stack ==> HasGray(g, st, gray, y)
  }

  /** Every gray node reaches all stack nodes visited after it. */
  ghost predicate GrayReaches(g: Graph, st: State, gray: set<nat>) {
    forall x, y :: x in gray && y in st.stack && Num(st, x) <= Num(st, y) ==> Reach(g, x, y)
  }

  /** A visited node that is no longer gray has only visited successors. */
  ghost predicate NoBlackToWhite(g: Graph, st: State, gray: set<nat>) {
    forall x, w :: Visited(st, x) && x !in gray && Edge(g, x, w) ==> Visited(st, w)
  }

  /** The invariant of the whole run. */
  ghost predicate Inv(g: Graph, st: State, gray: set<nat>) {
    && Shape(g, st)
    && StackOk(st)
    && GroupsOk(g, st.groups)
    && Placed(st)
    && (forall x :: x in gray ==> x in st.stack)
    && ReachesGray(g, st, gray)
    && GrayReaches(g, st, gray)
    && NoBlackToWhite(g, st, gray)
  }

  /** `b` is a later state than `a`: nothing that was decided in `a` has changed. */
  ghost predicate Extends(a: State, b: State) {
    && |a.vindex| == |b.vindex| == |a.low| == |b.low|
    && a.index <= b.index
    && a.stack <= b.stack
    && a.groups <= b.groups
    && (forall v: nat :: Visited(a, v) ==> Num(b, v) == Num(a, v) && Low(b, v) == Low(a, v))
    && (forall v: nat :: Visited(b, v) && !Visited(a, v) ==> a.index <= Num(b, v))
  }

  /** The low link of `v` is the index of some node of `stack` that `v` reaches. */
  ghost predicate LowWitness(g: Graph, st: State, v: nat, stack: seq<nat>) {
    exists y :: y in stack && Num(st, y) == Low(st, v) && Reach(g, v, y)
  }

  /** No edge from `x` to a node of `stack` undercuts `bound`. */
  ghost predicate EdgesBounded(g: Graph, st: State, x: nat, stack: seq<nat>, bound: nat) {
    forall y :: y in stack && Edge(g, x, y) ==> bound <= Num(st, y)
  }

  /** No edge from the nodes of the stack above `height` to `stack` undercuts `bound`. */
  ghost predicate SegmentBounded(g: Graph, st: State, height: nat, stack: seq<nat>, bound: nat) {
    forall i :: height <= i < |st.stack| ==> EdgesBounded(g, st, st.stack[i], stack, bound)
  }

  /** What a call of `tarjan_connect` on `v` in state `a` has established in the state `b` it leaves. */
  ghost predicate Connected(g: Graph, a: State, b: State, v: nat, gray: set<nat>) {
    && Inv(g, b, gray)
    && Extends(a, b)
    && Visited(b, v)
    && Low(b, v) <= Num(b, v)
    && ((b.stack == a.stack && Low(b, v) == Num(b, v)) || LowWitness(g, b, v, a.stack))
    && SegmentBounded(g, b, |a.stack|, a.stack, Low(b, v))
  }

  /** What a call of `tarjan_connect` on `v` may rely on. */
  ghost predicate MayConnect(g: Graph, st: State, v: nat, gray: set<nat>) {
    && Inv(g, st, gray)
    && v < g.n
    && !Visited(st, v)
    && (forall x :: x in gray ==> Reach(g, x, v))
  }

  /**
    The invariant of the loop of `tarjan_connect`: `a` is the state in which the call began, `st` the
    current one, and all successors of `v` below `w` have been looked at.
  */
  ghost predicate LoopInv(g: Graph, a: State, st: State, v: nat, gray: set<nat>, w: nat) {
    && MayConnect(g, a, v, gray)
    && Inv(g, st, gray + {v})
    && Extends(a, st)
    && a.stack + [v] <= st.stack
    && Num(st, v) == a.index
    && Low(st, v) <= a.index
    && LowWitness(g, st, v, st.stack)
    && (forall u: nat :: u < w && Edge(g, v, u) ==> Visited(st, u))
    && SegmentBounded(g, st, |a.stack| + 1, a.stack, Low(st, v))
    && (forall u :: u in a.stack && u < w && Edge(g, v, u) ==> Low(st, v) <= Num(st, u))
  }

  // ---------------------------------------------------------------------------------------------
  // Facts about sequences of groups

  lemma {:induction false} NodesUpToPrefix(a: seq<NodeGroup>, b: seq<NodeGroup>, k: nat)
    requires a <= b && k <= |a|
    ensures NodesUpTo(a, k) == NodesUpTo(b, k)
  {
    if k > 0 {
      NodesUpToPrefix(a, b, k - 1);
    }
  }

  lemma {:induction false} NodesUpToMonotone(groups: seq<NodeGroup>, j: nat, k: nat)
    requires j <= k <= |groups|
    ensures NodesUpTo(groups, j) <= NodesUpTo(groups, k)
  {
    if j < k {
      NodesUpToMonotone(groups, j, k - 1);
    }
  }

  lemma {:induction false} InSomeGroup(groups: seq<NodeGroup>, k: nat, x: nat) returns (j: nat)
    requires k <= |groups| && x in NodesUpTo(groups, k)
    ensures j < k && x in groups[j].nodes
  {
    if x in groups[k - 1].nodes {
      j := k - 1;
    } else {
      j := InSomeGroup(groups, k - 1, x);
    }
  }

  lemma GroupsExtend(g: Graph, groups: seq<NodeGroup>, c: NodeGroup)
    requires GroupsOk(g, groups) && GroupOk(g, c, AllNodes(groups))
    ensures GroupsOk(g, groups + [c])
    ensures AllNodes(groups + [c]) == AllNodes(groups) + NodeSet(c)
  {
    hide GroupOk;
    var all := groups + [c];
    forall k | 0 <= k < |all|
      ensures GroupOk(g, all[k], NodesUpTo(all, k))
    {
      NodesUpToPrefix(groups, all, k);
    }
    NodesUpToPrefix(groups, all, |groups|);
  }

  lemma AllNodesClosed(g: Graph, groups: seq<NodeGroup>)
    requires GroupsOk(g, groups)
    ensures ClosedSet(g, AllNodes(groups))
  {
    if |groups| > 0 {
      assert GroupOk(g, groups[|groups| - 1], NodesUpTo(groups, |groups| - 1));
    }
  }

  lemma VisitedBound(g: Graph, st: State, v: nat)
    requires Shape(g, st) && v < g.n && !Visited(st, v)
    ensures st.index < g.n
  {
    SubsetSize(VisitedSet(st), Below(g.n) - {v});
  }

  // ---------------------------------------------------------------------------------------------
  // Entering a node

  function Entered(st: State, v: nat): State
    requires v < |st.vindex| == |st.low|
  {
    State(st.index + 1, st.vindex[v := st.index], st.low[v := st.index], st.stack + [v], st.groups)
  }

  lemma EnterShape(g: Graph, st: State, v: nat)
    requires Shape(g, st) && v < g.n && !Visited(st, v)
    ensures Shape(g, Entered(st, v)) && Extends(st, Entered(st, v))
    ensures Num(Entered(st, v), v) == Low(Entered(st, v), v) == st.index
  {
    VisitedBound(g, st, v);
    assert forall u: nat :: u != v ==> Num(Entered(st, v), u) == Num(st, u);
    assert VisitedSet(Entered(st, v)) == VisitedSet(st) + {v};
  }

  lemma EnterStack(g: Graph, st: State, v: nat)
    requires Shape(g, st) && StackOk(st) && Placed(st) && v < g.n && !Visited(st, v)
    requires Shape(g, Entered(st, v)) && Extends(st, Entered(st, v))
    ensures StackOk(Entered(st, v)) && Placed(Entered(st, v))
  {
    hide AllNodes;
  }

  lemma EnterGray(g: Graph, st: State, v: nat, gray: set<nat>)
    requires v < |st.vindex| == |st.low|
    requires ReachesGray(g, st, gray) && Extends(st, Entered(st, v))
    requires forall y :: y in gray || y in st.stack ==> Visited(st, y)
    ensures ReachesGray(g, Entered(st, v), gray + {v})
  {
    hide Reach;
    var b := Entered(st, v);
    ReachRefl(g, v);
    forall y | y in b.stack
      ensures HasGray(g, b, gray + {v}, y)
    {
      if y == v {
        assert v in gray + {v};
      } else {
        assert HasGray(g, st, gray, y);
        var x :| x in gray && Num(st, x) <= Num(st, y) && Reach(g, y, x);
        assert x in gray + {v};
      }
    }
  }

  lemma EnterReach(g: Graph, st: State, v: nat, gray: set<nat>)
    requires Shape(g, st) && StackOk(st)
    requires forall x :: x in gray ==> x in st.stack && Reach(g, x, v)
    requires GrayReaches(g, st, gray) && NoBlackToWhite(g, st, gray)
    requires v < g.n && !Visited(st, v)
    requires Extends(st, Entered(st, v))
    ensures GrayReaches(g, Entered(st, v), gray + {v})
    ensures NoBlackToWhite(g, Entered(st, v), gray + {v})
  {
    hide Reach, Edge;
    ReachRefl(g, v);
  }

  lemma Enter(g: Graph, st: State, v: nat, gray: set<nat>)
    requires MayConnect(g, st, v, gray)
    ensures LoopInv(g, st, Entered(st, v), v, gray, 0)
  {
    hide Reach, Edge, GroupsOk, AllNodes;
    var b := Entered(st, v);
    EnterShape(g, st, v);
    EnterStack(g, st, v);
    EnterGray(g, st, v, gray);
    EnterReach(g, st, v, gray);
    ReachRefl(g, v);
    assert v in b.stack;
    assert b.stack == st.stack + [v];
  }

  // ---------------------------------------------------------------------------------------------
  // The loop over the successors of v

  function LowerTo(st: State, v: nat, x: nat): State
    requires v < |st.low|
  {
    st.(low := st.low[v := if st.low[v] < x then st.low[v] else x])
  }

  /** A successor not yet visited may be connected: every gray node reaches it through `v`. */
  lemma MayDescend(g: Graph, a: State, st: State, v: nat, gray: set<nat>, w: nat)
    requires LoopInv(g, a, st, v, gray, w) && Edge(g, v, w) && !Visited(st, w) && w < g.n
    ensures MayConnect(g, st, w, gray + {v})
  {
    hide Reach, Edge, GroupsOk, AllNodes, Placed, ReachesGray;
    ReachEdge(g, v, w);
    assert st.stack[|a.stack|] == v;
    forall x | x in gray + {v}
      ensures Reach(g, x, w)
    {
      if x != v {
        ReachTrans(g, x, v, w);
      }
    }
  }

  lemma GraySame(g: Graph, st: State, b: State, gray: set<nat>)
    requires b.vindex == st.vindex && b.stack == st.stack && ReachesGray(g, st, gray)
    ensures ReachesGray(g, b, gray)
  {
    hide Reach;
    forall y | y in b.stack
      ensures HasGray(g, b, gray, y)
    {
      assert HasGray(g, st, gray, y);
      var x :| x in gray && Num(st, x) <= Num(st, y) && Reach(g, y, x);
      assert Num(b, x) <= Num(b, y);
    }
  }

  lemma ShapeSame(g: Graph, st: State, b: State)
    requires b.vindex == st.vindex && b.stack == st.stack && b.index == st.index && |b.low| == |st.low|
    requires Shape(g, st) && StackOk(st)
    ensures Shape(g, b) && StackOk(b)
  {
    assert forall u: nat :: Num(b, u) == Num(st, u);
    assert VisitedSet(b) == VisitedSet(st);
  }

  /** Changing low links changes nothing the invariant talks about. */
  lemma InvIgnoresLow(g: Graph, st: State, gray: set<nat>, v: nat, x: nat)
    requires Inv(g, st, gray) && v < g.n
    ensures Inv(g, LowerTo(st, v, x), gray)
  {
    hide Reach, Edge, GroupsOk, AllNodes, ReachesGray, StackOk, VisitedSet;
    var b := LowerTo(st, v, x);
    ShapeSame(g, st, b);
    GraySame(g, st, b, gray);
    hide Shape;
    assert forall u: nat :: Num(b, u) == Num(st, u);
  }

  lemma ExtendsTrans(a: State, b: State, c: State)
    requires Extends(a, b) && Extends(b, c)
    ensures Extends(a, c)
  {
  }

  /** Lowering the low link of `v` keeps everything `a` decided when `v` was not visited in `a`. */
  lemma LowerExtends(a: State, st: State, v: nat, x: nat)
    requires Extends(a, st) && v < |st.low| && !Visited(a, v)
    ensures Extends(a, LowerTo(st, v, x))
  {
    var b := LowerTo(st, v, x);
    assert forall u: nat :: Num(b, u) == Num(st, u);
    assert forall u: nat :: u != v ==> Low(b, u) == Low(st, u);
  }

  /** The parts of the loop invariant a low link takes part in. */
  ghost predicate LowOk(g: Graph, a: State, st: State, v: nat, w: nat) {
    && Low(st, v) <= a.index
    && LowWitness(g, st, v, st.stack)
    && SegmentBounded(g, st, |a.stack| + 1, a.stack, Low(st, v))
    && (forall u :: u in a.stack && u < w && Edge(g, v, u) ==> Low(st, v) <= Num(st, u))
  }

  /** What the loop of `tarjan_connect` and a finished recursive call of it say about numbers. */
  lemma DescendFacts(g: Graph, a: State, st: State, c: State, v: nat, gray: set<nat>, w: nat)
    requires LoopInv(g, a, st, v, gray, w) && !Visited(st, w) && w < g.n
    requires Connected(g, st, c, w, gray + {v})
    ensures v < |c.low| && st.stack <= c.stack && a.stack <= st.stack && Extends(st, c)
    ensures Low(c, v) == Low(st, v) <= a.index < Num(c, w)
    ensures forall y :: y in st.stack ==> Num(c, y) == Num(st, y)
    ensures forall y :: y in a.stack ==> y in st.stack
    ensures w !in a.stack
  {
    hide Reach, Edge, GroupsOk, AllNodes, Placed, ReachesGray, GrayReaches, NoBlackToWhite, HasGray, LowWitness,
         SegmentBounded;
    assert st.stack[|a.stack|] == v;
    assert a.stack <= st.stack;
  }

  /** Taking over the low link of a successor that the recursive call has just finished. */
  lemma DescendLow(g: Graph, a: State, st: State, c: State, v: nat, gray: set<nat>, w: nat)
    requires LoopInv(g, a, st, v, gray, w) && Edge(g, v, w) && !Visited(st, w) && w < g.n
    requires Connected(g, st, c, w, gray + {v})
    ensures v < |c.low| && LowOk(g, a, LowerTo(c, v, Low(c, w)), v, w + 1)
  {
    hide Reach, Edge, Inv, MayConnect, Extends, LowWitness;
    DescendFacts(g, a, st, c, v, gray, w);
    DescendWitness(g, a, st, c, v, gray, w);
    var b := LowerTo(c, v, Low(c, w));
    assert forall u: nat :: Num(b, u) == Num(c, u);
    forall i | |a.stack| + 1 <= i < |b.stack|
      ensures EdgesBounded(g, b, b.stack[i], a.stack, Low(b, v))
    {
      if i < |st.stack| {
        assert b.stack[i] == st.stack[i];
        assert EdgesBounded(g, st, st.stack[i], a.stack, Low(st, v));
      } else {
        assert EdgesBounded(g, c, c.stack[i], st.stack, Low(c, w));
      }
    }
  }

  lemma DescendWitness(g: Graph, a: State, st: State, c: State, v: nat, gray: set<nat>, w: nat)
    requires LoopInv(g, a, st, v, gray, w) && Edge(g, v, w) && !Visited(st, w) && w < g.n
    requires Connected(g, st, c, w, gray + {v})
    ensures v < |c.low| && LowWitness(g, LowerTo(c, v, Low(c, w)), v, c.stack)
  {
    hide Reach, Edge, Inv, MayConnect, Extends, SegmentBounded;
    DescendFacts(g, a, st, c, v, gray, w);
    var b := LowerTo(c, v, Low(c, w));
    assert forall u: nat :: Num(b, u) == Num(c, u);
    if Low(c, w) < Low(c, v) {
      var y :| y in st.stack && Num(c, y) == Low(c, w) && Reach(g, w, y);
      ReachEdge(g, v, w);
      ReachTrans(g, v, w, y);
    } else {
      var y :| y in st.stack && Num(st, y) == Low(st, v) && Reach(g, v, y);
      assert y in c.stack && Num(c, y) == Low(b, v);
    }
  }

  lemma Descended(g: Graph, a: State, st: State, c: State, v: nat, gray: set<nat>, w: nat)
    requires LoopInv(g, a, st, v, gray, w) && Edge(g, v, w) && !Visited(st, w) && w < g.n
    requires Connected(g, st, c, w, gray + {v})
    ensures v < |c.low| && LoopInv(g, a, LowerTo(c, v, Low(c, w)), v, gray, w + 1)
  {
    hide Reach, Edge, Inv, SegmentBounded, LowWitness;
    DescendFacts(g, a, st, c, v, gray, w);
    DescendLow(g, a, st, c, v, gray, w);
    InvIgnoresLow(g, c, gray + {v}, v, Low(c, w));
    var b := LowerTo(c, v, Low(c, w));
    ExtendsTrans(a, st, c);
    assert !Visited(a, v);
    LowerExtends(a, c, v, Low(c, w));
    assert st.stack[|a.stack|] == v;
    assert forall u: nat :: Num(b, u) == Num(c, u);
  }

  /** A visited successor on the stack may lower the low link to its own index. */
  lemma SeenLow(g: Graph, a: State, st: State, v: nat, gray: set<nat>, w: nat)
    requires LoopInv(g, a, st, v, gray, w) && Edge(g, v, w) && w in st.stack
    ensures LowOk(g, a, LowerTo(st, v, Num(st, w)), v, w + 1)
  {
    hide Reach, Edge, Inv, MayConnect, AllNodes;
    assert Inv(g, st, gray + {v}) && Shape(g, st) && v < g.n by { hide *; LoopShape(g, a, st, v, gray, w); }
    var b := LowerTo(st, v, Num(st, w));
    assert forall u: nat :: Num(b, u) == Num(st, u);
    ReachEdge(g, v, w);
    var y :| y in st.stack && Num(st, y) == Low(st, v) && Reach(g, v, y);
    forall i | |a.stack| + 1 <= i < |b.stack|
      ensures EdgesBounded(g, b, b.stack[i], a.stack, Low(b, v))
    {
      assert EdgesBounded(g, st, st.stack[i], a.stack, Low(st, v));
    }
  }

  lemma LoopShape(g: Graph, a: State, st: State, v: nat, gray: set<nat>, w: nat)
    requires LoopInv(g, a, st, v, gray, w)
    ensures Inv(g, st, gray + {v}) && Shape(g, st) && v < g.n
  {
  }

  lemma SeenOnStack(g: Graph, a: State, st: State, v: nat, gray: set<nat>, w: nat)
    requires LoopInv(g, a, st, v, gray, w) && Edge(g, v, w) && w in st.stack
    ensures LoopInv(g, a, LowerTo(st, v, Num(st, w)), v, gray, w + 1)
  {
    hide Reach, Edge, GroupsOk, AllNodes, Placed, ReachesGray, GrayReaches, NoBlackToWhite, HasGray, SegmentBounded,
         LowWitness;
    var b := LowerTo(st, v, Num(st, w));
    SeenLow(g, a, st, v, gray, w);
    InvIgnoresLow(g, st, gray + {v}, v, Num(st, w));
    LowerExtends(a, st, v, Num(st, w));
    assert forall u: nat :: Num(b, u) == Num(st, u);
  }

  /** A node that is no successor, or lies in a finished group, changes nothing. */
  lemma Skipped(g: Graph, a: State, st: State, v: nat, gray: set<nat>, w: nat)
    requires LoopInv(g, a, st, v, gray, w)
    requires !Edge(g, v, w) || (Visited(st, w) && w !in st.stack)
    ensures LoopInv(g, a, st, v, gray, w + 1)
  {
    hide Inv, Edge, LowWitness, SegmentBounded;
  }

  // ---------------------------------------------------------------------------------------------
  // Leaving v: either v closes a group, or its part of the stack stays

  /** The nodes of the stack at height `h` and above. */
  function Segment(st: State, h: nat): set<nat>
    requires h <= |st.stack|
  {
    set x | x in st.stack[h..]
  }

  /** Where the stack nodes of a call stand: below `height` with a small index, above it with a large one. */
  lemma SegmentSplit(g: Graph, a: State, st: State, v: nat, gray: set<nat>, w: nat)
    requires LoopInv(g, a, st, v, gray, w)
    ensures |a.stack| < |st.stack| && st.stack[..|a.stack|] == a.stack && st.stack[|a.stack|] == v
    ensures forall x :: x in st.stack <==> x in a.stack || x in Segment(st, |a.stack|)
    ensures forall x :: x in a.stack ==> Num(st, x) == Num(a, x) < a.index
    ensures forall x :: x in Segment(st, |a.stack|) ==> a.index <= Num(st, x)
    ensures forall x :: x in gray ==> x in a.stack
  {
    hide Reach, Edge, GroupsOk, AllNodes, Placed, ReachesGray, GrayReaches, NoBlackToWhite, SegmentBounded, LowWitness;
    assert st.stack == a.stack + st.stack[|a.stack|..];
    assert st.stack[|a.stack|] == v;
    forall i | |a.stack| <= i < |st.stack|
      ensures a.index <= Num(st, st.stack[i])
    {
    }
  }

  /** If `v` kept its own index as low link, no edge leaves its segment except to finished groups. */
  lemma SegmentEdge(g: Graph, a: State, st: State, v: nat, gray: set<nat>, x: nat, y: nat)
    requires LoopInv(g, a, st, v, gray, g.n) && Low(st, v) == Num(st, v) && |a.stack| <= |st.stack|
    requires x in Segment(st, |a.stack|) && Edge(g, x, y) && y < g.n
    ensures y in AllNodes(st.groups) || y in Segment(st, |a.stack|)
  {
    hide Reach, Edge, GroupsOk, AllNodes, ReachesGray, GrayReaches, LowWitness;
    SegmentSplit(g, a, st, v, gray, g.n);
    assert Visited(st, y);
  }

  lemma SegmentClosed(g: Graph, a: State, st: State, v: nat, gray: set<nat>)
    requires LoopInv(g, a, st, v, gray, g.n) && Low(st, v) == Num(st, v) && |a.stack| <= |st.stack|
    ensures ClosedSet(g, AllNodes(st.groups) + Segment(st, |a.stack|))
  {
    hide LoopInv, Segment;
    assert GroupsOk(g, st.groups) by { hide *; LoopGroups(g, a, st, v, gray, g.n); }
    hide GroupsOk;
    AllNodesClosed(g, st.groups);
    hide AllNodes;
    forall x, y | x in AllNodes(st.groups) + Segment(st, |a.stack|) && Edge(g, x, y)
      ensures y in AllNodes(st.groups) + Segment(st, |a.stack|)
    {
      if x !in AllNodes(st.groups) {
        SegmentEdge(g, a, st, v, gray, x, y);
      }
    }
  }

  lemma LoopGroups(g: Graph, a: State, st: State, v: nat, gray: set<nat>, w: nat)
    requires LoopInv(g, a, st, v, gray, w)
    ensures GroupsOk(g, st.groups) && Placed(st)
  {
  }

  /** The gray node that a node of a closed set reaches is in the set too. */
  lemma OnlyGrayInside(g: Graph, st: State, gray: set<nat>, v: nat, s: set<nat>, x: nat)
    requires ClosedSet(g, s) && x in s && HasGray(g, st, gray + {v}, x)
    requires forall z :: z in gray ==> z !in s
    ensures Reach(g, x, v)
  {
    hide Reach, Edge;
    var z :| z in gray + {v} && Num(st, z) <= Num(st, x) && Reach(g, x, z);
    ClosedSetKeepsReach(g, s, x, z);
  }

  lemma GrayOutside(g: Graph, a: State, st: State, v: nat, gray: set<nat>)
    requires LoopInv(g, a, st, v, gray, g.n) && |a.stack| <= |st.stack|
    ensures forall z :: z in gray ==> z !in AllNodes(st.groups) + Segment(st, |a.stack|)
    ensures forall x :: x in Segment(st, |a.stack|) ==> HasGray(g, st, gray + {v}, x)
  {
    hide Reach, Edge, ClosedSet, GroupsOk, AllNodes, NoBlackToWhite, GrayReaches, HasGray, LowWitness,
         SegmentBounded, Extends;
    SegmentSplit(g, a, st, v, gray, g.n);
  }

  /** In a closed segment every node reaches `v`. */
  lemma SegmentReachesV(g: Graph, a: State, st: State, v: nat, gray: set<nat>, x: nat)
    requires LoopInv(g, a, st, v, gray, g.n) && Low(st, v) == Num(st, v) && |a.stack| <= |st.stack|
    requires x in Segment(st, |a.stack|)
    ensures Reach(g, x, v)
  {
    hide *;
    SegmentClosed(g, a, st, v, gray);
    GrayOutside(g, a, st, v, gray);
    OnlyGrayInside(g, st, gray, v, AllNodes(st.groups) + Segment(st, |a.stack|), x);
  }

  /** `v` reaches every node of its segment. */
  lemma VReachesSegment(g: Graph, a: State, st: State, v: nat, gray: set<nat>, x: nat)
    requires LoopInv(g, a, st, v, gray, g.n) && |a.stack| <= |st.stack|
    requires x in Segment(st, |a.stack|)
    ensures Reach(g, v, x)
  {
    hide Reach, Edge, ClosedSet, GroupsOk, AllNodes, NoBlackToWhite, LowWitness, SegmentBounded, Extends, ReachesGray;
    SegmentSplit(g, a, st, v, gray, g.n);
  }

  lemma SegmentConnected(g: Graph, a: State, st: State, v: nat, gray: set<nat>)
    requires LoopInv(g, a, st, v, gray, g.n) && Low(st, v) == Num(st, v) && |a.stack| <= |st.stack|
    ensures StronglyConnected(g, Segment(st, |a.stack|))
  {
    hide Reach, LoopInv, Segment;
    forall x, y | x in Segment(st, |a.stack|) && y in Segment(st, |a.stack|)
      ensures Reach(g, x, y)
    {
      SegmentReachesV(g, a, st, v, gray, x);
      VReachesSegment(g, a, st, v, gray, y);
      ReachTrans(g, x, v, y);
    }
  }

  /** The flag `tarjan_connect` computes: several nodes, or one with a self-loop. */
  predicate LoopFlag(g: Graph, nodes: seq<nat>) {
    if |nodes| == 1 then Edge(g, nodes[0], nodes[0]) else true
  }

  /** In a strongly connected set that only earlier groups follow, the flag says whether there is a cycle. */
  lemma LoopFlagRight(g: Graph, nodes: seq<nat>, before: set<nat>, x: nat)
    requires Distinct(nodes) && x in nodes
    requires StronglyConnected(g, set y | y in nodes)
    requires ClosedSet(g, before) && ClosedSet(g, before + set y | y in nodes)
    requires forall y :: y in nodes ==> y !in before
    ensures LoopFlag(g, nodes) <==> OnCycle(g, x)
  {
    hide Reach, Edge;
    if |nodes| == 1 {
      ReachRefl(g, x);
      if OnCycle(g, x) {
        var w :| Edge(g, x, w) && Reach(g, w, x);
        if w in before {
          ClosedSetKeepsReach(g, before, w, x);
        }
        assert w in before + set y | y in nodes;
      }
    } else {
      var y := if nodes[0] == x then nodes[1] else nodes[0];
      assert y in nodes;
      var w := FirstStep(g, x, y);
      ReachTrans(g, w, y, x);
    }
  }

  /** The state after `v` has closed its group: the segment has moved from the stack to `groups`. */
  function Closed(a: State, st: State, nodes: seq<nat>, isLoop: bool): State {
    st.(stack := a.stack, groups := st.groups + [NodeGroup(nodes, isLoop)])
  }

  lemma ClosedGroups(g: Graph, a: State, st: State, v: nat, gray: set<nat>, nodes: seq<nat>)
    requires LoopInv(g, a, st, v, gray, g.n) && Low(st, v) == Num(st, v) && |a.stack| <= |st.stack|
    requires Distinct(nodes) && (set x | x in nodes) == Segment(st, |a.stack|)
    ensures var b := Closed(a, st, nodes, LoopFlag(g, nodes));
      GroupsOk(g, b.groups) && AllNodes(b.groups) == AllNodes(st.groups) + Segment(st, |a.stack|)
  {
    hide Reach, Edge, LoopInv, Segment, LoopFlag, StronglyConnected, ClosedSet, AllNodes, GroupsOk, Inv;
    var c := NodeGroup(nodes, LoopFlag(g, nodes));
    LoopGroups(g, a, st, v, gray, g.n);
    SegmentNew(g, a, st, v, gray);
    SegmentConnected(g, a, st, v, gray);
    SegmentClosed(g, a, st, v, gray);
    AllNodesClosed(g, st.groups);
    assert NodeSet(c) == Segment(st, |a.stack|);
    forall x | x in nodes
      ensures LoopFlag(g, nodes) <==> OnCycle(g, x)
    {
      assert x in NodeSet(c);
      LoopFlagRight(g, nodes, AllNodes(st.groups), x);
    }
    assert v in c.nodes;
    assert forall x :: x in c.nodes ==> x in Segment(st, |a.stack|);
    assert GroupOk(g, c, AllNodes(st.groups));
    GroupsExtend(g, st.groups, c);
  }

  lemma SegmentNew(g: Graph, a: State, st: State, v: nat, gray: set<nat>)
    requires LoopInv(g, a, st, v, gray, g.n) && |a.stack| <= |st.stack|
    ensures v in Segment(st, |a.stack|)
    ensures forall x :: x in Segment(st, |a.stack|) ==> x < g.n && x !in AllNodes(st.groups)
  {
    hide Reach, Edge, GroupsOk, AllNodes, NoBlackToWhite, LowWitness, SegmentBounded, Extends, ReachesGray, GrayReaches;
    SegmentSplit(g, a, st, v, gray, g.n);
    assert st.stack[|a.stack|..][0] == v;
  }

  /** A gray node found in an earlier state is still good later. */
  lemma GrayStays(g: Graph, a: State, b: State, gray: set<nat>, y: nat)
    requires HasGray(g, a, gray, y) && Extends(a, b) && Visited(a, y)
    requires forall x :: x in gray ==> Visited(a, x)
    ensures HasGray(g, b, gray, y)
  {
    hide Reach;
    var x :| x in gray && Num(a, x) <= Num(a, y) && Reach(g, y, x);
    assert Num(b, x) <= Num(b, y);
  }

  lemma EarlierGrays(g: Graph, a: State, b: State, v: nat, gray: set<nat>)
    requires MayConnect(g, a, v, gray) && Extends(a, b)
    ensures forall y :: y in a.stack ==> HasGray(g, b, gray, y)
  {
    hide Reach, Edge, HasGray, GroupsOk, Placed, Shape, NoBlackToWhite, GrayReaches;
    assert forall x :: x in gray ==> Visited(a, x);
    forall y | y in a.stack
      ensures HasGray(g, b, gray, y)
    {
      hide Extends;
      GrayStays(g, a, b, gray, y);
    }
  }

  /** Once all successors of `v` are visited, `v` need not be gray any more. */
  lemma VTurnsBlack(g: Graph, a: State, st: State, v: nat, gray: set<nat>)
    requires LoopInv(g, a, st, v, gray, g.n)
    ensures NoBlackToWhite(g, st, gray)
  {
    hide Reach, GroupsOk, Placed, Shape, GrayReaches, ReachesGray, LowWitness, SegmentBounded, Extends, StackOk,
         MayConnect;
  }

  lemma ClosedPlaced(g: Graph, a: State, st: State, v: nat, gray: set<nat>, b: State)
    requires LoopInv(g, a, st, v, gray, g.n) && |a.stack| <= |st.stack|
    requires b.vindex == st.vindex && b.stack == a.stack
    requires AllNodes(b.groups) == AllNodes(st.groups) + Segment(st, |a.stack|)
    ensures Placed(b)
  {
    hide LoopInv, AllNodes, Segment;
    LoopGroups(g, a, st, v, gray, g.n);
    SegmentSplit(g, a, st, v, gray, g.n);
    assert forall u: nat :: Num(b, u) == Num(st, u);
  }

  lemma ClosedShape(g: Graph, a: State, st: State, v: nat, gray: set<nat>, b: State)
    requires LoopInv(g, a, st, v, gray, g.n)
    requires b.vindex == st.vindex && b.low == st.low && b.index == st.index && b.stack == a.stack
    requires st.groups <= b.groups
    ensures Shape(g, b) && StackOk(b) && Extends(a, b)
  {
    hide Reach, GroupsOk, Placed, GrayReaches, ReachesGray, LowWitness, SegmentBounded, NoBlackToWhite;
    assert forall u: nat :: Num(b, u) == Num(st, u);
    assert VisitedSet(b) == VisitedSet(st);
    assert a.stack == st.stack[..|a.stack|];
  }

  lemma ClosedReach(g: Graph, a: State, st: State, v: nat, gray: set<nat>, b: State)
    requires LoopInv(g, a, st, v, gray, g.n)
    requires b.vindex == st.vindex && b.stack == a.stack && Extends(a, b)
    ensures (forall x :: x in gray ==> x in b.stack)
    ensures ReachesGray(g, b, gray) && GrayReaches(g, b, gray) && NoBlackToWhite(g, b, gray)
  {
    hide Reach, Edge, GroupsOk, Placed, LowWitness, SegmentBounded, HasGray, Shape, ReachesGray;
    assert ReachesGray(g, b, gray) by {
      hide *;
      assert MayConnect(g, a, v, gray) by { LoopMayConnect(g, a, st, v, gray, g.n); }
      EarlierGrays(g, a, b, v, gray);
      AllHaveGray(g, b, gray);
    }
    VTurnsBlack(g, a, st, v, gray);
    assert forall u: nat :: Num(b, u) == Num(st, u);
    assert a.stack <= st.stack;
  }

  lemma LoopMayConnect(g: Graph, a: State, st: State, v: nat, gray: set<nat>, w: nat)
    requires LoopInv(g, a, st, v, gray, w)
    ensures MayConnect(g, a, v, gray)
  {
  }

  lemma AllHaveGray(g: Graph, st: State, gray: set<nat>)
    requires forall y :: y in st.stack ==> HasGray(g, st, gray, y)
    ensures ReachesGray(g, st, gray)
  {
    hide HasGray;
  }

  /** A root of a component leaves a finished group and the stack it found. */
  lemma RootCloses(g: Graph, a: State, st: State, v: nat, gray: set<nat>, nodes: seq<nat>)
    requires LoopInv(g, a, st, v, gray, g.n) && Low(st, v) == Num(st, v) && |a.stack| <= |st.stack|
    requires Distinct(nodes) && (set x | x in nodes) == Segment(st, |a.stack|)
    ensures Connected(g, a, Closed(a, st, nodes, LoopFlag(g, nodes)), v, gray)
  {
    hide Shape, Extends, StackOk, Placed, LoopInv, Reach, Edge, GroupsOk, AllNodes, LoopFlag, LowWitness, ReachesGray,
         GrayReaches, NoBlackToWhite;
    var b := Closed(a, st, nodes, LoopFlag(g, nodes));
    ClosedGroups(g, a, st, v, gray, nodes);
    ClosedShape(g, a, st, v, gray, b);
    ClosedPlaced(g, a, st, v, gray, b);
    ClosedReach(g, a, st, v, gray, b);
    LoopV(g, a, st, v, gray, g.n);
    assert forall u: nat :: Num(b, u) == Num(st, u) && Low(b, u) == Low(st, u);
  }

  lemma LoopV(g: Graph, a: State, st: State, v: nat, gray: set<nat>, w: nat)
    requires LoopInv(g, a, st, v, gray, w)
    ensures Visited(st, v) && Num(st, v) == a.index && Low(st, v) <= a.index && v < g.n && v in st.stack
  {
    hide Reach, Edge, GroupsOk, Placed, ReachesGray, GrayReaches, NoBlackToWhite, SegmentBounded;
    assert st.stack[|a.stack|] == v;
  }

  // A call whose low link undercuts its own index

  lemma LowBelow(g: Graph, a: State, st: State, v: nat, gray: set<nat>)
    requires LoopInv(g, a, st, v, gray, g.n) && Low(st, v) < Num(st, v)
    ensures LowWitness(g, st, v, a.stack)
  {
    hide Reach, Edge;
    LoopV(g, a, st, v, gray, g.n);
    SegmentSplit(g, a, st, v, gray, g.n);
    assert LowWitness(g, st, v, st.stack) by { hide Inv, Extends, MayConnect, SegmentBounded; }
    hide LoopInv;
    var y :| y in st.stack && Num(st, y) == Low(st, v) && Reach(g, v, y);
    assert y in a.stack;
  }

  /** A stack node that relied on `v` reaches, through the low link of `v`, an earlier gray node. */
  lemma GrayBelow(g: Graph, st: State, v: nat, gray: set<nat>, stack: seq<nat>, y: nat)
    requires HasGray(g, st, gray + {v}, y) && LowWitness(g, st, v, stack) && Low(st, v) <= Num(st, v)
    requires forall u :: u in stack ==> HasGray(g, st, gray, u)
    ensures HasGray(g, st, gray, y)
  {
    hide Reach;
    var z :| z in gray + {v} && Num(st, z) <= Num(st, y) && Reach(g, y, z);
    if z == v {
      var u :| u in stack && Num(st, u) == Low(st, v) && Reach(g, v, u);
      assert HasGray(g, st, gray, u);
      var x :| x in gray && Num(st, x) <= Num(st, u) && Reach(g, u, x);
      ReachTrans(g, y, v, u);
      ReachTrans(g, y, u, x);
    }
  }

  lemma StillReachesGray(g: Graph, a: State, st: State, v: nat, gray: set<nat>)
    requires LoopInv(g, a, st, v, gray, g.n) && Low(st, v) < Num(st, v)
    ensures ReachesGray(g, st, gray)
  {
    hide Reach, Edge, HasGray, LowWitness, SegmentBounded, Shape, StackOk, GroupsOk, Placed, NoBlackToWhite,
         GrayReaches;
    LowBelow(g, a, st, v, gray);
    EarlierGrays(g, a, st, v, gray);
    forall y | y in st.stack
      ensures HasGray(g, st, gray, y)
    {
      hide Extends, MayConnect;
      GrayBelow(g, st, v, gray, a.stack, y);
    }
  }

  /** Without a low link of its own, `v` and its segment stay on the stack for an earlier root. */
  lemma NonRootStays(g: Graph, a: State, st: State, v: nat, gray: set<nat>)
    requires LoopInv(g, a, st, v, gray, g.n) && Low(st, v) < Num(st, v)
    ensures Connected(g, a, st, v, gray)
  {
    hide Reach, Edge, LowWitness, HasGray, Shape, StackOk, GroupsOk, Placed, NoBlackToWhite, ReachesGray;
    LoopV(g, a, st, v, gray, g.n);
    LowBelow(g, a, st, v, gray);
    StillReachesGray(g, a, st, v, gray);
    VTurnsBlack(g, a, st, v, gray);
    forall i | |a.stack| <= i < |st.stack|
      ensures EdgesBounded(g, st, st.stack[i], a.stack, Low(st, v))
    {
      if i == |a.stack| {
        assert st.stack[i] == v;
        VEdgesBounded(g, a, st, v, gray);
      }
    }
  }

  lemma VEdgesBounded(g: Graph, a: State, st: State, v: nat, gray: set<nat>)
    requires LoopInv(g, a, st, v, gray, g.n)
    ensures EdgesBounded(g, st, v, a.stack, Low(st, v))
  {
    hide Inv, Extends, MayConnect, SegmentBounded, LowWitness;
  }

  // ---------------------------------------------------------------------------------------------
  // What a finished run means

  /** The groups are complete: every node is in one of them. */
  ghost predicate IsOrder(g: Graph, groups: seq<NodeGroup>) {
    GroupsOk(g, groups) && AllNodes(groups) == Below(g.n)
  }

  /** Every node stands at exactly one place in exactly one group. */
  lemma OrderIsPartition(g: Graph, groups: seq<NodeGroup>, x: nat)
    requires IsOrder(g, groups)
    ensures x < g.n <==> exists k :: 0 <= k < |groups| && x in groups[k].nodes
    ensures forall k, l :: 0 <= k <= l < |groups| && x in groups[k].nodes && x in groups[l].nodes ==> k == l
    ensures forall k, i, j :: 0 <= k < |groups| && 0 <= i < j < |groups[k].nodes| ==>
      groups[k].nodes[i] != groups[k].nodes[j]
  {
    hide Reach, Edge;
    if x < g.n {
      var k := InSomeGroup(groups, |groups|, x);
    }
    forall k | 0 <= k < |groups|
      ensures x in groups[k].nodes ==> x < g.n
      ensures Distinct(groups[k].nodes)
    {
      assert GroupOk(g, groups[k], NodesUpTo(groups, k));
    }
    forall k, l | 0 <= k <= l < |groups| && x in groups[k].nodes && x in groups[l].nodes
      ensures k == l
    {
      assert GroupOk(g, groups[l], NodesUpTo(groups, l));
      if k < l {
        InGroupUpTo(groups, k, l, x);
      }
    }
  }

  lemma {:induction false} InGroupUpTo(groups: seq<NodeGroup>, k: nat, l: nat, x: nat)
    requires k < l <= |groups| && x in groups[k].nodes
    ensures x in NodesUpTo(groups, l)
  {
    if k < l - 1 {
      InGroupUpTo(groups, k, l - 1, x);
    }
  }

  lemma ClosedUpTo(g: Graph, groups: seq<NodeGroup>, i: nat, v: nat)
    requires IsOrder(g, groups) && i < |groups| && v in groups[i].nodes
    ensures ClosedSet(g, NodesUpTo(groups, i + 1)) && v in NodesUpTo(groups, i + 1)
  {
    hide Reach, Edge, StronglyConnected, Distinct, OnCycle;
    assert GroupOk(g, groups[i], NodesUpTo(groups, i));
  }

  /** What a node reaches, that is, depends on directly or indirectly, is emitted no later than the node. */
  lemma DependenciesFirst(g: Graph, groups: seq<NodeGroup>, i: nat, j: nat, v: nat, w: nat)
    requires IsOrder(g, groups) && i < |groups| && j < |groups|
    requires v in groups[i].nodes && w in groups[j].nodes && Reach(g, v, w)
    ensures j <= i
  {
    hide *;
    ClosedUpTo(g, groups, i, v);
    ClosedSetKeepsReach(g, NodesUpTo(groups, i + 1), v, w);
    var k := InSomeGroup(groups, i + 1, w);
    OrderIsPartition(g, groups, w);
  }

  /** Two nodes share a group exactly when each reaches the other. */
  lemma GroupsAreComponents(g: Graph, groups: seq<NodeGroup>, i: nat, j: nat, v: nat, w: nat)
    requires IsOrder(g, groups) && i < |groups| && j < |groups|
    requires v in groups[i].nodes && w in groups[j].nodes
    ensures i == j <==> Reach(g, v, w) && Reach(g, w, v)
  {
    hide Reach, Edge;
    if i == j {
      assert GroupOk(g, groups[i], NodesUpTo(groups, i));
      assert v in NodeSet(groups[i]) && w in NodeSet(groups[i]);
    } else if Reach(g, v, w) && Reach(g, w, v) {
      DependenciesFirst(g, groups, i, j, v, w);
      DependenciesFirst(g, groups, j, i, w, v);
    }
  }

  /** A group is flagged exactly when a cycle runs through its nodes. */
  lemma FlagMeansCycle(g: Graph, groups: seq<NodeGroup>, i: nat, v: nat)
    requires IsOrder(g, groups) && i < |groups| && v in groups[i].nodes
    ensures groups[i].isLoop <==> OnCycle(g, v)
  {
    hide Reach, Edge;
    assert GroupOk(g, groups[i], NodesUpTo(groups, i));
  }

  /** Some group is flagged exactly when the graph has a cycle. */
  lemma LoopsExistIffCycle(g: Graph, groups: seq<NodeGroup>)
    requires IsOrder(g, groups)
    ensures (exists k :: 0 <= k < |groups| && groups[k].isLoop) <==> (exists x :: OnCycle(g, x))
  {
    hide Reach, IsOrder;
    if k :| 0 <= k < |groups| && groups[k].isLoop {
      var x := GroupHasNode(g, groups, k);
      FlagMeansCycle(g, groups, k, x);
    }
    if x :| OnCycle(g, x) {
      OrderIsPartition(g, groups, x);
      var k :| 0 <= k < |groups| && x in groups[k].nodes;
      FlagMeansCycle(g, groups, k, x);
    }
  }

  lemma GroupHasNode(g: Graph, groups: seq<NodeGroup>, k: nat) returns (x: nat)
    requires IsOrder(g, groups) && k < |groups|
    ensures x in groups[k].nodes
  {
    hide Reach, Edge;
    assert GroupOk(g, groups[k], NodesUpTo(groups, k));
    x := groups[k].nodes[0];
  }
}
