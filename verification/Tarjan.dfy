/** Tarjan's algorithm as the library runs it: a recursive search over mutable arrays and a bounded stack. */
module Tarjan {
  import opened Graphs
  import opened TarjanState

  /** A stack of fixed capacity; a push on a full stack is dropped and a pop of an empty one is undefined. */
  class Stack {
    const values: array<nat>
    var top: nat

    ghost predicate Valid()
      reads this
    {
      top <= values.Length
    }

    ghost function Contents(): seq<nat>
      requires Valid()
      reads this, values
    {
      values[..top]
    }

    constructor (maxSize: nat)
      ensures Valid() && fresh(values) && values.Length == maxSize && Contents() == []
    {
      values := new nat[maxSize];
      top := 0;
    }

    method Elem(v: nat) returns (found: bool)
      requires Valid()
      ensures found <==> v in Contents()
    {
      for i := 0 to top
        invariant v !in values[..i]
      {
        if values[i] == v {
          return true;
        }
      }
      return false;
    }

    method Push(v: nat)
      requires Valid()
      modifies this`top, values
      ensures Valid()
      ensures Contents() == if old(top) < values.Length then old(Contents()) + [v] else old(Contents())
    {
      if top < values.Length {
        values[top] := v;
        top := top + 1;
      }
    }

    method Pop() returns (v: nat)
      requires Valid()
      modifies this`top
      ensures Valid()
      ensures old(Contents()) == [] ==> v == SIZE_T_ERROR && Contents() == []
      ensures old(Contents()) != [] ==> old(Contents()) == Contents() + [v]
    {
      if top > 0 {
        top := top - 1;
        return values[top];
      }
      return SIZE_T_ERROR;
    }

    /** The do-while loop that collects the nodes of a component. */
    method PopDownTo(v: nat, ghost height: nat) returns (nodes: seq<nat>)
      requires Valid() && height < top && Contents()[height] == v && Distinct(Contents())
      modifies this`top
      ensures Valid() && Contents() == old(Contents())[..height]
      ensures |nodes| > 0 && Distinct(nodes)
      ensures forall x :: x in nodes <==> x in old(Contents())[height..]
    {
      ghost var stack := Contents();
      var w := Pop();
      nodes := [w];
      assert stack[top..] == [w];
      while w != v
        invariant Valid() && height <= top < |stack| && Contents() == stack[..top]
        invariant w == stack[top]
        invariant Distinct(nodes) && |nodes| > 0 && forall x :: x in nodes <==> x in stack[top..]
        decreases top
      {
        w := Pop();
        assert w == stack[top];
        DropOne(stack, top);
        nodes := nodes + [w];
      }
      assert top == height;
    }
  }

  lemma DropOne(stack: seq<nat>, k: nat)
    requires k < |stack| && Distinct(stack)
    ensures stack[k] !in stack[k + 1..]
    ensures forall x :: x in stack[k..] <==> x == stack[k] || x in stack[k + 1..]
  {
    assert stack[k..] == [stack[k]] + stack[k + 1..];
  }

  class TarjanData {
    const g: Graph
    var index: nat
    const vindex: array<nat>
    const vlowlink: array<nat>
    const s: Stack
    var groups: seq<NodeGroup>

    ghost predicate Valid()
      reads this, s
    {
      && s.Valid()
      && ValidGraph(g)
      && vindex.Length == vlowlink.Length == s.values.Length == g.n
      && vindex != vlowlink && vindex != s.values && vlowlink != s.values
    }

    ghost function St(): State
      requires Valid()
      reads this, s, s.values, vindex, vlowlink
    {
      State(index, vindex[..], vlowlink[..], s.Contents(), groups)
    }

    constructor (g: Graph)
      requires ValidGraph(g) && g.n <= SIZE_T_ERROR
      ensures Valid() && this.g == g
      ensures fresh(vindex) && fresh(vlowlink) && fresh(s) && fresh(s.values)
      ensures St() == State(0, seq(g.n, _ => SIZE_T_ERROR), seq(g.n, _ => SIZE_T_ERROR), [], [])
    {
      this.g := g;
      index := 0;
      s := new Stack(g.n);
      groups := [];
      vindex := new nat[g.n](_ => SIZE_T_ERROR);
      vlowlink := new nat[g.n](_ => SIZE_T_ERROR);
    }

    method Enter(v: nat)
      requires Valid() && v < g.n && s.top < g.n
      modifies this`index, vindex, vlowlink, s, s.values
      ensures Valid() && St() == Entered(old(St()), v)
    {
      vindex[v] := index;
      vlowlink[v] := index;
      index := index + 1;
      s.Push(v);
    }

    method LowerLink(v: nat, x: nat)
      requires Valid() && v < g.n
      modifies vlowlink
      ensures St() == LowerTo(old(St()), v, x)
    {
      vlowlink[v] := if vlowlink[v] < x then vlowlink[v] else x;
    }

    /** Turns the stack down to `v` into a new group. */
    method CloseGroup(v: nat, ghost height: nat) returns (nodes: seq<nat>)
      requires Valid() && height < s.top && s.Contents()[height] == v
      requires Distinct(s.Contents()) && forall x :: x in s.Contents() ==> x < g.n
      modifies this`groups, s
      ensures Valid()
      ensures Distinct(nodes) && (set x | x in nodes) == Segment(old(St()), height)
      ensures St() == old(St()).(stack := old(St()).stack[..height],
                                 groups := old(St()).groups + [NodeGroup(nodes, LoopFlag(g, nodes))])
    {
      ghost var stack := s.Contents();
      nodes := s.PopDownTo(v, height);
      var isLoop := true;
      if |nodes| == 1 {
        assert nodes[0] in stack[height..] && nodes[0] in stack;
        EdgeCell(g, nodes[0], nodes[0]);
        isLoop := g.A[nodes[0] * g.n + nodes[0]] != 0;
      }
      groups := groups + [NodeGroup(nodes, isLoop)];
    }

    /** Visits `v` and everything reachable from it that has not been visited yet. */
    method Connect(v: nat, ghost gray: set<nat>)
      requires Valid() && MayConnect(g, St(), v, gray)
      modifies this`index, this`groups, vindex, vlowlink, s, s.values
      ensures Valid() && Connected(g, old(St()), St(), v, gray)
      decreases g.n - index
    {
      hide Inv, MayConnect, LoopInv, Connected, Extends, Edge, Reach;
      ghost var a := St();
      EntryFacts(g, a, v, gray);
      Enter(v);
      TarjanState.Enter(g, a, v, gray);
      for w := 0 to g.n
        invariant Valid() && LoopInv(g, a, St(), v, gray, w)
      {
        ghost var st := St();
        CellInRange(v, w, g.n);
        LoopFacts(g, a, st, v, gray, w);
        if g.A[v * g.n + w] != 0 {
          assert Edge(g, v, w) by { EdgeCell(g, v, w); }
          if vindex[w] == SIZE_T_ERROR {
            MayDescend(g, a, st, v, gray, w);
            Connect(w, gray + {v});
            Descended(g, a, st, St(), v, gray, w);
            LowerLink(v, vlowlink[w]);
          } else {
            var onStack := s.Elem(w);
            if onStack {
              SeenOnStack(g, a, st, v, gray, w);
              LowerLink(v, vindex[w]);
            } else {
              Skipped(g, a, st, v, gray, w);
            }
          }
        } else {
          assert !Edge(g, v, w) by { EdgeCell(g, v, w); }
          Skipped(g, a, st, v, gray, w);
        }
      }
      ghost var st := St();
      LoopFacts(g, a, st, v, gray, g.n);
      if vlowlink[v] == vindex[v] {
        var nodes := CloseGroup(v, |a.stack|);
        RootCloses(g, a, st, v, gray, nodes);
        assert St() == Closed(a, st, nodes, LoopFlag(g, nodes));
      } else {
        NonRootStays(g, a, st, v, gray);
      }
    }
  }

  /** Stack nodes carry strictly increasing indices, so the stack is no longer than the index counter. */
  lemma {:induction false} StackFits(g: Graph, st: State, i: nat)
    requires Shape(g, st) && StackOk(st) && i < |st.stack|
    ensures i <= Num(st, st.stack[i]) < st.index
  {
    if i > 0 {
      StackFits(g, st, i - 1);
    }
  }

  lemma EntryFacts(g: Graph, a: State, v: nat, gray: set<nat>)
    requires MayConnect(g, a, v, gray)
    ensures v < g.n && |a.stack| <= a.index < g.n
  {
    hide Reach, Edge;
    VisitedBound(g, a, v);
    if |a.stack| > 0 {
      StackFits(g, a, |a.stack| - 1);
    }
  }

  lemma EdgeCell(g: Graph, v: nat, w: nat)
    requires ValidGraph(g) && v < g.n && w < g.n
    ensures 0 <= v * g.n + w < |g.A| && (Edge(g, v, w) <==> g.A[v * g.n + w] != 0)
  {
    CellInRange(v, w, g.n);
  }

  lemma LoopFacts(g: Graph, a: State, st: State, v: nat, gray: set<nat>, w: nat)
    requires LoopInv(g, a, st, v, gray, w)
    ensures v < g.n && a.index < st.index
    ensures Low(st, v) <= Num(st, v)
    ensures |a.stack| < |st.stack| && st.stack[|a.stack|] == v && st.stack[..|a.stack|] == a.stack
    ensures Distinct(st.stack) && forall x :: x in st.stack ==> x < g.n
  {
    hide Reach, Edge, GroupsOk, Placed, ReachesGray, GrayReaches, NoBlackToWhite, SegmentBounded, LowWitness;
    SegmentSplit(g, a, st, v, gray, w);
    LoopV(g, a, st, v, gray, w);
  }

  /**
    The strongly connected components of the graph with adjacency matrix `A`, each one before the
    components that have edges to it.
  */
  method Tarjan(A: seq<int>, n: nat) returns (groups: seq<NodeGroup>)
    requires |A| == n * n && n <= SIZE_T_ERROR
    ensures IsOrder(Graph(n, A), groups)
  {
    hide Inv, MayConnect, Connected, IsOrder;
    var g := Graph(n, A);
    var data := new TarjanData(g);
    InitialInv(g, data.St());
    for v := 0 to n
      invariant data.Valid() && data.g == g && Inv(g, data.St(), {})
      invariant fresh(data) && fresh(data.vindex) && fresh(data.vlowlink) && fresh(data.s) && fresh(data.s.values)
      invariant forall u: nat :: u < v ==> Visited(data.St(), u)
    {
      ghost var st := data.St();
      if data.vindex[v] == SIZE_T_ERROR {
        StartsFresh(g, st, v);
        data.Connect(v, {});
        VisitedStays(g, st, data.St(), v, {});
      }
    }
    Finished(g, data.St());
    groups := data.groups;
  }

  lemma InitialInv(g: Graph, st: State)
    requires g.n <= SIZE_T_ERROR
    requires st == State(0, seq(g.n, _ => SIZE_T_ERROR), seq(g.n, _ => SIZE_T_ERROR), [], [])
    ensures Inv(g, st, {})
  {
    assert VisitedSet(st) == {};
  }

  lemma StartsFresh(g: Graph, st: State, v: nat)
    requires Inv(g, st, {}) && v < g.n && !Visited(st, v)
    ensures MayConnect(g, st, v, {})
  {
  }

  lemma VisitedStays(g: Graph, a: State, b: State, v: nat, gray: set<nat>)
    requires Connected(g, a, b, v, gray)
    ensures Visited(b, v) && Inv(g, b, gray)
    ensures forall u: nat :: Visited(a, u) ==> Visited(b, u)
  {
  }

  /** With no call left open the stack is empty, so every node is in a finished group. */
  lemma Finished(g: Graph, st: State)
    requires Inv(g, st, {}) && forall u: nat :: u < g.n ==> Visited(st, u)
    ensures IsOrder(g, st.groups)
  {
    hide Reach, Edge, GroupsOk, AllNodes;
    if st.stack != [] {
      HasElement(st.stack);
    }
  }

  lemma HasElement(s: seq<nat>)
    requires s != []
    ensures exists y :: y in s
  {
    assert s[0] in s;
  }
}
