/**
  From connections to an evaluation order: the node map, the dependency matrix of the model at
  runtime, and the choice of the connections to decouple when components form a loop.
*/
module SubModel {
  import opened Graphs
  import opened TarjanState
  import opened Dependency

  const INT_MAX := 0x7FFF_FFFF

  datatype DecoupleType = Never | IfNeeded | Always

  /** A connection together with its description; only the decoupled flag ever changes. */
  class Connection {
    const source: nat
    const target: nat
    const decoupleType: DecoupleType
    const priority: int
    const active: bool
    var decoupled: bool

    constructor (source: nat, target: nat, decoupleType: DecoupleType, priority: int, active: bool)
      ensures this.source == source && this.target == target && this.decoupleType == decoupleType
      ensures this.priority == priority && this.active == active && !decoupled
    {
      this.source, this.target := source, target;
      this.decoupleType, this.priority, this.active := decoupleType, priority, active;
      decoupled := false;
    }

    method SetDecoupled()
      modifies this
      ensures decoupled
    {
      decoupled := true;
    }
  }

  /**
    `inputs[ch]` is the connection that feeds input channel `ch`, if any; `dependsOnInput[ch]` says
    whether the outputs depend on that channel; `outputs[ch]` are the connections leaving output
    channel `ch`. Components are referred to by their position in the list of components.
  */
  datatype Component = Component(
    id: nat,
    sequenceNumber: int,
    partOfInitCalculation: bool,
    inputs: seq<Connection?>,
    dependsOnInput: seq<bool>,
    outputs: seq<seq<Connection>>)

  datatype CompAndGroup = CompAndGroup(comp: nat, group: nat)

  function Conns(comps: seq<Component>): set<Connection> {
    set i, j, k | 0 <= i < |comps| && 0 <= j < |comps[i].outputs| && 0 <= k < |comps[i].outputs[j]| ::
      comps[i].outputs[j][k]
  }

  /** How setting up the connections of a model leaves the components. */
  ghost predicate Wired(comps: seq<Component>) {
    && |comps| <= SIZE_T_ERROR
    && (forall i, j, k :: 0 <= i < |comps| && 0 <= j < |comps[i].outputs| && 0 <= k < |comps[i].outputs[j]| ==>
          var c := comps[i].outputs[j][k]; c.source == i && c.target < |comps| && c.priority <= INT_MAX)
    && (forall v, ch :: 0 <= v < |comps| && 0 <= ch < |comps[v].inputs| && comps[v].inputs[ch] != null ==>
          var c: Connection := comps[v].inputs[ch]; c in Conns(comps) && c.target == v)
    && (forall v :: 0 <= v < |comps| ==> |comps[v].dependsOnInput| == |comps[v].inputs|)
  }

  ghost predicate OrderedById(comps: seq<Component>) {
    forall i :: 0 <= i < |comps| ==> comps[i].id == i
  }

  function Decoupled(conns: set<Connection>): set<Connection>
    reads conns
  {
    set c | c in conns && c.decoupled
  }

  // The specification works on the set `d` of decoupled connections instead of the flags.

  /** Input channel `ch` makes the outputs of `comp` depend on component `w`. */
  predicate Demands(comp: Component, d: set<Connection>, ch: nat, w: nat) {
    && ch < |comp.inputs|
    && ch < |comp.dependsOnInput|
    && comp.dependsOnInput[ch]
    && comp.inputs[ch] != null
    && var c: Connection := comp.inputs[ch];
       c.decoupleType != Always && c !in d && c.active && c.source == w
  }

  /** `v` must be evaluated after `w`. */
  ghost predicate DependsOn(comps: seq<Component>, d: set<Connection>, v: nat, w: nat) {
    && v < |comps|
    && w < |comps|
    && exists ch :: Demands(comps[v], d, ch, w)
  }

  /** `a` is the matrix of `DependsOn`. */
  ghost predicate IsMatrixOf(a: Dependencies, comps: seq<Component>, d: set<Connection>)
    reads a.deps
  {
    && a.Valid()
    && a.numIn == a.numOut == |comps|
    && forall v: nat, w: nat :: v < |comps| && w < |comps| ==>
         (a.Cell(w, v) != DEP_INDEPENDENT <==> DependsOn(comps, d, v, w))
  }

  /** At runtime all outputs of a component form one group. */
  function NumOutGroups(comp: Component): nat {
    1
  }

  function OutGroup(comp: Component): nat {
    0
  }

  method FillNodeMap(comps: seq<Component>) returns (nodes: seq<CompAndGroup>)
    ensures |nodes| == |comps| && forall i :: 0 <= i < |comps| ==> nodes[i] == CompAndGroup(i, 0)
  {
    nodes := [];
    for i := 0 to |comps|
      invariant |nodes| == i && forall k :: 0 <= k < i ==> nodes[k] == CompAndGroup(k, 0)
    {
      for j := 0 to NumOutGroups(comps[i])
        invariant |nodes| == i + j && forall k :: 0 <= k < i + j ==> nodes[k] == CompAndGroup(k, 0)
      {
        nodes := nodes + [CompAndGroup(i, j)];
      }
    }
  }

  method GetNodeID(nodes: seq<CompAndGroup>, comp: nat, group: nat) returns (id: nat)
    requires |nodes| <= SIZE_T_ERROR
    ensures id == SIZE_T_ERROR ==> CompAndGroup(comp, group) !in nodes
    ensures id != SIZE_T_ERROR ==> id < |nodes| && nodes[id] == CompAndGroup(comp, group)
  {
    for i := 0 to |nodes|
      invariant CompAndGroup(comp, group) !in nodes[..i]
    {
      if nodes[i].comp == comp && nodes[i].group == group {
        return i;
      }
    }
    return SIZE_T_ERROR;
  }

  /** The dependencies of the single output group of a component on its input channels. */
  method GetInOutGroupsDependency(comp: Component) returns (a: Dependencies)
    requires |comp.dependsOnInput| == |comp.inputs|
    ensures a.Valid() && fresh(a) && fresh(a.deps) && a.numIn == |comp.inputs| && a.numOut == NumOutGroups(comp)
    ensures forall ch: nat :: ch < a.numIn ==> (a.Cell(ch, 0) != DEP_INDEPENDENT <==> comp.dependsOnInput[ch])
  {
    a := new Dependencies(|comp.inputs|, NumOutGroups(comp));
    for ch := 0 to |comp.inputs|
      invariant a.Valid()
      invariant forall i: nat :: i < a.numIn ==> (a.Cell(i, 0) != DEP_INDEPENDENT <==> i < ch && comp.dependsOnInput[i])
    {
      if comp.dependsOnInput[ch] {
        var ok := a.SetDependency(ch, 0, DEP_DEPENDENT);
      }
    }
  }

  /** Row `v` is finished up to input channel `ch`. */
  ghost predicate RowOf(a: Dependencies, comps: seq<Component>, d: set<Connection>, v: nat, ch: nat)
    requires a.Valid() && a.numIn == a.numOut == |comps| && v < |comps|
    reads a.deps
  {
    forall w: nat :: w < |comps| ==>
      (a.Cell(w, v) != DEP_INDEPENDENT <==> exists i: nat :: i < ch && Demands(comps[v], d, i, w))
  }

  method CreateDependencyMatrix(comps: seq<Component>, nodes: seq<CompAndGroup>) returns (a: Dependencies)
    requires Wired(comps)
    requires |nodes| == |comps| && forall i :: 0 <= i < |comps| ==> nodes[i] == CompAndGroup(i, 0)
    ensures fresh(a) && fresh(a.deps) && IsMatrixOf(a, comps, Decoupled(Conns(comps)))
  {
    hide Conns, Decoupled, Wired, Demands;
    ghost var d := Decoupled(Conns(comps));
    a := new Dependencies(|nodes|, |nodes|);
    for v := 0 to |nodes|
      invariant fresh(a) && fresh(a.deps) && a.Valid() && a.numIn == a.numOut == |comps|
      invariant forall u: nat :: u < v ==> RowOf(a, comps, d, u, |comps[u].inputs|)
      invariant forall u: nat :: v <= u < |comps| ==> RowOf(a, comps, d, u, 0)
    {
      label Before:
      FillRow(a, comps, nodes, v);
      forall u: nat, ch: nat | u < |comps| && u != v && old@Before(RowOf(a, comps, d, u, ch))
        ensures RowOf(a, comps, d, u, ch)
      {
        assert forall w: nat :: w < |comps| ==> a.Cell(w, u) == old@Before(a.Cell(w, u));
      }
    }
    RowsMakeMatrix(a, comps, d);
  }

  lemma RowsMakeMatrix(a: Dependencies, comps: seq<Component>, d: set<Connection>)
    requires a.Valid() && a.numIn == a.numOut == |comps|
    requires forall u: nat :: u < |comps| ==> RowOf(a, comps, d, u, |comps[u].inputs|)
    ensures IsMatrixOf(a, comps, d)
  {
    forall v: nat, w: nat | v < |comps| && w < |comps|
      ensures a.Cell(w, v) != DEP_INDEPENDENT <==> DependsOn(comps, d, v, w)
    {
      assert RowOf(a, comps, d, v, |comps[v].inputs|);
    }
  }

  /** What the tests of the matrix builder decide about one input channel. */
  lemma DemandsMeans(comps: seq<Component>, v: nat, ch: nat, w: nat)
    requires Wired(comps) && v < |comps| && ch < |comps[v].inputs|
    ensures Demands(comps[v], Decoupled(Conns(comps)), ch, w) <==>
      comps[v].dependsOnInput[ch] && comps[v].inputs[ch] != null &&
      var c: Connection := comps[v].inputs[ch];
      c.decoupleType != Always && !c.decoupled && c.active && c.source == w
  {
    hide Conns;
  }

  lemma SourceInRange(comps: seq<Component>, v: nat, ch: nat)
    requires Wired(comps) && v < |comps| && ch < |comps[v].inputs| && comps[v].inputs[ch] != null
    ensures var c: Connection := comps[v].inputs[ch]; c.source < |comps|
  {
  }

  /** The part of the matrix builder that handles one target node. */
  method FillRow(a: Dependencies, comps: seq<Component>, nodes: seq<CompAndGroup>, v: nat)
    requires Wired(comps) && v < |comps|
    requires |nodes| == |comps| && forall i :: 0 <= i < |comps| ==> nodes[i] == CompAndGroup(i, 0)
    requires a.Valid() && a.numIn == a.numOut == |comps|
    requires RowOf(a, comps, Decoupled(Conns(comps)), v, 0)
    modifies a.deps
    ensures RowOf(a, comps, Decoupled(Conns(comps)), v, |comps[v].inputs|)
    ensures forall u: nat, w: nat :: u < |comps| && w < |comps| && u != v ==> a.Cell(w, u) == old(a.Cell(w, u))
  {
    ghost var d := Decoupled(Conns(comps));
    var comp := comps[nodes[v].comp];
    var own := GetInOutGroupsDependency(comp);
    hide Conns, Decoupled, Demands, Wired;
    for ch := 0 to |comp.inputs|
      invariant a.Valid() && own.deps != a.deps
      invariant forall i: nat :: i < own.numIn ==> (own.Cell(i, 0) != DEP_INDEPENDENT <==> comp.dependsOnInput[i])
      invariant RowOf(a, comps, d, v, ch)
      invariant forall u: nat, w: nat :: u < |comps| && w < |comps| && u != v ==> a.Cell(w, u) == old(a.Cell(w, u))
    {
      var ok, dependency := own.GetDependency(ch, nodes[v].group);
      var conn := comp.inputs[ch];
      if dependency != DEP_INDEPENDENT &&
        conn != null && conn.decoupleType != Always && !conn.decoupled && conn.active
      {
        SourceInRange(comps, v, ch);
        assert nodes[conn.source] in nodes;
        var sourceNode := GetNodeID(nodes, conn.source, OutGroup(comps[conn.source]));
        if sourceNode != SIZE_T_ERROR {
          ok := a.SetDependency(sourceNode, v, DEP_DEPENDENT);
        }
      }
      forall w: nat | w < |comps|
        ensures a.Cell(w, v) != DEP_INDEPENDENT <==> exists i: nat :: i < ch + 1 && Demands(comps[v], d, i, w)
      {
        DemandsMeans(comps, v, ch, w);
      }
    }
  }

  // ---------------------------------------------------------------------------------------------
  // Decoupling

  /** `c` leads from `f` to `t`. */
  predicate InBundle(comps: seq<Component>, c: Connection, f: nat, t: nat) {
    c in Conns(comps) && c.source == f && c.target == t
  }

  /** `c` still takes part in the bundle from `f` to `t`. */
  predicate Open(d: set<Connection>, c: Connection, f: nat, t: nat) {
    c.source == f && c.target == t && c !in d
  }

  ghost predicate HasOpen(comps: seq<Component>, d: set<Connection>, f: nat, t: nat) {
    exists c :: c in Conns(comps) && Open(d, c, f, t)
  }

  ghost predicate HasNever(comps: seq<Component>, d: set<Connection>, f: nat, t: nat) {
    exists c :: c in Conns(comps) && Open(d, c, f, t) && c.decoupleType == Never
  }

  /** The trigger sequence says that `f` steps after `t`. */
  predicate AgainstSequence(comps: seq<Component>, f: nat, t: nat) {
    f < |comps| && t < |comps| && comps[f].sequenceNumber > comps[t].sequenceNumber
  }

  /** Some open connection of the bundle may be decoupled with a priority above `p`. */
  ghost predicate Above(comps: seq<Component>, d: set<Connection>, f: nat, t: nat, p: int) {
    exists c :: c in Conns(comps) && Open(d, c, f, t) && c.decoupleType == IfNeeded && c.priority > p
  }

  /** `p` is the priority with which the bundle from `f` to `t` offers itself, -1 if it does not. */
  ghost predicate IsPriority(comps: seq<Component>, d: set<Connection>, f: nat, t: nat, p: int) {
    if !HasOpen(comps, d, f, t) then p == -1
    else if AgainstSequence(comps, f, t) then p == INT_MAX
    else if HasNever(comps, d, f, t) then p == -1
    else p >= -1 && !Above(comps, d, f, t, p) && (p > -1 ==> Above(comps, d, f, t, p - 1))
  }

  /** The bundle can be decoupled as a whole. */
  ghost predicate Breakable(comps: seq<Component>, d: set<Connection>, f: nat, t: nat) {
    && HasOpen(comps, d, f, t)
    && (AgainstSequence(comps, f, t) || (!HasNever(comps, d, f, t) && Above(comps, d, f, t, -1)))
  }

  /** All connections that leave `f` for `t`. */
  method GetConnections(comps: seq<Component>, f: nat, t: nat) returns (bundle: seq<Connection>)
    requires Wired(comps) && f < |comps|
    ensures forall c :: c in bundle <==> InBundle(comps, c, f, t)
    ensures forall j, k :: 0 <= j < |comps[f].outputs| && 0 <= k < |comps[f].outputs[j]| ==>
      comps[f].outputs[j][k].target == t ==> comps[f].outputs[j][k] in bundle
  {
    bundle := [];
    var outs: seq<seq<Connection>> := comps[f].outputs;
    for i := 0 to |outs|
      invariant forall c :: c in bundle ==> InBundle(comps, c, f, t)
      invariant forall j, k :: 0 <= j < i && 0 <= k < |outs[j]| && outs[j][k].target == t ==> outs[j][k] in bundle
    {
      for j := 0 to |outs[i]|
        invariant forall c :: c in bundle ==> InBundle(comps, c, f, t)
        invariant forall l, k :: 0 <= l < i && 0 <= k < |outs[l]| && outs[l][k].target == t ==> outs[l][k] in bundle
        invariant forall k :: 0 <= k < j && outs[i][k].target == t ==> outs[i][k] in bundle
      {
        if outs[i][j].target == t {
          assert outs[i][j] in Conns(comps);
          bundle := bundle + [outs[i][j]];
        }
      }
    }
    OutsOfSource(comps, f, t, bundle);
  }

  lemma OutsOfSource(comps: seq<Component>, f: nat, t: nat, bundle: seq<Connection>)
    requires Wired(comps) && f < |comps|
    requires forall j, k :: 0 <= j < |comps[f].outputs| && 0 <= k < |comps[f].outputs[j]| ==>
      comps[f].outputs[j][k].target == t ==> comps[f].outputs[j][k] in bundle
    ensures forall c :: InBundle(comps, c, f, t) ==> c in bundle
  {
    forall c | InBundle(comps, c, f, t)
      ensures c in bundle
    {
      var i, j, k :| 0 <= i < |comps| && 0 <= j < |comps[i].outputs| && 0 <= k < |comps[i].outputs[j]| &&
        comps[i].outputs[j][k] == c;
      assert comps[i].outputs[j][k].source == i;
    }
  }

  /** The loop that finds the priority of one bundle. */
  method BundlePriority(comps: seq<Component>, f: nat, t: nat, bundle: seq<Connection>) returns (p: int)
    requires f < |comps| && t < |comps|
    requires forall c :: c in bundle <==> InBundle(comps, c, f, t)
    ensures IsPriority(comps, Decoupled(Conns(comps)), f, t, p)
  {
    hide Conns;
    ghost var d := Decoupled(Conns(comps));
    p := -1;
    for k := 0 to |bundle|
      invariant p >= -1
      invariant forall i :: 0 <= i < k && !bundle[i].decoupled ==>
        !AgainstSequence(comps, f, t) && bundle[i].decoupleType != Never &&
        (bundle[i].decoupleType == IfNeeded ==> bundle[i].priority <= p)
      invariant p > -1 ==> Above(comps, d, f, t, p - 1)
    {
      var c := bundle[k];
      assert c in bundle && InBundle(comps, c, f, t);
      if c.decoupled {
        continue;
      }
      assert Open(d, c, f, t);
      if comps[f].sequenceNumber > comps[t].sequenceNumber {
        return INT_MAX;
      } else if c.decoupleType == IfNeeded {
        if c.priority > p {
          p := c.priority;
        }
      } else if c.decoupleType == Never {
        return -1;
      }
    }
    forall c | c in Conns(comps) && Open(d, c, f, t)
      ensures !AgainstSequence(comps, f, t)
      ensures c.decoupleType != Never && (c.decoupleType == IfNeeded ==> c.priority <= p)
    {
      assert InBundle(comps, c, f, t);
      assert c in bundle;
    }
  }

  lemma PriorityFacts(comps: seq<Component>, d: set<Connection>, f: nat, t: nat, p: int)
    requires Wired(comps) && f < |comps| && t < |comps| && IsPriority(comps, d, f, t, p)
    ensures -1 <= p <= INT_MAX
    ensures p >= 0 <==> Breakable(comps, d, f, t)
  {
  }

  /** A connection that still takes part leads from `f` to `t`. */
  ghost predicate TakesPart(comps: seq<Component>, d: set<Connection>, f: nat, t: nat, c: Connection) {
    c in Conns(comps) && c !in d && c.source == f && c.target == t
  }

  /**
    The priority in full: against the trigger sequence the largest number, whatever the connections say;
    otherwise none if one of them must never be decoupled, and the highest one offered if not.
  */
  lemma PriorityMeans(comps: seq<Component>, d: set<Connection>, f: nat, t: nat, p: int)
    requires f < |comps| && t < |comps| && IsPriority(comps, d, f, t, p)
    ensures (forall c :: !TakesPart(comps, d, f, t, c)) ==> p == -1
    ensures (exists c :: TakesPart(comps, d, f, t, c)) ==>
      if comps[f].sequenceNumber > comps[t].sequenceNumber then p == 0x7FFF_FFFF
      else if exists c :: TakesPart(comps, d, f, t, c) && c.decoupleType == Never then p == -1
      else
        && p >= -1
        && (forall c :: TakesPart(comps, d, f, t, c) && c.decoupleType == IfNeeded ==> c.priority <= p)
        && (p > -1 ==>
              exists c :: TakesPart(comps, d, f, t, c) && c.decoupleType == IfNeeded && c.priority == p)
  {
    hide Conns;
    PartsMeans(comps, d, f, t, p);
    PartsMeans(comps, d, f, t, p - 1);
  }

  lemma PartsMeans(comps: seq<Component>, d: set<Connection>, f: nat, t: nat, p: int)
    ensures HasOpen(comps, d, f, t) <==> exists c :: TakesPart(comps, d, f, t, c)
    ensures HasNever(comps, d, f, t) <==> exists c :: TakesPart(comps, d, f, t, c) && c.decoupleType == Never
    ensures Above(comps, d, f, t, p) <==>
      exists c :: TakesPart(comps, d, f, t, c) && c.decoupleType == IfNeeded && c.priority > p
  {
    hide Conns;
    if c :| c in Conns(comps) && Open(d, c, f, t) {
      assert TakesPart(comps, d, f, t, c);
    }
    if c :| c in Conns(comps) && Open(d, c, f, t) && c.decoupleType == Never {
      assert TakesPart(comps, d, f, t, c);
    }
    if c :| c in Conns(comps) && Open(d, c, f, t) && c.decoupleType == IfNeeded && c.priority > p {
      assert TakesPart(comps, d, f, t, c);
    }
  }

  /** A bundle can be decoupled as a whole exactly when its priority in this sense is at least zero. */
  lemma BreakableMeans(comps: seq<Component>, d: set<Connection>, f: nat, t: nat)
    requires f < |comps| && t < |comps|
    ensures Breakable(comps, d, f, t) <==>
      && (exists c :: TakesPart(comps, d, f, t, c))
      && (comps[f].sequenceNumber > comps[t].sequenceNumber ||
          ((forall c :: TakesPart(comps, d, f, t, c) ==> c.decoupleType != Never) &&
           exists c :: TakesPart(comps, d, f, t, c) && c.decoupleType == IfNeeded && c.priority >= 0))
  {
    hide Conns;
    PartsMeans(comps, d, f, t, -1);
  }

  lemma PriorityUnique(comps: seq<Component>, d: set<Connection>, f: nat, t: nat, p: int, q: int)
    requires f < |comps| && t < |comps| && IsPriority(comps, d, f, t, p) && IsPriority(comps, d, f, t, q)
    ensures p == q
  {
  }

  /** The bundle depends only on the flags of its own connections. */
  lemma PrioritySame(comps: seq<Component>, d: set<Connection>, e: set<Connection>, f: nat, t: nat)
    requires forall c :: c in Conns(comps) && c.source == f && c.target == t ==> (c in d <==> c in e)
    ensures forall p :: IsPriority(comps, d, f, t, p) <==> IsPriority(comps, e, f, t, p)
    ensures Breakable(comps, d, f, t) <==> Breakable(comps, e, f, t)
  {
    hide Conns;
    assert forall c :: c in Conns(comps) ==> (Open(d, c, f, t) <==> Open(e, c, f, t));
    assert HasOpen(comps, d, f, t) <==> HasOpen(comps, e, f, t);
    assert HasNever(comps, d, f, t) <==> HasNever(comps, e, f, t);
    forall p
      ensures Above(comps, d, f, t, p) <==> Above(comps, e, f, t, p)
    {
    }
  }

  /** No bundle between nodes of `nodes` has a priority above `p`. */
  ghost predicate NoneAbove(comps: seq<Component>, d: set<Connection>, f: nat, t: nat, p: int) {
    forall q :: IsPriority(comps, d, f, t, q) ==> q <= p
  }

  /** Among the bundles inside `nodes`, the one from `f` to `t` can be decoupled and has the highest priority. */
  ghost predicate IsBest(comps: seq<Component>, d: set<Connection>, nodes: seq<nat>, f: nat, t: nat) {
    && f in nodes
    && t in nodes
    && Breakable(comps, d, f, t)
    && forall p, g, u :: IsPriority(comps, d, f, t, p) && g in nodes && u in nodes ==> NoneAbove(comps, d, g, u, p)
  }

  ghost predicate NoneBreakable(comps: seq<Component>, d: set<Connection>, nodes: seq<nat>) {
    forall f, t :: f in nodes && t in nodes ==> !Breakable(comps, d, f, t)
  }

  datatype Choice = Chosen(from: nat, to: nat) | NothingToDecouple | NotOrderedById

  /** The search for the bundle of a loop group that is to be decoupled. */
  method ChooseBundle(comps: seq<Component>, nodes: seq<nat>) returns (r: Choice)
    requires Wired(comps) && forall x :: x in nodes ==> x < |comps|
    ensures r.Chosen? ==> IsBest(comps, Decoupled(Conns(comps)), nodes, r.from, r.to)
    ensures r.NothingToDecouple? ==> NoneBreakable(comps, Decoupled(Conns(comps)), nodes)
    ensures r.NotOrderedById? ==> exists x :: x in nodes && comps[x].id != x
  {
    hide Wired, Conns, Decoupled, IsPriority, Breakable;
    ghost var d := Decoupled(Conns(comps));
    var best, from, to := -1, 0, 0;
    var ii := 0;
    while ii < |nodes| && best < INT_MAX
      invariant ii <= |nodes| && -1 <= best <= INT_MAX
      invariant forall i, j :: 0 <= i < ii && 0 <= j < |nodes| ==> NoneAbove(comps, d, nodes[i], nodes[j], best)
      invariant best > -1 ==> from in nodes && to in nodes && IsPriority(comps, d, from, to, best)
      decreases |nodes| - ii
    {
      var jj := 0;
      while jj < |nodes| && best < INT_MAX
        invariant jj <= |nodes| && -1 <= best <= INT_MAX
        invariant forall i, j :: 0 <= i < ii && 0 <= j < |nodes| ==> NoneAbove(comps, d, nodes[i], nodes[j], best)
        invariant forall j :: 0 <= j < jj ==> NoneAbove(comps, d, nodes[ii], nodes[j], best)
        invariant best > -1 ==> from in nodes && to in nodes && IsPriority(comps, d, from, to, best)
        decreases |nodes| - jj
      {
        var f, t := nodes[ii], nodes[jj];
        assert f in nodes && t in nodes;
        if comps[f].id != f || comps[t].id != t {
          return NotOrderedById;
        }
        var bundle := GetConnections(comps, f, t);
        var p := BundlePriority(comps, f, t, bundle);
        PriorityFacts(comps, d, f, t, p);
        OnlyPriority(comps, d, f, t, p);
        if p > best {
          best, from, to := p, f, t;
        }
        jj := jj + 1;
      }
      if best == INT_MAX {
        break;
      }
      ii := ii + 1;
    }
    forall g, u | g in nodes && u in nodes
      ensures NoneAbove(comps, d, g, u, best)
    {
      if best == INT_MAX {
        NoneAboveMax(comps, d, g, u);
      }
    }
    if best > -1 {
      PriorityFacts(comps, d, from, to, best);
      OnlyPriority(comps, d, from, to, best);
      return Chosen(from, to);
    } else {
      BoundedNotBreakable(comps, d, nodes);
      return NothingToDecouple;
    }
  }

  lemma OnlyPriority(comps: seq<Component>, d: set<Connection>, f: nat, t: nat, p: int)
    requires f < |comps| && t < |comps| && IsPriority(comps, d, f, t, p)
    ensures forall q :: IsPriority(comps, d, f, t, q) ==> q == p
    ensures NoneAbove(comps, d, f, t, p)
  {
    forall q | IsPriority(comps, d, f, t, q)
      ensures q == p
    {
      PriorityUnique(comps, d, f, t, p, q);
    }
  }

  lemma NoneAboveMax(comps: seq<Component>, d: set<Connection>, f: nat, t: nat)
    requires Wired(comps) && f < |comps| && t < |comps|
    ensures NoneAbove(comps, d, f, t, INT_MAX)
  {
    forall q | IsPriority(comps, d, f, t, q)
      ensures q <= INT_MAX
    {
      PriorityFacts(comps, d, f, t, q);
    }
  }

  /** Every bundle has a priority. */
  lemma PriorityExists(comps: seq<Component>, d: set<Connection>, f: nat, t: nat) returns (p: int)
    requires Wired(comps) && f < |comps| && t < |comps|
    ensures IsPriority(comps, d, f, t, p)
  {
    p := if HasOpen(comps, d, f, t) && AgainstSequence(comps, f, t) then INT_MAX else -1;
    if HasOpen(comps, d, f, t) && !AgainstSequence(comps, f, t) && !HasNever(comps, d, f, t) {
      while Above(comps, d, f, t, p)
        invariant -1 <= p <= INT_MAX && (p > -1 ==> Above(comps, d, f, t, p - 1))
        decreases INT_MAX - p
      {
        p := p + 1;
      }
    }
  }

  lemma BoundedNotBreakable(comps: seq<Component>, d: set<Connection>, nodes: seq<nat>)
    requires Wired(comps) && forall x :: x in nodes ==> x < |comps|
    requires forall f, t :: f in nodes && t in nodes ==> NoneAbove(comps, d, f, t, -1)
    ensures NoneBreakable(comps, d, nodes)
  {
    forall f, t | f in nodes && t in nodes
      ensures !Breakable(comps, d, f, t)
    {
      var p := PriorityExists(comps, d, f, t);
      PriorityFacts(comps, d, f, t, p);
    }
  }

  method DecoupleBundle(comps: seq<Component>, f: nat, t: nat)
    requires Wired(comps) && f < |comps|
    modifies Conns(comps)
    ensures forall c :: c in Conns(comps) ==> (c.decoupled <==> old(c.decoupled) || (c.source == f && c.target == t))
  {
    var bundle := GetConnections(comps, f, t);
    for k := 0 to |bundle|
      invariant forall c :: c in Conns(comps) ==> (c.decoupled <==> old(c.decoupled) || c in bundle[..k])
    {
      assert bundle[k] in bundle && InBundle(comps, bundle[k], f, t);
      bundle[k].SetDecoupled();
    }
    assert bundle[..|bundle|] == bundle;
    forall c | c in Conns(comps)
      ensures c in bundle <==> c.source == f && c.target == t
    {
      assert InBundle(comps, c, f, t) <==> c.source == f && c.target == t;
    }
  }

  // ---------------------------------------------------------------------------------------------
  // One pass over the groups

  predicate Inside(c: Connection, nodes: seq<nat>) {
    c.source in nodes && c.target in nodes
  }

  /** Nodes exist, and no node is in two groups. */
  ghost predicate GroupsWithin(groups: seq<NodeGroup>, n: nat) {
    && (forall k, x :: 0 <= k < |groups| && x in groups[k].nodes ==> x < n)
    && (forall k, l, x :: 0 <= k < l < |groups| && x in groups[k].nodes ==> x !in groups[l].nodes)
  }

  /** Of the connections inside `nodes`, exactly one best bundle has been decoupled. */
  ghost predicate Broken(comps: seq<Component>, d0: set<Connection>, d: set<Connection>, nodes: seq<nat>) {
    exists f, t :: IsBest(comps, d0, nodes, f, t) && OnlyBundleAdded(comps, d0, d, nodes, f, t)
  }

  ghost predicate OnlyBundleAdded(comps: seq<Component>, d0: set<Connection>, d: set<Connection>,
                                  nodes: seq<nat>, f: nat, t: nat)
  {
    forall c :: c in Conns(comps) && Inside(c, nodes) ==> (c in d <==> c in d0 || (c.source == f && c.target == t))
  }

  ghost predicate InSomeLoop(c: Connection, groups: seq<NodeGroup>, k: nat)
    requires k <= |groups|
  {
    exists i :: 0 <= i < k && groups[i].isLoop && Inside(c, groups[i].nodes)
  }

  /** The first `k` groups have been treated: loops are broken, all other connections are as before. */
  ghost predicate PassDone(comps: seq<Component>, d0: set<Connection>, d: set<Connection>,
                           groups: seq<NodeGroup>, k: nat)
    requires k <= |groups|
  {
    && (forall i :: 0 <= i < k && groups[i].isLoop ==> Broken(comps, d0, d, groups[i].nodes))
    && (forall c :: c in Conns(comps) && !InSomeLoop(c, groups, k) ==> (c in d <==> c in d0))
  }

  lemma BestSame(comps: seq<Component>, d: set<Connection>, e: set<Connection>, nodes: seq<nat>)
    requires forall x :: x in nodes ==> x < |comps|
    requires forall c :: c in Conns(comps) && Inside(c, nodes) ==> (c in d <==> c in e)
    ensures forall f, t :: IsBest(comps, d, nodes, f, t) ==> IsBest(comps, e, nodes, f, t)
    ensures NoneBreakable(comps, d, nodes) ==> NoneBreakable(comps, e, nodes)
  {
    hide Conns, IsPriority, Breakable;
    forall f, t | f in nodes && t in nodes
      ensures Breakable(comps, d, f, t) <==> Breakable(comps, e, f, t)
      ensures forall p :: IsPriority(comps, d, f, t, p) <==> IsPriority(comps, e, f, t, p)
    {
      PrioritySame(comps, d, e, f, t);
    }
  }

  /** Connections inside group `k` have not been touched while the groups before it were treated. */
  lemma Untouched(comps: seq<Component>, d0: set<Connection>, d: set<Connection>, groups: seq<NodeGroup>, k: nat)
    requires k < |groups| && GroupsWithin(groups, |comps|) && PassDone(comps, d0, d, groups, k)
    ensures forall c :: c in Conns(comps) && Inside(c, groups[k].nodes) ==> (c in d <==> c in d0)
  {
    hide Conns, Broken;
    forall c | c in Conns(comps) && Inside(c, groups[k].nodes)
      ensures c in d <==> c in d0
    {
      assert !InSomeLoop(c, groups, k);
    }
  }

  lemma PassSkips(comps: seq<Component>, d0: set<Connection>, d: set<Connection>, groups: seq<NodeGroup>, k: nat)
    requires k < |groups| && PassDone(comps, d0, d, groups, k) && !groups[k].isLoop
    ensures PassDone(comps, d0, d, groups, k + 1)
  {
    hide Conns, Broken, Inside;
    forall c | c in Conns(comps) && !InSomeLoop(c, groups, k + 1)
      ensures c in d <==> c in d0
    {
      assert !InSomeLoop(c, groups, k);
    }
  }

  lemma PassBreaks(comps: seq<Component>, d0: set<Connection>, d: set<Connection>, e: set<Connection>,
                   groups: seq<NodeGroup>, k: nat, f: nat, t: nat)
    requires k < |groups| && GroupsWithin(groups, |comps|) && PassDone(comps, d0, d, groups, k) && groups[k].isLoop
    requires IsBest(comps, d, groups[k].nodes, f, t)
    requires forall c :: c in Conns(comps) ==> (c in e <==> c in d || (c.source == f && c.target == t))
    ensures PassDone(comps, d0, e, groups, k + 1)
  {
    hide Conns, IsPriority, Breakable, NoneAbove;
    Untouched(comps, d0, d, groups, k);
    BestSame(comps, d, d0, groups[k].nodes);
    assert OnlyBundleAdded(comps, d0, e, groups[k].nodes, f, t);
    forall i | 0 <= i < k && groups[i].isLoop
      ensures Broken(comps, d0, e, groups[i].nodes)
    {
      var f', t' :|
        IsBest(comps, d0, groups[i].nodes, f', t') && OnlyBundleAdded(comps, d0, d, groups[i].nodes, f', t');
      assert f !in groups[i].nodes;
      assert OnlyBundleAdded(comps, d0, e, groups[i].nodes, f', t');
    }
    forall c | c in Conns(comps) && !InSomeLoop(c, groups, k + 1)
      ensures c in e <==> c in d0
    {
      assert !InSomeLoop(c, groups, k);
      assert !Inside(c, groups[k].nodes);
    }
  }

  function SumSizes(groups: seq<NodeGroup>, k: nat): nat
    requires k <= |groups|
  {
    if k == 0 then 0 else SumSizes(groups, k - 1) + |groups[k - 1].nodes|
  }

  ghost predicate PassStarted(comps: seq<Component>, d0: set<Connection>, d: set<Connection>, groups: seq<NodeGroup>) {
    exists k :: 0 <= k <= |groups| && PassDone(comps, d0, d, groups, k)
  }

  /** The loops before some loop group are broken, and that one has no bundle to offer. */
  ghost predicate StuckSomewhere(comps: seq<Component>, d0: set<Connection>, d: set<Connection>,
                                 groups: seq<NodeGroup>)
  {
    exists k :: 0 <= k < |groups| && groups[k].isLoop &&
      PassDone(comps, d0, d, groups, k) && NoneBreakable(comps, d0, groups[k].nodes)
  }

  datatype Outcome = Ok | WrongNodeCount | NoBundle | IdsOutOfOrder

  method OrderedNodesDecoupleConnections(groups: seq<NodeGroup>, comps: seq<Component>) returns (r: Outcome)
    requires Wired(comps) && GroupsWithin(groups, |comps|)
    modifies Conns(comps)
    ensures r == WrongNodeCount <==> |comps| != SumSizes(groups, |groups|)
    ensures r == WrongNodeCount ==> Decoupled(Conns(comps)) == old(Decoupled(Conns(comps)))
    ensures r == Ok ==> PassDone(comps, old(Decoupled(Conns(comps))), Decoupled(Conns(comps)), groups, |groups|)
    ensures r == NoBundle ==> StuckSomewhere(comps, old(Decoupled(Conns(comps))), Decoupled(Conns(comps)), groups)
    ensures r == IdsOutOfOrder ==> !OrderedById(comps)
    ensures PassStarted(comps, old(Decoupled(Conns(comps))), Decoupled(Conns(comps)), groups)
  {
    hide Conns, Wired, NoneBreakable, IsBest, PassDone;
    var numNodes := 0;
    for i := 0 to |groups|
      invariant numNodes == SumSizes(groups, i)
    {
      numNodes := numNodes + |groups[i].nodes|;
    }
    ghost var d0 := Decoupled(Conns(comps));
    NothingDone(comps, d0, groups);
    if |comps| != numNodes {
      return WrongNodeCount;
    }
    for i := 0 to |groups|
      invariant PassDone(comps, d0, Decoupled(Conns(comps)), groups, i)
    {
      ghost var d := Decoupled(Conns(comps));
      if groups[i].isLoop {
        var choice := ChooseBundle(comps, groups[i].nodes);
        match choice {
          case Chosen(from, to) =>
            BestNodes(comps, d, groups[i].nodes, from, to);
            DecoupleBundle(comps, from, to);
            PassBreaks(comps, d0, d, Decoupled(Conns(comps)), groups, i, from, to);
          case NothingToDecouple =>
            Untouched(comps, d0, d, groups, i);
            BestSame(comps, d, d0, groups[i].nodes);
            return NoBundle;
          case NotOrderedById =>
            return IdsOutOfOrder;
        }
      } else {
        PassSkips(comps, d0, d, groups, i);
      }
    }
    return Ok;
  }

  lemma NothingDone(comps: seq<Component>, d: set<Connection>, groups: seq<NodeGroup>)
    ensures PassDone(comps, d, d, groups, 0)
  {
  }

  lemma BestNodes(comps: seq<Component>, d: set<Connection>, nodes: seq<nat>, f: nat, t: nat)
    requires IsBest(comps, d, nodes, f, t)
    ensures f in nodes && t in nodes && Breakable(comps, d, f, t)
  {
  }

  method OrderedNodesCheckIfLoopsExist(groups: seq<NodeGroup>) returns (b: bool)
    ensures b <==> exists k :: 0 <= k < |groups| && groups[k].isLoop
  {
    for i := 0 to |groups|
      invariant forall k :: 0 <= k < i ==> !groups[k].isLoop
    {
      if groups[i].isLoop {
        return true;
      }
    }
    return false;
  }
}
