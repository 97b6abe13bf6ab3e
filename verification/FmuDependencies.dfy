/**
  The initial dependency matrix of an FMU: which output depends on which input, read from the list of
  initial unknowns and from the way the inputs are connected.
*/
module FmuDependencies {
  import opened Dependency
  import opened HashMap

  /** A variable of the FMU; `order` is its position in the model description. */
  datatype Variable = Variable(scalar: bool, order: nat, exact: bool)

  /**
    An input channel: what its description says about connections, whether one is attached, and whether it has
    a default.
  */
  datatype Channel = Channel(connected: bool, attached: bool, hasDefault: bool)

  /** A connected channel is always valid; another one needs a default value. */
  predicate IsValid(c: Channel) {
    c.connected || c.attached || c.hasDefault
  }

  /**
    An initial unknown; `index` and the dependencies count from one, and a dependency of zero stands for all
    inputs.
  */
  datatype Unknown = Unknown(index: nat, dependencies: seq<nat>)

  /** The list as it comes from the library: the dependencies of all unknowns in one array. */
  datatype UnknownList = NoList | List(orders: seq<nat>, startIndex: seq<nat>, dependency: seq<nat>)

  predicate WellFormed(list: UnknownList) {
    list.List? ==>
      && |list.startIndex| == |list.orders| + 1
      && (forall u :: 0 <= u < |list.orders| ==> list.startIndex[u] <= list.startIndex[u + 1])
      && (forall u :: 0 <= u <= |list.orders| ==> list.startIndex[u] <= |list.dependency|)
  }

  function UnknownAt(list: UnknownList, u: nat): Unknown
    requires WellFormed(list) && list.List? && u < |list.orders|
  {
    Unknown(list.orders[u] + 1, list.dependency[list.startIndex[u]..list.startIndex[u + 1]])
  }

  // ---------------------------------------------------------------------------------------------
  // What the standard asks for

  /** Input `i` is the scalar variable with this index. */
  predicate IsAt(vars: seq<Variable>, i: nat, index: nat) {
    i < |vars| && vars[i].scalar && vars[i].order + 1 == index
  }

  ghost predicate Distinct(vars: seq<Variable>) {
    forall i: nat, j: nat, index: nat :: IsAt(vars, i, index) && IsAt(vars, j, index) ==> i == j
  }

  /** The dependencies name input `i`, or all inputs. */
  ghost predicate Names(ds: seq<nat>, ins: seq<Variable>, i: nat) {
    0 in ds || exists d :: d in ds && IsAt(ins, i, d)
  }

  /** Some unknown of the list is output `o`. */
  ghost predicate Mentioned(list: UnknownList, outs: seq<Variable>, o: nat)
    requires WellFormed(list) && list.List?
  {
    exists u: nat :: u < |list.orders| && IsAt(outs, o, UnknownAt(list, u).index)
  }

  /** Some unknown of the list is output `o` and depends on input `i`. */
  ghost predicate Listed(list: UnknownList, ins: seq<Variable>, outs: seq<Variable>, i: nat, o: nat)
    requires WellFormed(list) && list.List?
  {
    exists u: nat :: u < |list.orders| &&
      IsAt(outs, o, UnknownAt(list, u).index) && Names(UnknownAt(list, u).dependencies, ins, i)
  }

  /** The description lets output `o` depend on input `i`, whatever the inputs are connected to. */
  ghost predicate MayDepend(list: UnknownList, ins: seq<Variable>, outs: seq<Variable>, i: nat, o: nat)
    requires WellFormed(list) && i < |ins| && o < |outs|
  {
    list.NoList? || Listed(list, ins, outs, i, o) || (!Mentioned(list, outs, o) && !outs[o].exact)
  }

  // ---------------------------------------------------------------------------------------------
  // What the code looks up

  /** The index map of the variables: a later variable replaces an earlier one with the same index. */
  function IndexMap(vars: seq<Variable>): map<nat, nat> {
    if vars == [] then map[]
    else
      var m := IndexMap(vars[..|vars| - 1]);
      if vars[|vars| - 1].scalar then m[vars[|vars| - 1].order + 1 := |vars| - 1] else m
  }

  lemma {:induction false} IndexMapFinds(vars: seq<Variable>)
    requires Distinct(vars)
    ensures forall index: nat, i: nat ::
      (index in IndexMap(vars) && IndexMap(vars)[index] == i) <==> IsAt(vars, i, index)
  {
    if vars != [] {
      var n := |vars| - 1;
      forall i: nat, j: nat, index: nat | IsAt(vars[..n], i, index) && IsAt(vars[..n], j, index)
        ensures i == j
      {
        assert IsAt(vars, i, index) && IsAt(vars, j, index);
      }
      IndexMapFinds(vars[..n]);
      forall index: nat, i: nat
        ensures (index in IndexMap(vars) && IndexMap(vars)[index] == i) <==> IsAt(vars, i, index)
      {
        assert IsAt(vars, i, index) <==> IsAt(vars[..n], i, index) || (i == n && IsAt(vars, n, index));
        if IsAt(vars, n, index) {
          assert IsAt(vars[..n], i, index) ==> IsAt(vars, i, index);
        }
      }
    }
  }

  /** The inputs taken to be in use. */
  function Used(channels: seq<Channel>, firstValid: bool, n: nat): set<nat>
    requires n <= |channels|
  {
    set i: nat | i < n && firstValid && channels[i].connected
  }

  function FirstValid(channels: seq<Channel>): bool {
    |channels| > 0 && IsValid(channels[0])
  }

  /** The inputs that the dependencies lead to. */
  function Named(ds: seq<nat>, toIn: map<nat, nat>, used: set<nat>): set<nat> {
    if ds == [] then {}
    else
      var d := ds[|ds| - 1];
      Named(ds[..|ds| - 1], toIn, used) +
        if d == 0 then used else if d in toIn && toIn[d] in used then {toIn[d]} else {}
  }

  lemma NamesNext(ds: seq<nat>, ins: seq<Variable>, i: nat)
    requires ds != []
    ensures var n := |ds| - 1;
      Names(ds, ins, i) <==> Names(ds[..n], ins, i) || ds[n] == 0 || IsAt(ins, i, ds[n])
  {
    hide IsAt;
    var n := |ds| - 1;
    assert forall d :: d in ds <==> d in ds[..n] || d == ds[n];
  }

  lemma NothingNamed(ins: seq<Variable>, i: nat)
    ensures !Names([], ins, i)
  {
  }

  lemma {:induction false} NamedMeans(ds: seq<nat>, ins: seq<Variable>, used: set<nat>, i: nat)
    requires Distinct(ins)
    ensures i in Named(ds, IndexMap(ins), used) <==> i in used && Names(ds, ins, i)
  {
    hide IndexMap, Distinct, Names;
    if ds == [] {
      NothingNamed(ins, i);
    } else {
      var n := |ds| - 1;
      NamedMeans(ds[..n], ins, used, i);
      IndexMapFinds(ins);
      NamesNext(ds, ins, i);
    }
  }

  /** The outputs among the first `n` unknowns. */
  function MentionedUpTo(list: UnknownList, toOut: map<nat, nat>, n: nat): set<nat>
    requires WellFormed(list) && list.List? && n <= |list.orders|
  {
    if n == 0 then {}
    else
      var index := UnknownAt(list, n - 1).index;
      MentionedUpTo(list, toOut, n - 1) + if index in toOut then {toOut[index]} else {}
  }

  /** The inputs that the first `n` unknowns list for output `o`. */
  function ListedUpTo(list: UnknownList, toIn: map<nat, nat>, toOut: map<nat, nat>, used: set<nat>, o: nat,
                      n: nat): set<nat>
    requires WellFormed(list) && list.List? && n <= |list.orders|
  {
    if n == 0 then {}
    else
      var u := UnknownAt(list, n - 1);
      ListedUpTo(list, toIn, toOut, used, o, n - 1) +
        if u.index in toOut && toOut[u.index] == o then Named(u.dependencies, toIn, used) else {}
  }

  ghost predicate MentionedBefore(list: UnknownList, outs: seq<Variable>, o: nat, n: nat)
    requires WellFormed(list) && list.List? && n <= |list.orders|
  {
    exists u: nat :: u < n && IsAt(outs, o, UnknownAt(list, u).index)
  }

  lemma {:induction false} MentionedMeans(list: UnknownList, outs: seq<Variable>, o: nat, n: nat)
    requires WellFormed(list) && list.List? && n <= |list.orders| && Distinct(outs)
    ensures o in MentionedUpTo(list, IndexMap(outs), n) <==> MentionedBefore(list, outs, o, n)
  {
    hide IndexMap, Distinct, IsAt, WellFormed, UnknownAt;
    if n > 0 {
      MentionedMeans(list, outs, o, n - 1);
      IndexMapFinds(outs);
    }
  }

  ghost predicate ListedBefore(list: UnknownList, ins: seq<Variable>, outs: seq<Variable>, i: nat, o: nat, n: nat)
    requires WellFormed(list) && list.List? && n <= |list.orders|
  {
    exists u: nat :: u < n &&
      IsAt(outs, o, UnknownAt(list, u).index) && Names(UnknownAt(list, u).dependencies, ins, i)
  }

  lemma {:induction false} ListedMeans(
    list: UnknownList, ins: seq<Variable>, outs: seq<Variable>, used: set<nat>, i: nat, o: nat, n: nat)
    requires WellFormed(list) && list.List? && n <= |list.orders| && Distinct(ins) && Distinct(outs)
    ensures i in ListedUpTo(list, IndexMap(ins), IndexMap(outs), used, o, n)
      <==> i in used && ListedBefore(list, ins, outs, i, o, n)
  {
    hide IndexMap, Distinct, IsAt, WellFormed, UnknownAt, Names, Named;
    if n > 0 {
      ListedMeans(list, ins, outs, used, i, o, n - 1);
      IndexMapFinds(outs);
      NamedMeans(UnknownAt(list, n - 1).dependencies, ins, used, i);
    }
  }

  /** The row of output `o` that the code computes. */
  function Row(list: UnknownList, ins: seq<Variable>, outs: seq<Variable>, used: set<nat>, o: nat): set<nat>
    requires WellFormed(list) && o < |outs|
  {
    if list.NoList? then used
    else
      ListedUpTo(list, IndexMap(ins), IndexMap(outs), used, o, |list.orders|) +
        if o in MentionedUpTo(list, IndexMap(outs), |list.orders|) || outs[o].exact then {} else used
  }

  lemma RowMeans(list: UnknownList, ins: seq<Variable>, outs: seq<Variable>, used: set<nat>, i: nat, o: nat)
    requires WellFormed(list) && i < |ins| && o < |outs| && Distinct(ins) && Distinct(outs)
    ensures i in Row(list, ins, outs, used, o) <==> i in used && MayDepend(list, ins, outs, i, o)
  {
    hide IndexMap, Distinct, IsAt, WellFormed, UnknownAt, Names, ListedUpTo, MentionedUpTo;
    if list.List? {
      ListedMeans(list, ins, outs, used, i, o, |list.orders|);
      MentionedMeans(list, outs, o, |list.orders|);
    }
  }

  // ---------------------------------------------------------------------------------------------
  // The code

  /** The map holds exactly the inputs in use. */
  ghost predicate Tells(connectivity: SizeTSizeTMap, used: set<nat>)
    reads connectivity
  {
    forall i: nat :: i in connectivity.entries <==> i in used
  }

  /** Marks all inputs in use as dependencies of one output. */
  method DependOnAll(deps: Dependencies, connectivity: SizeTSizeTMap, out: nat, ghost used: set<nat>) returns (ok: bool)
    requires deps.Valid() && out < deps.numOut && connectivity.Valid() && Tells(connectivity, used)
    requires deps.deps as object != connectivity.hashTable
    modifies deps.deps
    ensures ok
    ensures forall i: nat, o: nat :: i < deps.numIn && o < deps.numOut ==>
      deps.Cell(i, o) == if o == out && i in used then DEP_DEPENDENT else old(deps.Cell(i, o))
  {
    hide IndexMap;
    for k := 0 to deps.numIn
      invariant forall i: nat, o: nat :: i < deps.numIn && o < deps.numOut ==>
        deps.Cell(i, o) == if o == out && i < k && i in used then DEP_DEPENDENT else old(deps.Cell(i, o))
    {
      var elem := connectivity.Get(k);
      if elem != null {
        ok := deps.SetDependency(k, out, DEP_DEPENDENT);
        if !ok {
          return;
        }
      }
    }
    return true;
  }

  /** Marks the dependencies that one unknown lists. */
  method DependOnListed(deps: Dependencies, connectivity: SizeTSizeTMap, toIn: SizeTSizeTMap, out: nat,
                        dependency: seq<nat>, start: nat, end: nat, ghost used: set<nat>)
    returns (ok: bool)
    requires deps.Valid() && out < deps.numOut && connectivity.Valid() && toIn.Valid() && Tells(connectivity, used)
    requires deps.deps as object !in {connectivity.hashTable, toIn.hashTable}
    requires start <= end <= |dependency| && forall i :: i in used ==> i < deps.numIn
    modifies deps.deps
    ensures ok
    ensures forall i: nat, o: nat :: i < deps.numIn && o < deps.numOut ==>
      deps.Cell(i, o) == if o == out && i in Named(dependency[start..end], toIn.entries, used) then DEP_DEPENDENT
                         else old(deps.Cell(i, o))
  {
    ghost var ds := dependency[start..end];
    for j := 0 to end - start
      invariant forall i: nat, o: nat :: i < deps.numIn && o < deps.numOut ==>
        deps.Cell(i, o) == if o == out && i in Named(ds[..j], toIn.entries, used) then DEP_DEPENDENT
                           else old(deps.Cell(i, o))
    {
      var depIdx := dependency[start + j];
      assert ds[..j + 1][..j] == ds[..j];
      if depIdx == 0 {
        ok := DependOnAll(deps, connectivity, out, used);
        if !ok {
          return;
        }
      } else {
        var inPair := toIn.Get(depIdx);
        if inPair != null {
          var elem := connectivity.Get(inPair.value);
          if elem != null {
            ok := deps.SetDependency(inPair.value, out, DEP_DEPENDENT);
            if !ok {
              return;
            }
          }
        }
      }
    }
    assert ds[..end - start] == ds;
    return true;
  }

  /** Maps the index of each scalar output to its channel. */
  method MapOutputs(outs: seq<Variable>) returns (toOut: SizeTSizeTMap)
    ensures toOut.Valid() && fresh(toOut) && fresh(toOut.hashTable) && fresh(toOut.elems)
    ensures toOut.entries == IndexMap(outs)
  {
    toOut := new SizeTSizeTMap();
    for i := 0 to |outs|
      invariant toOut.Valid() && fresh(toOut) && fresh(toOut.hashTable) && fresh(toOut.elems)
      invariant toOut.entries == IndexMap(outs[..i])
    {
      assert outs[..i + 1][..i] == outs[..i];
      if outs[i].scalar {
        toOut.Add(outs[i].order + 1, i);
      }
    }
    assert outs[..|outs|] == outs;
  }

  /** Notes which inputs are in use, asking the first channel every time whether it is valid. */
  method MapInputs(ins: seq<Variable>, channels: seq<Channel>)
    returns (toIn: SizeTSizeTMap, connectivity: SizeTSizeTMap)
    requires |ins| <= |channels|
    ensures toIn.Valid() && fresh(toIn) && fresh(toIn.hashTable) && fresh(toIn.elems)
    ensures connectivity.Valid() && fresh(connectivity) && fresh(connectivity.hashTable) && fresh(connectivity.elems)
    ensures toIn.entries == IndexMap(ins) && Tells(connectivity, Used(channels, FirstValid(channels), |ins|))
  {
    hide SizeTSizeTMap.Valid;
    connectivity := new SizeTSizeTMap();
    toIn := new SizeTSizeTMap();
    var k := 0;
    for i := 0 to |ins|
      invariant toIn != connectivity && toIn.hashTable != connectivity.hashTable && toIn.elems !! connectivity.elems
      invariant toIn.Valid() && fresh(toIn) && fresh(toIn.hashTable) && fresh(toIn.elems)
      invariant connectivity.Valid() && fresh(connectivity)
      invariant fresh(connectivity.hashTable) && fresh(connectivity.elems)
      invariant toIn.entries == IndexMap(ins[..i])
      invariant Tells(connectivity, Used(channels, FirstValid(channels), i))
    {
      assert ins[..i + 1][..i] == ins[..i];
      if IsValid(channels[k]) && channels[i].connected {
        connectivity.Add(i, 1);
      }
      if ins[i].scalar {
        toIn.Add(ins[i].order + 1, i);
      }
    }
    assert ins[..|ins|] == ins;
  }

  /** Marks what one unknown lists, unless it is no output. */
  method ProcessUnknown(list: UnknownList, u: nat, ins: seq<Variable>, outs: seq<Variable>, deps: Dependencies,
                        connectivity: SizeTSizeTMap, toIn: SizeTSizeTMap, toOut: SizeTSizeTMap,
                        processed: SizeTSizeTMap,
                        ghost used: set<nat>) returns (ok: bool)
    requires WellFormed(list) && list.List? && u < |list.orders| && deps.Valid() && |outs| == deps.numOut
    requires connectivity.Valid() && toIn.Valid() && toOut.Valid() && processed.Valid() && Tells(connectivity, used)
    requires deps.deps as object !in {connectivity.hashTable, toIn.hashTable, toOut.hashTable, processed.hashTable}
    requires processed !in {connectivity, toIn, toOut}
    requires processed.hashTable !in {connectivity.hashTable, toIn.hashTable, toOut.hashTable}
    requires processed.elems !! connectivity.elems && processed.elems !! toIn.elems && processed.elems !! toOut.elems
    requires toIn.entries == IndexMap(ins) && toOut.entries == IndexMap(outs)
    requires forall i :: i in used ==> i < deps.numIn
    modifies deps.deps
    modifies processed`chains, processed`elems, processed`entries, processed.hashTable, processed.elems
    ensures ok && processed.Valid() && fresh(processed.elems - old(processed.elems))
    ensures var x, out := UnknownAt(list, u), IndexMap(outs);
      processed.entries == if x.index in out then old(processed.entries)[out[x.index] := 1] else old(processed.entries)
    ensures var x, out := UnknownAt(list, u), IndexMap(outs);
      forall i: nat, o: nat :: i < deps.numIn && o < deps.numOut ==>
        deps.Cell(i, o) ==
          if x.index in out && out[x.index] == o && i in Named(x.dependencies, IndexMap(ins), used) then DEP_DEPENDENT
          else old(deps.Cell(i, o))
  {
    hide SizeTSizeTMap.Valid, IndexMap, Named;
    IndexMapBound(outs);
    ok := true;
    var outPair := toOut.Get(list.orders[u] + 1);
    if outPair != null {
      var out := outPair.value;
      processed.Add(out, 1);
      var start, end := list.startIndex[u], list.startIndex[u + 1];
      ok := DependOnListed(deps, connectivity, toIn, out, list.dependency, start, end, used);
    }
  }

  /** Goes through the listed unknowns; those that are no output are passed over. */
  method ProcessUnknowns(list: UnknownList, ins: seq<Variable>, outs: seq<Variable>, deps: Dependencies,
                         connectivity: SizeTSizeTMap, toIn: SizeTSizeTMap, toOut: SizeTSizeTMap, ghost used: set<nat>)
    returns (ok: bool, processed: SizeTSizeTMap)
    requires WellFormed(list) && list.List? && deps.Valid() && |outs| == deps.numOut
    requires connectivity.Valid() && toIn.Valid() && toOut.Valid() && Tells(connectivity, used)
    requires deps.deps as object !in {connectivity.hashTable, toIn.hashTable, toOut.hashTable}
    requires toIn.entries == IndexMap(ins) && toOut.entries == IndexMap(outs)
    requires forall i :: i in used ==> i < deps.numIn
    modifies deps.deps
    ensures ok && processed.Valid() && fresh(processed) && fresh(processed.hashTable) && fresh(processed.elems)
    ensures Tells(processed, MentionedUpTo(list, IndexMap(outs), |list.orders|))
    ensures forall i: nat, o: nat :: i < deps.numIn && o < deps.numOut ==>
      deps.Cell(i, o) ==
        if i in ListedUpTo(list, IndexMap(ins), IndexMap(outs), used, o, |list.orders|) then DEP_DEPENDENT
        else old(deps.Cell(i, o))
  {
    hide SizeTSizeTMap.Valid, IndexMap, Named, UnknownAt, WellFormed;
    ok := true;
    processed := new SizeTSizeTMap();
    for u := 0 to |list.orders|
      invariant processed.Valid() && fresh(processed) && fresh(processed.hashTable) && fresh(processed.elems)
      invariant Tells(processed, MentionedUpTo(list, IndexMap(outs), u))
      invariant forall i: nat, o: nat :: i < deps.numIn && o < deps.numOut ==>
        deps.Cell(i, o) == if i in ListedUpTo(list, IndexMap(ins), IndexMap(outs), used, o, u) then DEP_DEPENDENT
                           else old(deps.Cell(i, o))
    {
      ok := ProcessUnknown(list, u, ins, outs, deps, connectivity, toIn, toOut, processed, used);
      if !ok {
        return;
      }
    }
    ok := true;
  }

  lemma {:induction false} IndexMapBound(vars: seq<Variable>)
    ensures forall index: nat :: index in IndexMap(vars) ==> IndexMap(vars)[index] < |vars|
  {
    if vars != [] {
      IndexMapBound(vars[..|vars| - 1]);
    }
  }

  /** Outputs that no unknown mentions depend on all inputs unless their initial value is exact. */
  method ProcessOmitted(outs: seq<Variable>, deps: Dependencies, connectivity: SizeTSizeTMap, processed: SizeTSizeTMap,
                        ghost used: set<nat>, ghost mentioned: set<nat>) returns (ok: bool)
    requires deps.Valid() && |outs| == deps.numOut && connectivity.Valid() && processed.Valid()
    requires Tells(connectivity, used) && Tells(processed, mentioned)
    requires deps.deps as object !in {connectivity.hashTable, processed.hashTable}
    modifies deps.deps
    ensures ok
    ensures forall i: nat, o: nat :: i < deps.numIn && o < deps.numOut ==>
      deps.Cell(i, o) == if o !in mentioned && !outs[o].exact && i in used then DEP_DEPENDENT else old(deps.Cell(i, o))
  {
    hide SizeTSizeTMap.Valid;
    for out := 0 to |outs|
      invariant forall i: nat, o: nat :: i < deps.numIn && o < deps.numOut ==>
        deps.Cell(i, o) == if o < out && o !in mentioned && !outs[o].exact && i in used then DEP_DEPENDENT
                           else old(deps.Cell(i, o))
    {
      var elem := processed.Get(out);
      if elem == null && !outs[out].exact {
        ok := DependOnAll(deps, connectivity, out, used);
        if !ok {
          return;
        }
      }
    }
    return true;
  }

  /** Marks what the description and the connections of the inputs say. */
  method SetDependenciesFMU2(ins: seq<Variable>, outs: seq<Variable>, channels: seq<Channel>, list: UnknownList,
                             deps: Dependencies) returns (ok: bool)
    requires WellFormed(list) && deps.Valid() && |ins| == |channels| == deps.numIn && |outs| == deps.numOut
    modifies deps.deps
    ensures ok
    ensures forall i: nat, o: nat :: i < deps.numIn && o < deps.numOut ==>
      deps.Cell(i, o) ==
        if i in Row(list, ins, outs, Used(channels, FirstValid(channels), |ins|), o) then DEP_DEPENDENT
        else old(deps.Cell(i, o))
  {
    hide SizeTSizeTMap.Valid, IndexMap, WellFormed, MentionedUpTo, ListedUpTo;
    var toIn, connectivity := MapInputs(ins, channels);
    ghost var used := Used(channels, FirstValid(channels), |ins|);
    if list.NoList? {
      for o := 0 to deps.numOut
        invariant connectivity.Valid() && Tells(connectivity, used)
        invariant forall i: nat, o': nat :: i < deps.numIn && o' < deps.numOut ==>
          deps.Cell(i, o') == if o' < o && i in used then DEP_DEPENDENT else old(deps.Cell(i, o'))
      {
        ok := DependOnAll(deps, connectivity, o, used);
        if !ok {
          return;
        }
      }
      return true;
    }
    var toOut := MapOutputs(outs);
    var processed: SizeTSizeTMap;
    ok, processed := ProcessUnknowns(list, ins, outs, deps, connectivity, toIn, toOut, used);
    if !ok {
      return;
    }
    ok := ProcessOmitted(outs, deps, connectivity, processed, used, MentionedUpTo(list, IndexMap(outs), |list.orders|));
  }

  // ---------------------------------------------------------------------------------------------
  // What the matrix means

  /** The matrix as the standard and the connections ask for: every input is asked for its own validity. */
  ghost predicate Intended(list: UnknownList, ins: seq<Variable>, outs: seq<Variable>, channels: seq<Channel>,
                           i: nat, o: nat)
    requires WellFormed(list) && i < |ins| == |channels| && o < |outs|
  {
    IsValid(channels[i]) && channels[i].connected && MayDepend(list, ins, outs, i, o)
  }

  /** The cell that the code computes. */
  predicate Computed(list: UnknownList, ins: seq<Variable>, outs: seq<Variable>, channels: seq<Channel>, i: nat, o: nat)
    requires WellFormed(list) && i < |ins| == |channels| && o < |outs|
  {
    i in Row(list, ins, outs, Used(channels, FirstValid(channels), |ins|), o)
  }

  /** The code asks the first channel for all of them. */
  lemma ComputedMeans(list: UnknownList, ins: seq<Variable>, outs: seq<Variable>, channels: seq<Channel>,
                      i: nat, o: nat)
    requires WellFormed(list) && Distinct(ins) && Distinct(outs) && i < |ins| == |channels| && o < |outs|
    ensures Computed(list, ins, outs, channels, i, o)
      <==> IsValid(channels[0]) && channels[i].connected && MayDepend(list, ins, outs, i, o)
  {
    hide WellFormed, Distinct, MayDepend, Row, IsValid;
    RowMeans(list, ins, outs, Used(channels, FirstValid(channels), |ins|), i, o);
  }

  /** Output `o` is the `u`th initial unknown of the list. */
  ghost predicate IsUnknown(list: UnknownList, outs: seq<Variable>, o: nat, u: nat) {
    list.List? && u < |list.orders| && o < |outs| && outs[o].scalar && list.orders[u] == outs[o].order
  }

  /** Entry `j` of the array of dependencies belongs to unknown `u`, and names input `i`, or all inputs. */
  ghost predicate IsDependency(list: UnknownList, ins: seq<Variable>, i: nat, u: nat, j: nat)
    requires WellFormed(list) && list.List? && u < |list.orders|
  {
    && i < |ins|
    && list.startIndex[u] <= j < list.startIndex[u + 1]
    && (list.dependency[j] == 0 || (ins[i].scalar && list.dependency[j] == ins[i].order + 1))
  }

  lemma ListedInFull(list: UnknownList, ins: seq<Variable>, outs: seq<Variable>, i: nat, o: nat)
    requires WellFormed(list) && list.List? && i < |ins| && o < |outs|
    ensures Mentioned(list, outs, o) <==> exists u: nat :: IsUnknown(list, outs, o, u)
    ensures Listed(list, ins, outs, i, o) <==>
      exists u: nat, j: nat :: IsUnknown(list, outs, o, u) && IsDependency(list, ins, i, u, j)
  {
    forall u: nat | u < |list.orders|
      ensures IsAt(outs, o, UnknownAt(list, u).index) <==> IsUnknown(list, outs, o, u)
      ensures Names(UnknownAt(list, u).dependencies, ins, i) <==> exists j: nat :: IsDependency(list, ins, i, u, j)
    {
      DependenciesInFull(list, ins, i, u);
    }
  }

  lemma DependenciesInFull(list: UnknownList, ins: seq<Variable>, i: nat, u: nat)
    requires WellFormed(list) && list.List? && i < |ins| && u < |list.orders|
    ensures Names(UnknownAt(list, u).dependencies, ins, i) <==> exists j: nat :: IsDependency(list, ins, i, u, j)
  {
    var ds, start := UnknownAt(list, u).dependencies, list.startIndex[u];
    if k :| 0 <= k < |ds| && ds[k] == 0 {
      assert list.dependency[start + k] == 0;
      assert IsDependency(list, ins, i, u, start + k);
    } else if d :| d in ds && IsAt(ins, i, d) {
      var k :| 0 <= k < |ds| && ds[k] == d;
      assert list.dependency[start + k] == d;
      assert IsDependency(list, ins, i, u, start + k);
    }
    if j: nat :| IsDependency(list, ins, i, u, j) {
      assert ds[j - start] == list.dependency[j];
      assert list.dependency[j] in ds;
    }
  }

  /**
    The matrix in full: a cell is set exactly when the input is connected, the first channel is connected or has
    a default value, and there is no list, or the list names the input for the output, or it leaves the output
    out and its initial value is not exact.
  */
  lemma ComputedInFull(list: UnknownList, ins: seq<Variable>, outs: seq<Variable>, channels: seq<Channel>,
                       i: nat, o: nat)
    requires WellFormed(list) && Distinct(ins) && Distinct(outs) && i < |ins| == |channels| && o < |outs|
    ensures Computed(list, ins, outs, channels, i, o) <==>
      && (channels[0].connected || channels[0].attached || channels[0].hasDefault)
      && channels[i].connected
      && (|| list.NoList?
          || (exists u: nat, j: nat :: IsUnknown(list, outs, o, u) && IsDependency(list, ins, i, u, j))
          || ((forall u: nat :: !IsUnknown(list, outs, o, u)) && !outs[o].exact))
  {
    ComputedMeans(list, ins, outs, channels, i, o);
    hide WellFormed, Distinct, Computed, Mentioned, Listed;
    if list.List? {
      ListedInFull(list, ins, outs, i, o);
    }
  }

  /** The matrix is the intended one, cell by cell. */
  ghost predicate MatchesIntent(list: UnknownList, ins: seq<Variable>, outs: seq<Variable>, channels: seq<Channel>)
    requires WellFormed(list) && |ins| == |channels|
  {
    forall i: nat, o: nat :: i < |ins| && o < |outs| ==>
      (Computed(list, ins, outs, channels, i, o) <==> Intended(list, ins, outs, channels, i, o))
  }

  /** Some connected input matters to some output. */
  ghost predicate SomeInputMatters(list: UnknownList, ins: seq<Variable>, outs: seq<Variable>, channels: seq<Channel>)
    requires WellFormed(list) && |ins| == |channels|
  {
    exists i: nat, o: nat :: i < |ins| && o < |outs| && channels[i].connected && MayDepend(list, ins, outs, i, o)
  }

  /** The matrix is the intended one exactly when the first channel is valid, or no connected input matters. */
  lemma IntendedIffFirstValid(list: UnknownList, ins: seq<Variable>, outs: seq<Variable>, channels: seq<Channel>)
    requires WellFormed(list) && Distinct(ins) && Distinct(outs) && |ins| == |channels|
    ensures MatchesIntent(list, ins, outs, channels)
      <==> FirstValid(channels) || !SomeInputMatters(list, ins, outs, channels)
  {
    hide WellFormed, Distinct, MayDepend, Computed;
    forall i: nat, o: nat | i < |ins| && o < |outs|
      ensures (Computed(list, ins, outs, channels, i, o) <==> Intended(list, ins, outs, channels, i, o))
        <==> (FirstValid(channels) || !(channels[i].connected && MayDepend(list, ins, outs, i, o)))
    {
      ComputedMeans(list, ins, outs, channels, i, o);
    }
  }

  /** When it is not, the code loses every dependency. */
  lemma AllDependenciesLost(list: UnknownList, ins: seq<Variable>, outs: seq<Variable>, channels: seq<Channel>)
    requires WellFormed(list) && Distinct(ins) && Distinct(outs) && |ins| == |channels|
    requires !MatchesIntent(list, ins, outs, channels)
    ensures forall i: nat, o: nat :: i < |ins| && o < |outs| ==> !Computed(list, ins, outs, channels, i, o)
  {
    IntendedIffFirstValid(list, ins, outs, channels);
    hide WellFormed, Distinct, MayDepend, Computed;
    forall i: nat, o: nat | i < |ins| && o < |outs|
      ensures !Computed(list, ins, outs, channels, i, o)
    {
      ComputedMeans(list, ins, outs, channels, i, o);
    }
  }

  /**
    The first input is not connected and has no default: the dependency on the second one, which is connected,
    is lost.
  */
  lemma SecondInputIsLost()
    ensures var ins, outs := [Variable(true, 0, false), Variable(true, 1, false)], [Variable(true, 2, false)];
      var channels := [Channel(false, false, false), Channel(true, true, false)];
      && Intended(NoList, ins, outs, channels, 1, 0)
      && !Computed(NoList, ins, outs, channels, 1, 0)
  {
  }

  /**
    The matrix of an FMU: one row per output, or one row for all valid inputs when there are no outputs;
    without an imported FMU there is none.
  */
  method GetInOutGroupsInitialDependency(imported: bool, ins: seq<Variable>, outs: seq<Variable>,
                                         channels: seq<Channel>,
                                         list: UnknownList) returns (deps: Dependencies?)
    requires WellFormed(list) && |ins| == |channels|
    ensures deps != null <==> imported
    ensures imported ==> deps.Valid() && fresh(deps)
    ensures imported ==> deps.numIn == |ins| && deps.numOut == if outs == [] then 1 else |outs|
    ensures imported && outs == [] ==>
      forall i: nat :: i < |ins| ==>
        (deps.Cell(i, 0) == DEP_DEPENDENT <==>
           channels[i].connected || channels[i].attached || channels[i].hasDefault)
    ensures imported && outs != [] ==> forall i: nat, o: nat :: i < |ins| && o < |outs| ==>
      (deps.Cell(i, o) == DEP_DEPENDENT <==> Computed(list, ins, outs, channels, i, o))
  {
    hide WellFormed, Row;
    if !imported {
      return null;
    }
    var matrix: Dependencies;
    if |outs| == 0 {
      matrix := new Dependencies(|ins|, 1);
      for j := 0 to |ins|
        invariant forall i: nat :: i < |ins| ==> (matrix.Cell(i, 0) == DEP_DEPENDENT <==> i < j && IsValid(channels[i]))
      {
        if IsValid(channels[j]) {
          var ok := matrix.SetDependency(j, 0, DEP_DEPENDENT);
          if !ok {
            return null;
          }
        }
      }
    } else {
      matrix := new Dependencies(|ins|, |outs|);
      var ok := SetDependenciesFMU2(ins, outs, channels, list, matrix);
      if !ok {
        return null;
      }
    }
    return matrix;
  }
}
