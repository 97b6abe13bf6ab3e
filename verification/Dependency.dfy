/** The dependency matrix between the inputs and the outputs of one component, or between the nodes of a model. */
module Dependency {
  import opened Graphs

  const DEP_INDEPENDENT := 0
  const DEP_DEPENDENT := 1

  /** One row of `numIn` cells per output, so the row of an output lists what it depends on. */
  class Dependencies {
    const numIn: nat
    const numOut: nat
    const deps: array<int>

    ghost predicate Valid() {
      deps.Length == numIn * numOut
    }

    ghost function Cell(inIndex: nat, outIndex: nat): int
      requires Valid() && inIndex < numIn && outIndex < numOut
      reads deps
    {
      CellIndex(inIndex, outIndex, numIn, numOut);
      deps[outIndex * numIn + inIndex]
    }

    constructor (numIn: nat, numOut: nat)
      ensures Valid() && fresh(deps) && this.numIn == numIn && this.numOut == numOut
      ensures forall k :: 0 <= k < deps.Length ==> deps[k] == DEP_INDEPENDENT
      ensures forall i: nat, o: nat :: i < numIn && o < numOut ==> Cell(i, o) == DEP_INDEPENDENT
    {
      this.numIn := numIn;
      this.numOut := numOut;
      deps := new int[numIn * numOut](_ => DEP_INDEPENDENT);
      new;
      forall i: nat, o: nat | i < numIn && o < numOut
        ensures Cell(i, o) == DEP_INDEPENDENT
      {
        CellIndex(i, o, numIn, numOut);
      }
    }

    /** Writes one cell and no other; an index out of range is an error that changes nothing. */
    method SetDependency(inIndex: nat, outIndex: nat, dep: int) returns (ok: bool)
      requires Valid()
      modifies deps
      ensures Valid()
      ensures ok <==> inIndex < numIn && outIndex < numOut
      ensures !ok ==> deps[..] == old(deps[..])
      ensures ok ==> forall i: nat, o: nat :: i < numIn && o < numOut ==>
        Cell(i, o) == if i == inIndex && o == outIndex then dep else old(Cell(i, o))
    {
      if inIndex >= numIn || outIndex >= numOut {
        return false;
      }
      CellIndex(inIndex, outIndex, numIn, numOut);
      var index := outIndex * numIn + inIndex;
      deps[index] := dep;
      forall i: nat, o: nat | i < numIn && o < numOut
        ensures Cell(i, o) == if i == inIndex && o == outIndex then dep else old(Cell(i, o))
      {
        CellIndex(i, o, numIn, numOut);
        CellsDiffer(i, o, inIndex, outIndex, numIn);
      }
      return true;
    }

    /** Reads one cell. A matrix without outputs has no dependencies; one without inputs is an error. */
    method GetDependency(inIndex: nat, outIndex: nat) returns (ok: bool, dep: int)
      requires Valid()
      ensures ok <==> numIn != 0 && (numOut == 0 || (inIndex < numIn && outIndex < numOut))
      ensures ok ==> dep == if numOut == 0 then DEP_INDEPENDENT else Cell(inIndex, outIndex)
    {
      if numIn == 0 {
        return false, DEP_INDEPENDENT;
      }
      if numOut == 0 {
        return true, DEP_INDEPENDENT;
      }
      if inIndex >= numIn || outIndex >= numOut {
        return false, DEP_INDEPENDENT;
      }
      CellIndex(inIndex, outIndex, numIn, numOut);
      return true, deps[outIndex * numIn + inIndex];
    }
  }

  lemma CellIndex(i: nat, o: nat, numIn: nat, numOut: nat)
    requires i < numIn && o < numOut
    ensures 0 <= o * numIn + i < numIn * numOut
  {
    assert o * numIn + numIn == (o + 1) * numIn <= numOut * numIn;
  }

  /** Different cells have different places in the flat array. */
  lemma CellsDiffer(i: nat, o: nat, i': nat, o': nat, numIn: nat)
    requires i < numIn && i' < numIn
    ensures o * numIn + i == o' * numIn + i' <==> i == i' && o == o'
  {
    if o < o' {
      assert (o + 1) * numIn <= o' * numIn;
    } else if o' < o {
      assert (o' + 1) * numIn <= o * numIn;
    }
  }

  /** A square matrix read as a graph: an edge from each output node to each input node it depends on. */
  lemma MatrixEdges(d: Dependencies, v: nat, w: nat)
    requires d.Valid() && d.numIn == d.numOut && v < d.numOut && w < d.numIn
    ensures ValidGraph(Graph(d.numIn, d.deps[..]))
    ensures Edge(Graph(d.numIn, d.deps[..]), v, w) <==> d.Cell(w, v) != DEP_INDEPENDENT
  {
    CellIndex(w, v, d.numIn, d.numOut);
  }
}
