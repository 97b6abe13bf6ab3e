/** Lookup in a table of points by halving it, and the buffer of points of an extrapolation polynomial. */
module Interpolation {

  /** A floating point result; a division by zero is counted as not a number. */
  datatype Value = Number(value: real) | NaN

  datatype InterpType = InterpNotSet | InterpLinear | InterpStepRight

  datatype ExtrapType = ExtrapNotSet | ExtrapConst | ExtrapLinear

  function Line(x0: real, y0: real, x1: real, y1: real, x: real): Value {
    if x1 == x0 then NaN else Number(y0 + (x - x0) * (y1 - y0) / (x1 - x0))
  }

  function Middle(n: nat): (m: nat)
    ensures n > 2 ==> 0 < n - m - 1 <= m && m + 1 < n
  {
    n / 2
  }

  function StepRight(xs: seq<real>, ys: seq<real>, x: real): Value
    requires |xs| == |ys|
  {
    var n := |xs|;
    if n == 0 then NaN
    else if n == 1 then Number(ys[0])
    else if n == 2 then Number(if x <= xs[0] then ys[0] else ys[1])
    else
      var m := Middle(n);
      if xs[m] == x then Number(ys[m])
      else if xs[m] > x then StepRight(xs[..m + 1], ys[..m + 1], x)
      else StepRight(xs[n - m - 1..], ys[n - m - 1..], x)
  }

  function Linear(xs: seq<real>, ys: seq<real>, x: real): Value
    requires |xs| == |ys|
  {
    var n := |xs|;
    if n == 0 then NaN
    else if n == 1 then Number(ys[0])
    else if n == 2 then Line(xs[0], ys[0], xs[1], ys[1], x)
    else
      var m := Middle(n);
      if xs[m] == x then Number(ys[m])
      else if xs[m] > x then Linear(xs[..m + 1], ys[..m + 1], x)
      else Linear(xs[n - m - 1..], ys[n - m - 1..], x)
  }

  function ValueFromTable(xs: seq<real>, ys: seq<real>, interp: InterpType, extrap: ExtrapType, x: real): Value
    requires |xs| == |ys|
  {
    var n := |xs|;
    if n == 0 then NaN
    else if n == 1 then Number(ys[0])
    else if x < xs[0] then
      if extrap.ExtrapConst? then Number(ys[0]) else Linear(xs[..2], ys[..2], x)
    else if x > xs[n - 1] then
      if extrap.ExtrapConst? then Number(ys[n - 1]) else Linear(xs[n - 2..], ys[n - 2..], x)
    else
      match interp
      case InterpLinear => Linear(xs, ys, x)
      case InterpStepRight => StepRight(xs, ys, x)
      case InterpNotSet => NaN
  }

  ghost predicate Increasing(xs: seq<real>) {
    forall i, j :: 0 <= i < j < |xs| ==> xs[i] < xs[j]
  }

  /** The segment between the knots `k` and `k + 1` is the one for `x`; the outer ones reach to infinity. */
  predicate InSegment(xs: seq<real>, k: nat, x: real) {
    && k + 1 < |xs|
    && (k > 0 ==> xs[k] <= x)
    && (k + 2 < |xs| ==> x <= xs[k + 1])
  }

  predicate Between(a: real, b: real, y: real) {
    a <= y <= b || b <= y <= a
  }

  lemma Ratio(a: real, b: real)
    requires b != 0.0
    ensures b * a / b == a
  {
  }

  lemma LineAtKnots(x0: real, y0: real, x1: real, y1: real)
    requires x0 != x1
    ensures Line(x0, y0, x1, y1, x0) == Number(y0)
    ensures Line(x0, y0, x1, y1, x1) == Number(y1)
  {
    Ratio(y1 - y0, x1 - x0);
    assert 0.0 * (y1 - y0) / (x1 - x0) == 0.0;
  }

  /** A fraction of a number lies between zero and the number. */
  lemma Fraction(a: real, d: real, b: real)
    requires 0.0 <= a <= b && 0.0 < b
    ensures Between(0.0, d, a * d / b)
  {
    var q := a / b;
    assert q * b == a;
    assert 0.0 <= q <= 1.0;
    assert a * d / b == q * d;
    if d >= 0.0 {
      assert 0.0 <= q * d <= d by {
        assert (1.0 - q) * d >= 0.0;
      }
    } else {
      assert d <= q * d <= 0.0 by {
        assert (1.0 - q) * d <= 0.0;
      }
    }
  }

  lemma LineBetween(x0: real, y0: real, x1: real, y1: real, x: real)
    requires x0 < x1 && x0 <= x <= x1
    ensures Line(x0, y0, x1, y1, x).Number? && Between(y0, y1, Line(x0, y0, x1, y1, x).value)
  {
    Fraction(x - x0, y1 - y0, x1 - x0);
  }

  /** Every `x` has a segment. */
  lemma {:induction false} SegmentExists(xs: seq<real>, x: real, from: nat) returns (k: nat)
    requires from + 1 < |xs| && (from > 0 ==> xs[from] <= x)
    ensures InSegment(xs, k, x)
    decreases |xs| - from
  {
    if from + 2 == |xs| || x <= xs[from + 1] {
      k := from;
    } else {
      k := SegmentExists(xs, x, from + 1);
    }
  }

  /** Where the segment lies, seen from the inner knot `m`, and that it is a segment of the half that is kept. */
  lemma SegmentInHalf(xs: seq<real>, k: nat, m: nat, r: nat, x: real)
    requires Increasing(xs) && InSegment(xs, k, x) && 0 < m && m + 1 < |xs| && r <= m
    ensures xs[m] == x ==> k == m || k + 1 == m
    ensures xs[m] > x ==> k < m && InSegment(xs[..m + 1], k, x) && Increasing(xs[..m + 1])
    ensures xs[m] < x ==> k >= m && InSegment(xs[r..], k - r, x) && Increasing(xs[r..])
  {
  }

  /** The lookup by halving is the line through the knots of any segment that fits, in and out of range. */
  lemma {:induction false} LinearIsSegment(xs: seq<real>, ys: seq<real>, k: nat, x: real)
    requires |xs| == |ys| && Increasing(xs) && InSegment(xs, k, x)
    ensures Linear(xs, ys, x) == Line(xs[k], ys[k], xs[k + 1], ys[k + 1], x)
    decreases |xs|
  {
    hide Line, Linear, Middle, Increasing, InSegment;
    var n := |xs|;
    SegmentKnots(xs, k, x);
    LinearHalves(xs, ys, x);
    if n > 2 {
      var m := Middle(n);
      var r := n - m - 1;
      SegmentInHalf(xs, k, m, r, x);
      if xs[m] == x {
        LineAtKnots(xs[k], ys[k], xs[k + 1], ys[k + 1]);
      } else if xs[m] > x {
        LinearIsSegment(xs[..m + 1], ys[..m + 1], k, x);
      } else {
        LinearIsSegment(xs[r..], ys[r..], k - r, x);
      }
    }
  }

  lemma SegmentKnots(xs: seq<real>, k: nat, x: real)
    requires Increasing(xs) && InSegment(xs, k, x)
    ensures k + 1 < |xs| && xs[k] < xs[k + 1]
  {
  }

  lemma LinearHalves(xs: seq<real>, ys: seq<real>, x: real)
    requires |xs| == |ys| >= 2
    ensures |xs| == 2 ==> Linear(xs, ys, x) == Line(xs[0], ys[0], xs[1], ys[1], x)
    ensures |xs| > 2 ==>
      var m := Middle(|xs|);
      Linear(xs, ys, x) ==
        if xs[m] == x then Number(ys[m])
        else if xs[m] > x then Linear(xs[..m + 1], ys[..m + 1], x)
        else Linear(xs[|xs| - m - 1..], ys[|xs| - m - 1..], x)
  {
    hide Line;
  }

  /** The first knot that is not below `x`, or the last knot. */
  ghost predicate IsCeiling(xs: seq<real>, j: nat, x: real) {
    && j < |xs|
    && (forall i :: 0 <= i < j ==> xs[i] < x)
    && (j + 1 < |xs| ==> x <= xs[j])
  }

  lemma {:induction false} CeilingExists(xs: seq<real>, x: real, from: nat) returns (j: nat)
    requires from < |xs| && forall i :: 0 <= i < from ==> xs[i] < x
    ensures IsCeiling(xs, j, x)
    decreases |xs| - from
  {
    if from + 1 == |xs| || x <= xs[from] {
      j := from;
    } else {
      j := CeilingExists(xs, x, from + 1);
    }
  }

  lemma CeilingInHalf(xs: seq<real>, j: nat, m: nat, r: nat, x: real)
    requires Increasing(xs) && IsCeiling(xs, j, x) && 0 < m && m + 1 < |xs| && r <= m
    ensures xs[m] == x ==> j == m
    ensures xs[m] > x ==> j <= m && IsCeiling(xs[..m + 1], j, x) && Increasing(xs[..m + 1])
    ensures xs[m] < x ==> j > m && IsCeiling(xs[r..], j - r, x) && Increasing(xs[r..])
  {
  }

  lemma StepHalves(xs: seq<real>, ys: seq<real>, x: real)
    requires |xs| == |ys| > 2
    ensures var m := Middle(|xs|);
      StepRight(xs, ys, x) ==
        if xs[m] == x then Number(ys[m])
        else if xs[m] > x then StepRight(xs[..m + 1], ys[..m + 1], x)
        else StepRight(xs[|xs| - m - 1..], ys[|xs| - m - 1..], x)
  {
  }

  lemma StepSmall(xs: seq<real>, ys: seq<real>, j: nat, x: real)
    requires |xs| == |ys| <= 2 && IsCeiling(xs, j, x)
    ensures StepRight(xs, ys, x) == Number(ys[j])
  {
  }

  /** The step lookup takes the value of the first knot that is not below `x`. */
  lemma {:induction false} StepIsCeiling(xs: seq<real>, ys: seq<real>, j: nat, x: real)
    requires |xs| == |ys| && Increasing(xs) && IsCeiling(xs, j, x)
    ensures StepRight(xs, ys, x) == Number(ys[j])
    decreases |xs|
  {
    hide StepRight, Middle, Increasing;
    var n := |xs|;
    if n <= 2 {
      StepSmall(xs, ys, j, x);
    } else {
      var m := Middle(n);
      var r := n - m - 1;
      StepHalves(xs, ys, x);
      CeilingInHalf(xs, j, m, r, x);
      if xs[m] > x {
        StepIsCeiling(xs[..m + 1], ys[..m + 1], j, x);
      } else if xs[m] < x {
        StepIsCeiling(xs[r..], ys[r..], j - r, x);
      }
    }
  }

  /**
    Linear interpolation is the linear scan: knots keep their value, and between them the result stays between
    theirs.
  */
  lemma TableIsLinear(xs: seq<real>, ys: seq<real>, extrap: ExtrapType, k: nat, x: real)
    requires |xs| == |ys| && Increasing(xs) && k + 1 < |xs| && xs[k] <= x <= xs[k + 1]
    ensures var y := ValueFromTable(xs, ys, InterpLinear, extrap, x);
      && y == Line(xs[k], ys[k], xs[k + 1], ys[k + 1], x)
      && y.Number? && Between(ys[k], ys[k + 1], y.value)
      && (x == xs[k] ==> y.value == ys[k])
      && (x == xs[k + 1] ==> y.value == ys[k + 1])
  {
    hide Line, Linear, Between;
    LinearIsSegment(xs, ys, k, x);
    LineBetween(xs[k], ys[k], xs[k + 1], ys[k + 1], x);
    LineAtKnots(xs[k], ys[k], xs[k + 1], ys[k + 1]);
  }

  /** The step mode takes the value of the knot to the right. */
  lemma TableIsStep(xs: seq<real>, ys: seq<real>, extrap: ExtrapType, k: nat, x: real)
    requires |xs| == |ys| && Increasing(xs) && k + 1 < |xs| && xs[k] < x <= xs[k + 1]
    ensures ValueFromTable(xs, ys, InterpStepRight, extrap, x) == Number(ys[k + 1])
    ensures ValueFromTable(xs, ys, InterpStepRight, extrap, xs[0]) == Number(ys[0])
  {
    hide StepRight;
    StepIsCeiling(xs, ys, k + 1, x);
    StepIsCeiling(xs, ys, 0, xs[0]);
  }

  /**
    Outside, the first or the last segment is prolonged; without constant extrapolation this is one line
    across the end.
  */
  lemma TableIsProlonged(xs: seq<real>, ys: seq<real>, extrap: ExtrapType, x: real)
    requires |xs| == |ys| >= 2 && Increasing(xs) && !extrap.ExtrapConst?
    ensures var n := |xs|;
      && (x <= xs[1] ==> ValueFromTable(xs, ys, InterpLinear, extrap, x) == Line(xs[0], ys[0], xs[1], ys[1], x))
      && (x >= xs[n - 2] ==>
            ValueFromTable(xs, ys, InterpLinear, extrap, x) == Line(xs[n - 2], ys[n - 2], xs[n - 1], ys[n - 1], x))
  {
    hide Line;
    var n := |xs|;
    if x < xs[0] {
      assert xs[..2] == [xs[0], xs[1]] && ys[..2] == [ys[0], ys[1]];
    } else if x <= xs[1] {
      TableIsLinear(xs, ys, extrap, 0, x);
    }
    if x > xs[n - 1] {
      assert xs[n - 2..] == [xs[n - 2], xs[n - 1]] && ys[n - 2..] == [ys[n - 2], ys[n - 1]];
    } else if x >= xs[n - 2] {
      TableIsLinear(xs, ys, extrap, n - 2, x);
    }
  }

  lemma LineIsAffine(x0: real, y0: real, x1: real, y1: real, x: real)
    requires x0 != x1
    ensures Line(x0, y0, x1, y1, x).Number?
    ensures (Line(x0, y0, x1, y1, x).value - y0) * (x1 - x0) == (x - x0) * (y1 - y0)
  {
    var a, b := (x - x0) * (y1 - y0), x1 - x0;
    assert a / b * b == a;
  }

  /**
    The law of the lookup: the increase of the value over the increase of the abscissa is that of the segment,
    in range and, without constant extrapolation, along the outer segments beyond it.
  */
  lemma TableIsAffine(xs: seq<real>, ys: seq<real>, interp: InterpType, extrap: ExtrapType, k: nat, x: real)
    requires |xs| == |ys| && Increasing(xs) && k + 1 < |xs|
    requires
      || (interp == InterpLinear && xs[k] <= x <= xs[k + 1])
      || (extrap != ExtrapConst && x < xs[0] && k == 0)
      || (extrap != ExtrapConst && x > xs[|xs| - 1] && k == |xs| - 2)
    ensures var y := ValueFromTable(xs, ys, interp, extrap, x);
      y.Number? && (y.value - ys[k]) * (xs[k + 1] - xs[k]) == (x - xs[k]) * (ys[k + 1] - ys[k])
  {
    hide Increasing, ValueFromTable;
    TableOnSegment(xs, ys, interp, extrap, k, x);
  }

  predicate OnSegment(x0: real, y0: real, x1: real, y1: real, x: real, y: Value) {
    y.Number? && (y.value - y0) * (x1 - x0) == (x - x0) * (y1 - y0)
  }

  lemma LineOnSegment(x0: real, y0: real, x1: real, y1: real, x: real)
    requires x0 != x1
    ensures OnSegment(x0, y0, x1, y1, x, Line(x0, y0, x1, y1, x))
  {
    hide Line;
    LineIsAffine(x0, y0, x1, y1, x);
  }

  lemma TableOnSegment(xs: seq<real>, ys: seq<real>, interp: InterpType, extrap: ExtrapType, k: nat, x: real)
    requires |xs| == |ys| && Increasing(xs) && k + 1 < |xs|
    requires
      || (interp == InterpLinear && xs[k] <= x <= xs[k + 1])
      || (extrap != ExtrapConst && x < xs[0] && k == 0)
      || (extrap != ExtrapConst && x > xs[|xs| - 1] && k == |xs| - 2)
    ensures OnSegment(xs[k], ys[k], xs[k + 1], ys[k + 1], x, ValueFromTable(xs, ys, interp, extrap, x))
  {
    hide Increasing, ValueFromTable, Line, OnSegment;
    TableIsLine(xs, ys, interp, extrap, k, x);
    LineOnSegment(xs[k], ys[k], xs[k + 1], ys[k + 1], x);
  }

  lemma TableIsLine(xs: seq<real>, ys: seq<real>, interp: InterpType, extrap: ExtrapType, k: nat, x: real)
    requires |xs| == |ys| && Increasing(xs) && k + 1 < |xs|
    requires
      || (interp == InterpLinear && xs[k] <= x <= xs[k + 1])
      || (extrap != ExtrapConst && x < xs[0] && k == 0)
      || (extrap != ExtrapConst && x > xs[|xs| - 1] && k == |xs| - 2)
    ensures ValueFromTable(xs, ys, interp, extrap, x) == Line(xs[k], ys[k], xs[k + 1], ys[k + 1], x)
    ensures xs[k] < xs[k + 1]
  {
    hide Line, Linear;
    if xs[0] <= x <= xs[|xs| - 1] {
      TableIsLinear(xs, ys, extrap, k, x);
    } else if x < xs[0] {
      LinearHalves(xs[..2], ys[..2], x);
    } else {
      LinearHalves(xs[|xs| - 2..], ys[|xs| - 2..], x);
    }
  }

  /** What is left: tables of no or one point, constant extrapolation, and a table whose mode was never set. */
  lemma TableOtherwise(xs: seq<real>, ys: seq<real>, interp: InterpType, extrap: ExtrapType, x: real)
    requires |xs| == |ys| && Increasing(xs)
    ensures xs == [] ==> ValueFromTable(xs, ys, interp, extrap, x) == NaN
    ensures |xs| == 1 ==> ValueFromTable(xs, ys, interp, extrap, x) == Number(ys[0])
    ensures extrap == ExtrapConst && |xs| > 1 && x < xs[0] ==>
      ValueFromTable(xs, ys, interp, extrap, x) == Number(ys[0])
    ensures extrap == ExtrapConst && |xs| > 1 && x > xs[|xs| - 1] ==>
      ValueFromTable(xs, ys, interp, extrap, x) == Number(ys[|ys| - 1])
    ensures interp == InterpNotSet && |xs| > 1 && xs[0] <= x <= xs[|xs| - 1] ==>
      ValueFromTable(xs, ys, interp, extrap, x) == NaN
  {
    hide Line, Linear, StepRight;
  }

  /** With constant extrapolation the table keeps the value of its end. */
  lemma TableIsClamped(xs: seq<real>, ys: seq<real>, x: real)
    requires |xs| == |ys| >= 2 && Increasing(xs)
    ensures x <= xs[0] ==> ValueFromTable(xs, ys, InterpLinear, ExtrapConst, x) == Number(ys[0])
    ensures x >= xs[|xs| - 1] ==> ValueFromTable(xs, ys, InterpLinear, ExtrapConst, x) == Number(ys[|xs| - 1])
  {
    hide Line, Linear;
    TableIsLinear(xs, ys, ExtrapConst, 0, xs[0]);
    TableIsLinear(xs, ys, ExtrapConst, |xs| - 2, xs[|xs| - 1]);
  }

  // ---------------------------------------------------------------------------------------------
  // The points of a polynomial

  class Poly {
    const xData: array<real>
    const yData: array<real>
    var n: nat

    ghost predicate Valid()
      reads this
    {
      xData != yData && xData.Length == yData.Length && n <= xData.Length
    }

    constructor (maxPoints: nat)
      ensures Valid() && fresh(xData) && fresh(yData) && n == 0 && xData.Length == maxPoints
    {
      n := 0;
      xData := new real[maxPoints](_ => 0.0);
      yData := new real[maxPoints](_ => 0.0);
    }

    /** Appends points if there is room for all of them. */
    method AddPoints(xs: seq<real>, ys: seq<real>) returns (ok: bool)
      requires Valid() && |xs| == |ys|
      modifies this`n, xData, yData
      ensures Valid()
      ensures ok <==> old(n) + |xs| <= xData.Length
      ensures xData[..n] == old(xData[..n]) + if ok then xs else []
      ensures yData[..n] == old(yData[..n]) + if ok then ys else []
    {
      if n + |xs| > xData.Length {
        return false;
      }
      Overwrite(n, xs, ys);
      n := n + |xs|;
      return true;
    }

    /** Drops points at the end; an empty rest is an error. */
    method RemoveLastPoints(count: nat) returns (ok: bool)
      requires Valid()
      modifies this`n
      ensures Valid() && n == if count <= old(n) then old(n) - count else 0
      ensures ok <==> n > 0
    {
      n := if count <= n then n - count else 0;
      return n > 0;
    }

    /** Moves the points from `count` on to the front. */
    method MoveToFront(count: nat)
      requires Valid() && count <= n
      modifies xData, yData
      ensures xData[..n - count] == old(xData[count..n])
      ensures yData[..n - count] == old(yData[count..n])
    {
      for i := 0 to n - count
        invariant xData[..i] == old(xData[count..count + i]) && xData[i..] == old(xData[i..])
        invariant yData[..i] == old(yData[count..count + i]) && yData[i..] == old(yData[i..])
      {
        assert xData[i..][count] == xData[i + count] && yData[i..][count] == yData[i + count];
        xData[i] := xData[i + count];
        yData[i] := yData[i + count];
        assert xData[i + 1..] == xData[i..][1..] && yData[i + 1..] == yData[i..][1..];
      }
    }

    /** Writes points from `start` on, and changes none before. */
    method Overwrite(start: nat, xs: seq<real>, ys: seq<real>)
      requires Valid() && |xs| == |ys| && start + |xs| <= xData.Length
      modifies xData, yData
      ensures xData[..start + |xs|] == old(xData[..start]) + xs
      ensures yData[..start + |ys|] == old(yData[..start]) + ys
    {
      for i := 0 to |xs|
        invariant xData[..start + i] == old(xData[..start]) + xs[..i]
        invariant yData[..start + i] == old(yData[..start]) + ys[..i]
      {
        xData[start + i] := xs[i];
        yData[start + i] := ys[i];
      }
    }

    /** Drops points at the front and appends as many at the end, in place. */
    method ShiftPoints(xs: seq<real>, ys: seq<real>)
      requires Valid() && |xs| == |ys| <= n
      modifies xData, yData
      ensures xData[..n] == old(xData[|xs|..n]) + xs
      ensures yData[..n] == old(yData[|ys|..n]) + ys
    {
      MoveToFront(|xs|);
      Overwrite(n - |xs|, xs, ys);
    }
  }
}
