/** Comparison of times modulo an epsilon that is absolute near zero and relative for large numbers. */
module TimeCompare {

  datatype Cmp = Equal | Less | Greater | Incomparable

  function Abs(x: real): real {
    if x < 0.0 then -x else x
  }

  function Scale(x: real, e: real): real {
    x * e
  }

  function Largest(a: real, b: real): (r: real)
    ensures 0.0 <= a <= b ==> r == b
    ensures r >= 0.0
  {
    if Abs(a) > Abs(b) then Abs(a) else Abs(b)
  }

  predicate AlmostEqual(a: real, b: real, eps: real) {
    var diff := Abs(a - b);
    diff < eps || diff < Scale(Largest(a, b), eps)
  }

  function Compare(a: real, b: real, eps: real): Cmp {
    if AlmostEqual(a, b, eps) then Equal
    else if a < b then Less
    else if a > b then Greater
    else Incomparable
  }

  predicate Lt(a: real, b: real, eps: real) {
    Compare(a, b, eps) == Less
  }

  predicate Gt(a: real, b: real, eps: real) {
    Compare(a, b, eps) == Greater
  }

  predicate Leq(a: real, b: real, eps: real) {
    Compare(a, b, eps) in {Equal, Less}
  }

  predicate Geq(a: real, b: real, eps: real) {
    Compare(a, b, eps) in {Equal, Greater}
  }

  /** Less means smaller by at least the epsilon and by at least that part of the larger number. */
  lemma LtMeans(a: real, b: real, eps: real)
    ensures Lt(a, b, eps) <==> a < b && b - a >= eps && b - a >= Scale(Largest(a, b), eps)
  {
    hide Scale, Largest;
  }

  /** Apart by at least the epsilon, and by at least that part of either number. */
  ghost predicate FarApart(a: real, b: real, eps: real) {
    var diff := if a < b then b - a else a - b;
    && diff >= eps
    && diff >= eps * (if a < 0.0 then -a else a)
    && diff >= eps * (if b < 0.0 then -b else b)
  }

  /** All four comparisons in terms of the numbers. */
  lemma ComparisonsMean(a: real, b: real, eps: real)
    ensures Lt(a, b, eps) <==> a < b && FarApart(a, b, eps)
    ensures Gt(a, b, eps) <==> a > b && FarApart(a, b, eps)
    ensures Leq(a, b, eps) <==> a < b || !FarApart(a, b, eps)
    ensures Geq(a, b, eps) <==> a > b || !FarApart(a, b, eps)
  {
    EqualUnlessApart(a, b, eps);
    hide AlmostEqual, FarApart;
  }

  lemma EqualUnlessApart(a: real, b: real, eps: real)
    ensures AlmostEqual(a, b, eps) <==> !FarApart(a, b, eps)
  {
    var x, y, largest := Abs(a), Abs(b), Largest(a, b);
    assert largest == if x > y then x else y;
    Share(x, largest, eps);
    Share(y, largest, eps);
    hide Scale;
  }

  /** A part of a number is at least that part of a smaller one, or negative. */
  lemma Share(x: real, y: real, eps: real)
    requires 0.0 <= x <= y
    ensures Scale(y, eps) == eps * y
    ensures eps > 0.0 ==> eps * x <= Scale(y, eps)
    ensures eps <= 0.0 ==> eps * x <= 0.0 && Scale(y, eps) <= 0.0
  {
    if eps > 0.0 {
      Positive(y - x, eps);
      assert y * eps == x * eps + (y - x) * eps;
    } else {
      Positive(x, -eps);
      Positive(y, -eps);
    }
  }

  lemma Positive(x: real, y: real)
    requires 0.0 <= x && 0.0 <= y
    ensures 0.0 <= x * y
  {
  }

  /** With a positive epsilon the comparisons are complementary; with none, equal times are neither. */
  lemma NotLessIsAtLeast(a: real, b: real, eps: real)
    ensures !Lt(a, b, eps) ==> (Geq(a, b, eps) <==> a != b || eps > 0.0)
  {
    if a == b {
      assert Abs(a) >= 0.0;
      if eps <= 0.0 {
        assert Scale(Abs(a), eps) <= 0.0;
      }
    }
  }

  /** Without an epsilon numbers are compared exactly. */
  lemma ExactWithoutEpsilon(a: real, b: real, eps: real)
    requires eps <= 0.0
    ensures Lt(a, b, eps) <==> a < b
    ensures !AlmostEqual(a, b, eps)
  {
    assert Scale(Largest(a, b), eps) <= 0.0;
  }

  /** Scaling by more than one grows a positive number, scaling by at most one does not grow it. */
  lemma Scaled(x: real, e: real)
    requires 0.0 <= x
    ensures e > 1.0 && x > 0.0 ==> Scale(x, e) > x
    ensures e <= 1.0 ==> Scale(x, e) <= x
  {
  }

  lemma ScaledDifference(b: real, b': real, e: real)
    requires b <= b' && e <= 1.0
    ensures Scale(b', e) - Scale(b, e) <= b' - b
  {
    Scaled(b' - b, e);
    assert (b' - b) * e == b' * e - b * e;
  }

  /** The larger of two distances from zero grows by no more than the gap between the numbers. */
  lemma LargestGrows(a: real, b: real, a': real, b': real)
    requires a' <= a <= b <= b'
    ensures Largest(a', b') - Largest(a, b) <= (b' - a') - (b - a)
  {
  }

  /**
    What lies below a time lies below every later one, and so does everything before it; for negative
    numbers this needs an epsilon of at most one.
  */
  lemma LtMonotone(a: real, b: real, a': real, b': real, eps: real)
    requires a' <= a && b <= b' && Lt(a, b, eps)
    requires 0.0 <= a' || eps <= 1.0
    ensures Lt(a', b', eps)
  {
    LargestGrows(a, b, a', b');
    LtMeans(a, b, eps);
    LtMeans(a', b', eps);
    var l, l' := Largest(a, b), Largest(a', b');
    assert l >= 0.0 && l' >= 0.0;
    assert 0.0 <= a' ==> l == b;
    hide Lt, Scale, Largest;
    Scaled(l, eps);
    Scaled(l', eps);
    if eps <= 1.0 {
      if l <= l' {
        ScaledDifference(l, l', eps);
      } else {
        ScaledLess(l', l, eps);
      }
    }
  }

  /** With a larger epsilon the order of negative numbers breaks down: -1 is below 1, but not below 9. */
  lemma LtNotMonotone()
    ensures Lt(-1.0, 1.0, 1.5) && !Lt(-1.0, 9.0, 1.5)
  {
  }

  lemma ScaledLess(x: real, y: real, e: real)
    requires 0.0 <= x <= y
    ensures Scale(x, e) <= Scale(y, e) || Scale(x, e) <= 0.0
  {
    if e >= 0.0 {
      assert (y - x) * e >= 0.0;
      assert y * e == x * e + (y - x) * e;
    } else {
      assert x * e <= 0.0;
    }
  }

  /** A step of size `dt` is seen as one exactly when neither the absolute nor the relative epsilon swallows it. */
  lemma StepIsSeen(t: real, dt: real, eps: real)
    requires 0.0 < dt
    ensures Lt(t, t + dt, eps) <==> eps <= dt && Scale(Largest(t, t + dt), eps) <= dt
  {
    LtMeans(t, t + dt, eps);
  }

  // ---------------------------------------------------------------------------------------------
  // Equidistant times

  /** The time after `n` steps of size `h`. */
  function Tick(start: real, h: real, n: nat): real {
    start + n as real * h
  }

  lemma TickNext(start: real, h: real, n: nat)
    ensures Tick(start, h, n + 1) == Tick(start, h, n) + h
    ensures Tick(start, h, 0) == start
  {
  }

  lemma TickMonotone(start: real, h: real, m: nat, n: nat)
    requires m <= n && 0.0 <= h
    ensures Tick(start, h, m) <= Tick(start, h, n)
  {
    assert (n - m) as real * h >= 0.0;
    assert n as real * h == m as real * h + (n - m) as real * h;
  }

  /** Some tick reaches any given time. */
  lemma TickReaches(start: real, h: real, time: real) returns (n: nat)
    requires 0.0 < h
    ensures time <= Tick(start, h, n)
  {
    var q := (time - start) / h;
    n := if q < 0.0 then 0 else q.Floor + 1;
    assert q <= n as real;
    assert q * h == time - start;
    assert q * h <= n as real * h;
  }

  lemma NotBelowItself(a: real, b: real, eps: real)
    requires b <= a
    ensures !Lt(a, b, eps)
  {
  }

  lemma NotAboveItself(a: real, b: real, eps: real)
    requires a <= b
    ensures !Gt(a, b, eps)
  {
  }

  /** All ticks before the `n`th lie below `time`. */
  ghost predicate AllBelow(start: real, h: real, n: nat, time: real, eps: real) {
    forall j: nat :: j < n ==> Lt(Tick(start, h, j), time, eps)
  }

  /** `n` is the least number of steps that reaches `time`. */
  ghost predicate IsLeast(start: real, h: real, n: nat, time: real, eps: real) {
    AllBelow(start, h, n, time, eps) && !Lt(Tick(start, h, n), time, eps)
  }

  lemma LeastIsUnique(start: real, h: real, m: nat, n: nat, time: real, eps: real)
    requires IsLeast(start, h, m, time, eps) && IsLeast(start, h, n, time, eps)
    ensures m == n
  {
  }

  lemma AllBelowLater(start: real, h: real, n: nat, time: real, later: real, eps: real)
    requires (0.0 <= start || eps <= 1.0) && 0.0 <= h && time <= later && AllBelow(start, h, n, time, eps)
    ensures AllBelow(start, h, n, later, eps)
  {
    forall j: nat | j < n
      ensures Lt(Tick(start, h, j), later, eps)
    {
      TickMonotone(start, h, 0, j);
      TickNext(start, h, 0);
      LtMonotone(Tick(start, h, j), time, Tick(start, h, j), later, eps);
    }
  }

  /** The least number of steps overshoots by less than one step. */
  lemma LeastIsClose(start: real, h: real, n: nat, time: real, eps: real)
    requires AllBelow(start, h, n, time, eps) && n > 0
    ensures Tick(start, h, n) < time + h
  {
    TickNext(start, h, n - 1);
    assert Lt(Tick(start, h, n - 1), time, eps);
  }
}
