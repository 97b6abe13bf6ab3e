/**
  Result storage: a table of rows per channel group, the filters that decide which values are stored,
  and a text backend that writes rows either as they are stored or all at the end.
*/
module Storage {
  import opened TimeCompare

  datatype Cell<+V> = TimeCell(time: real) | ValueCell(value: V)

  type Row<+V> = seq<Cell<V>>

  function RowOf<V>(time: real, values: seq<V>): (r: Row<V>)
    ensures |r| == |values| + 1
  {
    [TimeCell(time)] + seq(|values|, i requires 0 <= i < |values| => ValueCell(values[i]))
  }

  /** The list with the first `i` of the cells written over it from `start` on. */
  ghost function Overlay<T>(before: seq<T>, cells: seq<T>, start: nat, i: nat): seq<T>
    requires i <= |cells| && start + |cells| <= |before|
  {
    before[..start] + cells[..i] + before[start + i..]
  }

  lemma OverlayNext<T>(before: seq<T>, cells: seq<T>, start: nat, i: nat)
    requires i < |cells| && start + |cells| <= |before|
    ensures |Overlay(before, cells, start, i)| == |before| && Overlay(before, cells, start, 0) == before
    ensures Overlay(before, cells, start, i)[start + i := cells[i]] == Overlay(before, cells, start, i + 1)
  {
  }

  lemma OverlayEnds<T>(before: seq<T>, cells: seq<T>, start: nat)
    requires start + |cells| <= |before|
    ensures Overlay(before, cells, start, |cells|) == before[..start] + cells + before[start + |cells|..]
  {
  }

  lemma RowBounds(r: nat, rows: nat, cols: nat)
    requires r < rows
    ensures 0 <= r * cols && r * cols + cols <= rows * cols
  {
    assert (r + 1) * cols <= rows * cols;
  }

  lemma RowsFit(a: nat, b: nat, cols: nat)
    requires a <= b
    ensures a * cols <= b * cols
  {
  }

  /** Row `r` of a table kept in row-major order. */
  function Slice<V>(cells: seq<Cell<V>>, cols: nat, r: nat): Row<V>
    requires r * cols + cols <= |cells|
  {
    cells[r * cols..r * cols + cols]
  }

  /** The first `n` rows of a table. */
  function Table<V>(cells: seq<Cell<V>>, cols: nat, n: nat): (rows: seq<Row<V>>)
    requires n * cols <= |cells|
    ensures |rows| == n
    ensures forall r :: 0 <= r < n ==> r * cols + cols <= |cells| && rows[r] == Slice(cells, cols, r)
  {
    if n == 0 then []
    else
      RowBounds(n - 1, n, cols);
      Table(cells, cols, n - 1) + [Slice(cells, cols, n - 1)]
  }

  /** Only the first `n` rows of the memory count. */
  lemma {:induction false} TableKept<V>(a: seq<Cell<V>>, b: seq<Cell<V>>, cols: nat, n: nat)
    requires n * cols <= |a| && n * cols <= |b| && a[..n * cols] == b[..n * cols]
    ensures Table(a, cols, n) == Table(b, cols, n)
  {
    if n > 0 {
      RowBounds(n - 1, n, cols);
      assert a[..(n - 1) * cols] == a[..n * cols][..(n - 1) * cols];
      assert b[..(n - 1) * cols] == b[..n * cols][..(n - 1) * cols];
      TableKept(a, b, cols, n - 1);
      assert Slice(a, cols, n - 1) == a[..n * cols][(n - 1) * cols..];
      assert Slice(b, cols, n - 1) == b[..n * cols][(n - 1) * cols..];
    }
  }

  /** Writing row `n` of a memory that starts like the old one appends a row to the table. */
  lemma TableAppended<V>(old': seq<Cell<V>>, before: seq<Cell<V>>, cols: nat, n: nat, row: Row<V>)
    requires n * cols <= |old'| && old' <= before && n * cols + cols <= |before| && |row| == cols
    ensures (n + 1) * cols == n * cols + cols
    ensures Table(before[..n * cols] + row + before[n * cols + cols..], cols, n + 1) == Table(old', cols, n) + [row]
  {
    var after := before[..n * cols] + row + before[n * cols + cols..];
    TableKept(old', after, cols, n);
    assert Slice(after, cols, n) == row;
  }

  /** The table of stored values: `cols` cells per row, the first of them the time. */
  class ChannelStorage<V> {
    const cols: nat
    const fullStorage: bool
    var values: array<Cell<V>>
    var numValues: nat
    var numValuesAllocated: nat
    var lastStored: real
    var storeCallNum: nat

    ghost predicate Valid()
      reads this`values, this`numValues, this`numValuesAllocated
    {
      && numValues <= numValuesAllocated
      && values.Length == numValuesAllocated * cols
    }

    ghost function RowAt(r: nat): Row<V>
      requires Valid() && r < numValues
      reads this`values, this`numValues, this`numValuesAllocated, values
    {
      RowBounds(r, numValuesAllocated, cols);
      Slice(values[..], cols, r)
    }

    /** The rows stored. */
    ghost function Rows(): (rows: seq<Row<V>>)
      requires Valid()
      reads this`values, this`numValues, this`numValuesAllocated, values
      ensures |rows| == numValues && forall r :: 0 <= r < numValues ==> rows[r] == RowAt(r)
    {
      RowsFit(numValues, numValuesAllocated, cols);
      Table(values[..], cols, numValues)
    }

    /** A storage for `cols` channels, the time included; none if it has not been set up. */
    constructor (cols: nat, fullStorage: bool)
      ensures Valid() && fresh(values) && this.cols == cols && this.fullStorage == fullStorage
      ensures numValues == 0 && numValuesAllocated == 0 && lastStored == -1.0 && storeCallNum == 0
    {
      this.cols := cols;
      this.fullStorage := fullStorage;
      values := new Cell<V>[0];
      numValues, numValuesAllocated := 0, 0;
      lastStored := -1.0;
      storeCallNum := 0;
    }

    /** Makes room for `rows` rows and keeps what is there. */
    method Reallocate(rows: nat)
      requires Valid() && numValuesAllocated <= rows
      modifies this`values, this`numValuesAllocated
      ensures Valid() && numValuesAllocated == rows
      ensures fresh(values)
      ensures old(values[..]) <= values[..]
    {
      RowsFit(numValuesAllocated, rows, cols);
      var smaller, bigger := values, new Cell<V>[rows * cols];
      for k := 0 to smaller.Length
        invariant bigger[..k] == smaller[..k]
      {
        bigger[k] := smaller[k];
      }
      assert bigger[..smaller.Length] == smaller[..];
      values := bigger;
      numValuesAllocated := rows;
    }

    /** Sets one cell; a column that does not exist or a row without memory is an error. */
    method SetValueFromReferenceAt(row: nat, col: nat, cell: Cell<V>) returns (ok: bool)
      requires values.Length == numValuesAllocated * cols
      modifies values
      ensures ok <==> col < cols && row < numValuesAllocated
      ensures !ok ==> values[..] == old(values[..])
      ensures ok ==> 0 <= row * cols + col < values.Length && values[..] == old(values[..])[row * cols + col := cell]
    {
      if col >= cols {
        return false;
      }
      if row >= numValuesAllocated {
        return false;
      }
      RowBounds(row, numValuesAllocated, cols);
      values[row * cols + col] := cell;
      return true;
    }

    /** Writes a whole row, time first, and no other cell. */
    method SetRow(row: nat, time: real, current: seq<V>)
      requires values.Length == numValuesAllocated * cols && cols == |current| + 1 && row < numValuesAllocated
      modifies values
      ensures 0 <= row * cols && row * cols + cols <= values.Length
      ensures values[..] == old(values[..row * cols]) + RowOf(time, current) + old(values[row * cols + cols..])
    {
      hide Overlay;
      RowBounds(row, numValuesAllocated, cols);
      ghost var start, before := row * cols, values[..];
      ghost var cells := RowOf(time, current);
      OverlayNext(before, cells, start, 0);
      var ok := SetValueFromReferenceAt(row, 0, TimeCell(time));
      for i := 1 to cols
        invariant values[..] == Overlay(before, cells, start, i)
      {
        OverlayNext(before, cells, start, i);
        ok := SetValueFromReferenceAt(row, i, ValueCell(current[i - 1]));
      }
      OverlayEnds(before, cells, start);
    }

    /** Makes room for one more row: one row at first, then twice as many as before. */
    method Grow()
      requires Valid()
      modifies this`values, this`numValuesAllocated
      ensures Valid() && numValues < numValuesAllocated
      ensures values == old(values) || fresh(values)
      ensures old(values[..]) <= values[..]
    {
      if numValuesAllocated == 0 {
        Reallocate(1);
      }
      if numValues + 1 > numValuesAllocated {
        Reallocate(numValuesAllocated * 2);
      }
    }

    /** Appends a row. */
    method StoreFull(time: real, current: seq<V>)
      requires Valid() && cols == |current| + 1
      modifies this`values, this`numValues, this`numValuesAllocated, values
      ensures Valid() && (values == old(values) || fresh(values))
      ensures Rows() == old(Rows()) + [RowOf(time, current)]
    {
      hide RowOf, Table;
      ghost var first := values[..];
      RowsFit(numValues, numValuesAllocated, cols);
      Grow();
      ghost var before := values[..];
      SetRow(numValues, time, current);
      TableAppended(first, before, cols, numValues, RowOf(time, current));
      numValues := numValues + 1;
    }

    /** Overwrites the only row. */
    method StoreNonFull(time: real, current: seq<V>)
      requires Valid() && cols == |current| + 1
      modifies this`values, this`numValues, this`numValuesAllocated, values
      ensures Valid() && (values == old(values) || fresh(values))
      ensures Rows() == [RowOf(time, current)]
    {
      hide RowOf;
      if numValuesAllocated == 0 {
        Reallocate(1);
      }
      RowBounds(0, numValuesAllocated, cols);
      ghost var before := values[..];
      SetRow(0, time, current);
      numValues := 1;
      TableAppended(before[..0], before, cols, 0, RowOf(time, current));
    }
  }

  // ---------------------------------------------------------------------------------------------
  // Which values are stored

  /** Levels count from 1, which stores nothing, over 2 for synchronization steps to 3 for all coupling steps. */
  datatype Settings = Settings(
    columns: nat,
    storeLevel: int,
    startTimeDefined: bool,
    startTime: real,
    endTimeDefined: bool,
    endTime: real,
    stepTimeDefined: bool,
    stepTime: real,
    stepCount: nat,
    timeOffset: real,
    eps: real)

  /** The part of the filter that calls change: the last time stored, and the calls counted so far. */
  datatype Filter = Filter(lastStored: real, calls: nat)

  datatype Decision = Skip | Refuse | Accept

  /** A request to store `values` at `time`; `active` says whether results are stored at all at that moment. */
  datatype Call<+V> = Call(active: bool, time: real, level: int, values: seq<V>)

  predicate InWindow(c: Settings, time: real) {
    && (c.startTimeDefined ==> !Lt(time, c.startTime, c.eps))
    && (c.endTimeDefined ==> !Lt(c.endTime, time, c.eps))
  }

  /** Less than a step time after the last stored time, unless nothing has been stored yet. */
  predicate TooSoon(c: Settings, f: Filter, time: real) {
    c.stepTimeDefined && Geq(f.lastStored, c.startTime, c.eps) && Gt(f.lastStored + c.stepTime, time, c.eps)
  }

  /** The call gets as far as the counter of calls. */
  predicate Counted(c: Settings, f: Filter, active: bool, time: real, level: int) {
    active && level <= c.storeLevel && c.columns > 0 && InWindow(c, time) && !TooSoon(c, f, time)
  }

  function Decide(c: Settings, f: Filter, active: bool, time: real, level: int): Decision {
    if !Counted(c, f, active, time, level) then Skip
    else if c.stepCount > 0 && f.calls % c.stepCount != 0 then Skip
    else if Lt(time, f.lastStored, c.eps) then Refuse
    else Accept
  }

  function NextFilter(c: Settings, f: Filter, active: bool, time: real, level: int): Filter {
    Filter(if Decide(c, f, active, time, level) == Accept then time else f.lastStored,
           if Counted(c, f, active, time, level) && c.stepCount > 0 then f.calls + 1 else f.calls)
  }

  /** The rows that a sequence of calls leaves, and the filter after it. */
  function Replay<V>(c: Settings, calls: seq<Call<V>>): (r: (seq<Row<V>>, Filter)) {
    if calls == [] then ([], Filter(-1.0, 0))
    else
      var (rows, f) := Replay(c, calls[..|calls| - 1]);
      var call := calls[|calls| - 1];
      var time := call.time + c.timeOffset;
      (if Decide(c, f, call.active, time, call.level) == Accept then rows + [RowOf(time, call.values)] else rows,
       NextFilter(c, f, call.active, time, call.level))
  }

  lemma ReplayNext<V>(c: Settings, calls: seq<Call<V>>, call: Call<V>)
    ensures var (rows, f) := Replay(c, calls);
      var time := call.time + c.timeOffset;
      Replay(c, calls + [call]) ==
        (if Decide(c, f, call.active, time, call.level) == Accept then rows + [RowOf(time, call.values)] else rows,
         NextFilter(c, f, call.active, time, call.level))
  {
    assert (calls + [call])[..|calls|] == calls;
  }

  // ---------------------------------------------------------------------------------------------
  // Which times the rows have

  function TimeOf<V>(row: Row<V>): real {
    if |row| > 0 && row[0].TimeCell? then row[0].time else -1.0
  }

  predicate Apart(c: Settings, t: real, t': real) {
    && !Lt(t', t, c.eps)
    && (c.stepTimeDefined && Geq(t, c.startTime, c.eps) ==> !Gt(t + c.stepTime, t', c.eps))
  }

  ghost predicate WellTimed<V>(c: Settings, rows: seq<Row<V>>) {
    && (forall k :: 0 <= k < |rows| ==> InWindow(c, TimeOf(rows[k])))
    && (forall k :: 0 < k < |rows| ==> Apart(c, TimeOf(rows[k - 1]), TimeOf(rows[k])))
  }

  /** All rows lie in the window, never go back in time and, from the start time on, are a step time apart. */
  lemma {:induction false} RowsAreWellTimed<V>(c: Settings, calls: seq<Call<V>>)
    ensures WellTimed(c, Replay(c, calls).0)
    ensures var (rows, f) := Replay(c, calls);
      f.lastStored == if rows == [] then -1.0 else TimeOf(rows[|rows| - 1])
  {
    if calls == [] {
      assert Replay(c, calls) == ([], Filter(-1.0, 0));
    } else {
      var before, call := calls[..|calls| - 1], calls[|calls| - 1];
      assert calls == before + [call];
      hide Replay, WellTimed, NextFilter, RowOf;
      RowsAreWellTimed(c, before);
      ReplayNext(c, before, call);
      RowIsWellTimed(c, Replay(c, before).0, Replay(c, before).1, call);
    }
  }

  lemma RowIsWellTimed<V>(c: Settings, rows: seq<Row<V>>, f: Filter, call: Call<V>)
    requires WellTimed(c, rows) && f.lastStored == if rows == [] then -1.0 else TimeOf(rows[|rows| - 1])
    ensures var t := call.time + c.timeOffset;
      var accepted := Decide(c, f, call.active, t, call.level) == Accept;
      && (accepted ==> WellTimed(c, rows + [RowOf(t, call.values)]))
      && NextFilter(c, f, call.active, t, call.level).lastStored == (if accepted then t else f.lastStored)
      && TimeOf(RowOf(t, call.values)) == t
  {
    hide Lt, Gt, Geq;
  }

  /**
    With a start time the exception for earlier rows applies only with an epsilon that is not positive, and
    then only to a row at the start time.
  */
  lemma RowsAreStepTimeApart<V>(c: Settings, calls: seq<Call<V>>, k: nat)
    requires c.startTimeDefined && c.stepTimeDefined && 0 < k < |Replay(c, calls).0|
    requires c.eps > 0.0 || TimeOf(Replay(c, calls).0[k - 1]) != c.startTime
    ensures var rows := Replay(c, calls).0; !Gt(TimeOf(rows[k - 1]) + c.stepTime, TimeOf(rows[k]), c.eps)
  {
    hide Lt, Gt, Geq, Replay;
    RowsAreWellTimed(c, calls);
    var rows := Replay(c, calls).0;
    assert InWindow(c, TimeOf(rows[k - 1])) && Apart(c, TimeOf(rows[k - 1]), TimeOf(rows[k]));
    NotLessIsAtLeast(TimeOf(rows[k - 1]), c.startTime, c.eps);
  }

  /** Without an epsilon, the row after one at the start time may come too early: here half a step time later. */
  lemma StartRowIsNotCounted<V>(values: seq<V>)
    ensures var c := Settings(1, 2, true, 0.0, false, 0.0, true, 1.0, 0, 0.0, 0.0);
      Replay(c, [Call(true, 0.0, 2, values), Call(true, 0.5, 2, values)]).0 == [RowOf(0.0, values), RowOf(0.5, values)]
  {
    var c := Settings(1, 2, true, 0.0, false, 0.0, true, 1.0, 0, 0.0, 0.0);
    var first, second := Call(true, 0.0, 2, values), Call(true, 0.5, 2, values);
    hide RowOf;
    ReplayNext(c, [], first);
    ReplayNext(c, [first], second);
    assert [] + [first] == [first] && [first] + [second] == [first, second];
    assert [RowOf(0.0, values)] + [RowOf(0.5, values)] == [RowOf(0.0, values), RowOf(0.5, values)];
  }

  predicate Passes<V>(c: Settings, call: Call<V>) {
    call.active && call.level <= c.storeLevel && c.columns > 0 && InWindow(c, call.time + c.timeOffset)
  }

  /** The calls that the level and the window let through. */
  function Passing<V>(c: Settings, calls: seq<Call<V>>): seq<Call<V>> {
    if calls == [] then []
    else Passing(c, calls[..|calls| - 1]) + if Passes(c, calls[|calls| - 1]) then [calls[|calls| - 1]] else []
  }

  predicate Turn(k: nat, n: nat) {
    n == 0 || k % n == 0
  }

  /** The elements at the positions 0, n, 2n, and so on; all of them when `n` is zero. */
  function EveryNth<T>(s: seq<T>, n: nat): seq<T> {
    if s == [] then []
    else EveryNth(s[..|s| - 1], n) + if Turn(|s| - 1, n) then [s[|s| - 1]] else []
  }

  lemma {:induction false} EveryNthAt<T>(s: seq<T>, n: nat)
    requires n > 0
    ensures (|EveryNth(s, n)| - 1) * n < |s| <= |EveryNth(s, n)| * n
    ensures forall k: nat :: k < |EveryNth(s, n)| ==> 0 <= k * n < |s| && EveryNth(s, n)[k] == s[k * n]
  {
    if s != [] {
      hide Turn;
      var r, m := EveryNth(s[..|s| - 1], n), |s| - 1;
      EveryNthAt(s[..m], n);
      NextTurn(|r|, m, n);
    }
  }

  lemma NextTurn(q: nat, m: nat, n: nat)
    requires n > 0 && (q - 1) * n < m <= q * n
    ensures Turn(m, n) <==> m == q * n
    ensures Turn(m, n) ==> (q + 1 - 1) * n < m + 1 <= (q + 1) * n
    ensures !Turn(m, n) ==> (q - 1) * n < m + 1 <= q * n
  {
    Multiple(q, m, n);
    assert (q + 1) * n == q * n + n;
  }

  /** A number within one step below the multiple `q * n` is divisible only if it is that multiple. */
  lemma Multiple(q: nat, m: nat, n: nat)
    requires n > 0 && (q - 1) * n < m <= q * n
    ensures m % n == 0 <==> m == q * n
  {
    var d, r := m / n, m % n;
    assert m == d * n + r;
    if r == 0 && m != q * n {
      assert (d + 1) * n == d * n + n;
      MultiplesApart(d, q, n);
      MultiplesApart(q - 1, d, n);
    }
    if m == q * n {
      MultiplesApart(d - 1, q, n);
      MultiplesApart(q, d + 1, n);
    }
  }

  lemma MultiplesApart(a: int, b: int, n: nat)
    requires a * n < b * n
    ensures a < b
  {
    if a >= b {
      MultiplesGrow(b, a, n);
    }
  }

  lemma MultiplesGrow(a: int, b: int, n: nat)
    requires a <= b
    ensures a * n <= b * n
  {
    assert b * n == a * n + (b - a) * n;
  }

  /** The times asked for never go back and do not start before the initial mark of the table. */
  ghost predicate Forward<V>(c: Settings, calls: seq<Call<V>>) {
    && (forall k :: 0 <= k < |calls| ==> calls[k].time + c.timeOffset >= -1.0)
    && (forall j, k :: 0 <= j < k < |calls| ==> calls[j].time <= calls[k].time)
  }

  function RowsOf<V>(c: Settings, calls: seq<Call<V>>): seq<Row<V>> {
    if calls == [] then []
    else
      var call := calls[|calls| - 1];
      RowsOf(c, calls[..|calls| - 1]) + [RowOf(call.time + c.timeOffset, call.values)]
  }

  lemma EveryNthNext<T>(s: seq<T>, x: T, n: nat)
    ensures EveryNth(s + [x], n) == EveryNth(s, n) + if Turn(|s|, n) then [x] else []
  {
    hide Turn;
    assert (s + [x])[..|s|] == s;
  }

  lemma KeptNext<V>(c: Settings, passed: seq<Call<V>>, call: Call<V>, n: nat)
    ensures RowsOf(c, EveryNth(passed + [call], n)) == RowsOf(c, EveryNth(passed, n)) +
      if Turn(|passed|, n) then [RowOf(call.time + c.timeOffset, call.values)] else []
  {
    hide EveryNth, RowOf, Turn;
    EveryNthNext(passed, call, n);
    var kept := EveryNth(passed, n);
    assert (kept + [call])[..|kept|] == kept;
    assert kept + [] == kept;
  }

  lemma DecidedByCount(c: Settings, f: Filter, active: bool, time: real, level: int)
    requires !Lt(time, f.lastStored, c.eps) && !TooSoon(c, f, time)
    ensures var passes := active && level <= c.storeLevel && c.columns > 0 && InWindow(c, time);
      && (Decide(c, f, active, time, level) == Accept <==> passes && Turn(f.calls, c.stepCount))
      && NextFilter(c, f, active, time, level).calls == f.calls + if passes && c.stepCount > 0 then 1 else 0
  {
    hide InWindow, Lt, TooSoon;
  }

  /** Without a step time the rows are every n-th call that passes the filters, the first one included. */
  lemma {:induction false} EveryNthIsStored<V>(c: Settings, calls: seq<Call<V>>)
    requires Forward(c, calls) && (c.stepTimeDefined ==> c.stepTime == 0.0)
    ensures Replay(c, calls).0 == RowsOf(c, EveryNth(Passing(c, calls), c.stepCount))
    ensures Replay(c, calls).1.calls == if c.stepCount > 0 then |Passing(c, calls)| else 0
    ensures var last := Replay(c, calls).1.lastStored;
      last == -1.0 || (calls != [] && last <= calls[|calls| - 1].time + c.timeOffset)
  {
    hide InWindow, RowOf, RowsOf, EveryNth, Lt, Gt, Geq, Replay, Decide, NextFilter, TooSoon;
    if calls == [] {
      EmptyReplay<V>(c);
    } else {
      var before, call := calls[..|calls| - 1], calls[|calls| - 1];
      EveryNthIsStored(c, before);
      var f, time := Replay(c, before).1, call.time + c.timeOffset;
      assert f.lastStored <= time;
      NotBelowItself(time, f.lastStored, c.eps);
      NotTooSoon(c, f, time);
      assert before + [call] == calls;
      ReplayNext(c, before, call);
      DecidedByCount(c, f, call.active, time, call.level);
      LastStoredNext(c, f, call.active, time, call.level);
      KeptNext(c, Passing(c, before), call, c.stepCount);
      assert Passing(c, before) + [] == Passing(c, before);
    }
  }

  /** The rows of calls of which each is stored unless its time lies before the last one stored. */
  function Sieve<V>(c: Settings, calls: seq<Call<V>>): (r: (seq<Row<V>>, real)) {
    if calls == [] then ([], -1.0)
    else
      var (rows, last) := Sieve(c, calls[..|calls| - 1]);
      var call := calls[|calls| - 1];
      var time := call.time + c.timeOffset;
      if Lt(time, last, c.eps) then (rows, last) else (rows + [RowOf(time, call.values)], time)
  }

  lemma SieveNext<V>(c: Settings, calls: seq<Call<V>>, call: Call<V>)
    ensures var (rows, last) := Sieve(c, calls);
      var time := call.time + c.timeOffset;
      Sieve(c, calls + [call]) ==
        if Lt(time, last, c.eps) then (rows, last) else (rows + [RowOf(time, call.values)], time)
  {
    hide Lt, RowOf;
    assert (calls + [call])[..|calls|] == calls;
  }

  /**
    Whatever the times: every n-th call that passes the filters is stored or, for a time before the last one,
    refused.
  */
  lemma {:induction false} EveryNthIsSieved<V>(c: Settings, calls: seq<Call<V>>)
    requires !c.stepTimeDefined
    ensures var kept := Sieve(c, EveryNth(Passing(c, calls), c.stepCount));
      Replay(c, calls).0 == kept.0 && Replay(c, calls).1.lastStored == kept.1
    ensures Replay(c, calls).1.calls == if c.stepCount > 0 then |Passing(c, calls)| else 0
  {
    hide InWindow, RowOf, EveryNth, Lt, Gt, Geq, Replay, Decide, NextFilter, Turn, Sieve;
    if calls == [] {
      EmptyReplay<V>(c);
    } else {
      var before, call := calls[..|calls| - 1], calls[|calls| - 1];
      EveryNthIsSieved(c, before);
      var f, time := Replay(c, before).1, call.time + c.timeOffset;
      assert before + [call] == calls;
      ReplayNext(c, before, call);
      DecidedWithoutStepTime(c, f, call.active, time, call.level);
      var passed := Passing(c, before);
      SameTurn(f.calls, |passed|, c.stepCount);
      EveryNthNext(passed, call, c.stepCount);
      SieveNext(c, EveryNth(passed, c.stepCount), call);
      assert EveryNth(passed, c.stepCount) + [] == EveryNth(passed, c.stepCount);
      assert passed + [] == passed;
    }
  }

  lemma SameTurn(calls: nat, passed: nat, n: nat)
    requires n > 0 ==> calls == passed
    ensures Turn(calls, n) <==> Turn(passed, n)
  {
  }

  lemma DecidedWithoutStepTime(c: Settings, f: Filter, active: bool, time: real, level: int)
    requires !c.stepTimeDefined
    ensures var passes := active && level <= c.storeLevel && c.columns > 0 && InWindow(c, time);
      && (Decide(c, f, active, time, level) == Skip <==> !passes || !Turn(f.calls, c.stepCount))
      && (Decide(c, f, active, time, level) == Refuse <==>
            passes && Turn(f.calls, c.stepCount) && Lt(time, f.lastStored, c.eps))
      && NextFilter(c, f, active, time, level).lastStored ==
           (if passes && Turn(f.calls, c.stepCount) && !Lt(time, f.lastStored, c.eps) then time else f.lastStored)
      && NextFilter(c, f, active, time, level).calls == f.calls + if passes && c.stepCount > 0 then 1 else 0
  {
    hide InWindow, Lt;
  }

  lemma NotTooSoon(c: Settings, f: Filter, time: real)
    requires c.stepTimeDefined ==> c.stepTime == 0.0
    requires f.lastStored <= time
    ensures !TooSoon(c, f, time)
  {
    NotAboveItself(f.lastStored, time, c.eps);
  }

  lemma LastStoredNext(c: Settings, f: Filter, active: bool, time: real, level: int)
    ensures NextFilter(c, f, active, time, level).lastStored in {time, f.lastStored}
  {
    hide Decide;
  }

  lemma EmptyReplay<V>(c: Settings)
    ensures Replay<V>(c, []) == ([], Filter(-1.0, 0))
    ensures RowsOf<V>(c, EveryNth([], c.stepCount)) == [] && Sieve<V>(c, EveryNth([], c.stepCount)) == ([], -1.0)
  {
  }

  // ---------------------------------------------------------------------------------------------
  // Which calls are stored, told by the rows stored before

  /** The time of the last row; before the first one the table says -1. */
  ghost function LastTime<V>(rows: seq<Row<V>>): real {
    if rows == [] then -1.0 else TimeOf(rows[|rows| - 1])
  }

  /** Results are asked for at that moment, at that level, and within the window. */
  ghost predicate AskedFor<V>(c: Settings, call: Call<V>) {
    && call.active
    && call.level <= c.storeLevel
    && c.columns > 0
    && (c.startTimeDefined ==> !Lt(call.time + c.timeOffset, c.startTime, c.eps))
    && (c.endTimeDefined ==> !Lt(c.endTime, call.time + c.timeOffset, c.eps))
  }

  /** The last row lies at or after the start time, and less than a step time before `t`. */
  ghost predicate TooEarly<V>(c: Settings, rows: seq<Row<V>>, t: real) {
    c.stepTimeDefined && Geq(LastTime(rows), c.startTime, c.eps) && Gt(LastTime(rows) + c.stepTime, t, c.eps)
  }

  /** The call is asked for, and does not come too early after the rows before it. */
  ghost predicate Eligible<V>(c: Settings, calls: seq<Call<V>>, i: nat) {
    && i < |calls|
    && AskedFor(c, calls[i])
    && !TooEarly(c, Replay(c, calls[..i]).0, calls[i].time + c.timeOffset)
  }

  ghost function Eligibles<V>(c: Settings, calls: seq<Call<V>>): set<nat> {
    set i: nat | i < |calls| && Eligible(c, calls, i)
  }

  ghost predicate IsRow<V>(row: Row<V>, t: real, values: seq<V>) {
    && |row| == |values| + 1
    && row[0] == TimeCell(t)
    && forall i :: 0 <= i < |values| ==> row[i + 1] == ValueCell(values[i])
  }

  lemma EligiblesNext<V>(c: Settings, calls: seq<Call<V>>, call: Call<V>)
    ensures Eligibles(c, calls + [call]) ==
      Eligibles(c, calls) + if Eligible(c, calls + [call], |calls|) then {|calls|} else {}
    ensures |Eligibles(c, calls + [call])| ==
      |Eligibles(c, calls)| + if Eligible(c, calls + [call], |calls|) then 1 else 0
  {
    forall i: nat | i < |calls|
      ensures Eligible(c, calls + [call], i) <==> Eligible(c, calls, i)
    {
      SameEligible(c, calls, call, i);
    }
    hide Eligible;
  }

  lemma SameEligible<V>(c: Settings, calls: seq<Call<V>>, call: Call<V>, i: nat)
    requires i < |calls|
    ensures Eligible(c, calls + [call], i) <==> Eligible(c, calls, i)
  {
    hide AskedFor, TooEarly, Replay;
    assert (calls + [call])[..i] == calls[..i];
  }

  lemma SameDecision<V>(c: Settings, f: Filter, rows: seq<Row<V>>, call: Call<V>)
    requires f.lastStored == LastTime(rows)
    ensures var t := call.time + c.timeOffset;
      Counted(c, f, call.active, t, call.level) <==> AskedFor(c, call) && !TooEarly(c, rows, t)
  {
    hide Lt, Gt, Geq;
  }

  /** With a step count the counter tells how many calls were eligible. */
  lemma {:induction false} CallsCounted<V>(c: Settings, calls: seq<Call<V>>)
    ensures Replay(c, calls).1.calls == if c.stepCount > 0 then |Eligibles(c, calls)| else 0
  {
    if calls == [] {
      assert Eligibles(c, calls) == {};
    } else {
      var before, call := calls[..|calls| - 1], calls[|calls| - 1];
      assert calls == before + [call] && calls[..|before|] == before;
      hide Replay, Eligible, Eligibles;
      CallsCounted(c, before);
      EligiblesNext(c, before, call);
      CounterNext(c, before, call);
    }
  }

  lemma CounterNext<V>(c: Settings, calls: seq<Call<V>>, call: Call<V>)
    ensures Replay(c, calls + [call]).1.calls ==
      Replay(c, calls).1.calls + if c.stepCount > 0 && Eligible(c, calls + [call], |calls|) then 1 else 0
  {
    hide Replay, Counted, AskedFor, TooEarly, NextFilter, Decide, Eligible;
    var f, t := Replay(c, calls).1, call.time + c.timeOffset;
    LastStoredIs(c, calls);
    EligibleAtEnd(c, calls, call);
    SameDecision(c, f, Replay(c, calls).0, call);
    NextCalls(c, f, call.active, t, call.level);
    ReplayNext(c, calls, call);
  }

  lemma LastStoredIs<V>(c: Settings, calls: seq<Call<V>>)
    ensures Replay(c, calls).1.lastStored == LastTime(Replay(c, calls).0)
  {
    hide Replay, WellTimed;
    RowsAreWellTimed(c, calls);
  }

  lemma EligibleAtEnd<V>(c: Settings, calls: seq<Call<V>>, call: Call<V>)
    ensures Eligible(c, calls + [call], |calls|) <==>
      AskedFor(c, call) && !TooEarly(c, Replay(c, calls).0, call.time + c.timeOffset)
  {
    hide AskedFor, TooEarly, Replay;
    assert (calls + [call])[..|calls|] == calls;
  }

  lemma NextCalls(c: Settings, f: Filter, active: bool, time: real, level: int)
    ensures NextFilter(c, f, active, time, level).calls ==
      f.calls + if c.stepCount > 0 && Counted(c, f, active, time, level) then 1 else 0
  {
    hide Counted, Decide;
  }

  /** The call is asked for, does not come too early, and it is its turn among the eligible ones. */
  ghost predicate Due<V>(c: Settings, calls: seq<Call<V>>, call: Call<V>) {
    && AskedFor(c, call)
    && !TooEarly(c, Replay(c, calls).0, call.time + c.timeOffset)
    && (c.stepCount == 0 || |Eligibles(c, calls)| % c.stepCount == 0)
  }

  lemma DueDecides<V>(c: Settings, calls: seq<Call<V>>, call: Call<V>)
    ensures var (rows, f) := Replay(c, calls);
      var t := call.time + c.timeOffset;
      && (Decide(c, f, call.active, t, call.level) == Skip <==> !Due(c, calls, call))
      && (Decide(c, f, call.active, t, call.level) == Refuse <==> Due(c, calls, call) && Lt(t, LastTime(rows), c.eps))
  {
    CallsCounted(c, calls);
    LastStoredIs(c, calls);
    SameDecision(c, Replay(c, calls).1, Replay(c, calls).0, call);
    hide Replay, Counted, AskedFor, TooEarly, Lt, Eligibles;
  }

  /**
    A call is stored exactly when it is due and does not lie before the last row; due calls before the last row
    are refused with an error, all others are passed over.
  */
  lemma CallIsStoredIff<V>(c: Settings, calls: seq<Call<V>>, call: Call<V>)
    ensures var (rows, f) := Replay(c, calls);
      var next, t := Replay(c, calls + [call]).0, call.time + c.timeOffset;
      && (Decide(c, f, call.active, t, call.level) == Refuse <==> Due(c, calls, call) && Lt(t, LastTime(rows), c.eps))
      && if Due(c, calls, call) && !Lt(t, LastTime(rows), c.eps) then
           |next| == |rows| + 1 && next[..|rows|] == rows && IsRow(next[|rows|], t, call.values)
         else next == rows
  {
    DueDecides(c, calls, call);
    ReplayNext(c, calls, call);
    RowOfIsRow(call.time + c.timeOffset, call.values);
    hide Replay, Decide, Due, Lt, RowOf, IsRow;
  }

  lemma RowOfIsRow<V>(t: real, values: seq<V>)
    ensures IsRow(RowOf(t, values), t, values)
  {
  }

  // ---------------------------------------------------------------------------------------------
  // Component storage and result files

  class TextFile<V> {
    var rows: seq<Row<V>>
    var isOpen: bool

    constructor ()
      ensures rows == [] && isOpen
    {
      rows := [];
      isOpen := true;
    }

    /** Appends a row; writing to a closed file is an error. */
    method WriteRow(row: Row<V>) returns (ok: bool)
      modifies this`rows
      ensures ok <==> isOpen
      ensures rows == if isOpen then old(rows) + [row] else old(rows)
    {
      if isOpen {
        rows := rows + [row];
      }
      return isOpen;
    }

    method Close()
      modifies this`isOpen
      ensures !isOpen
    {
      isOpen := false;
    }
  }

  /** The storage of one group of channels of a component and the result file that belongs to it. */
  class ComponentStorage<V> {
    const settings: Settings
    const channels: ChannelStorage<V>
    const file: TextFile<V>
    ghost var calls: seq<Call<V>>

    ghost predicate Wf()
      reads this, channels
    {
      && channels.Valid()
      && channels.cols == settings.columns
      && Filter(channels.lastStored, channels.storeCallNum) == Replay(settings, calls).1
    }

    /** Before the end: a full table holds all rows, otherwise the file does. */
    ghost predicate Valid()
      reads this, channels, channels.values, file
    {
      && Wf()
      && file.isOpen
      && if channels.fullStorage then channels.Rows() == Replay(settings, calls).0 && file.rows == []
         else file.rows == Replay(settings, calls).0 && channels.numValues <= 1
    }

    constructor (settings: Settings, fullStorage: bool)
      ensures Valid() && fresh(channels) && fresh(channels.values) && fresh(file)
      ensures this.settings == settings && channels.fullStorage == fullStorage
      ensures calls == []
    {
      this.settings := settings;
      channels := new ChannelStorage(settings.columns, fullStorage);
      file := new TextFile();
      calls := [];
    }

    /** `SetStored` of the results storage while values are written at runtime: writes all rows of the table. */
    method SetStored() returns (ok: bool)
      requires channels.Valid()
      modifies file`rows
      ensures ok <==> channels.numValues > 0 && file.isOpen
      ensures file.rows == if file.isOpen then old(file.rows) + channels.Rows() else old(file.rows)
    {
      hide Table, Slice;
      ghost var rows := channels.Rows();
      if channels.numValues == 0 {
        assert rows == [];
        return false;
      }
      ok := true;
      for k := 0 to channels.numValues
        invariant channels.Rows() == rows
        invariant ok <==> file.isOpen || k == 0
        invariant file.rows == if file.isOpen then old(file.rows) + rows[..k] else old(file.rows)
      {
        var row := ReadRow(k);
        var written := file.WriteRow(row);
        ok := ok && written;
        assert rows[..k + 1] == rows[..k] + [row];
      }
      assert rows[..channels.numValues] == rows;
    }

    /** Reads a row cell by cell. */
    method ReadRow(r: nat) returns (row: Row<V>)
      requires channels.Valid() && r < channels.numValues
      ensures row == channels.RowAt(r)
    {
      RowBounds(r, channels.numValuesAllocated, channels.cols);
      row := [];
      for col := 0 to channels.cols
        invariant row == channels.RowAt(r)[..col]
      {
        row := row + [channels.values[r * channels.cols + col]];
      }
    }

    /** Takes the values into the table and, unless the table is kept to the end, writes it out. */
    method StoreRow(at: real, current: seq<V>) returns (ok: bool)
      requires channels.Valid() && channels.cols == |current| + 1
      modifies channels`values, channels`numValues, channels`numValuesAllocated, channels.values, file`rows
      ensures channels.Valid() && (channels.values == old(channels.values) || fresh(channels.values))
      ensures channels.Rows() ==
        (if channels.fullStorage then old(channels.Rows()) else []) + [RowOf(at, current)]
      ensures ok <==> channels.fullStorage || file.isOpen
      ensures file.rows ==
        if channels.fullStorage || !file.isOpen then old(file.rows) else old(file.rows) + [RowOf(at, current)]
    {
      hide RowOf, Table;
      ok := true;
      if channels.fullStorage {
        channels.StoreFull(at, current);
      } else {
        channels.StoreNonFull(at, current);
        ok := SetStored();
      }
    }

    /** The filters; the counter counts the calls that get past the earlier ones. */
    method PassesFilters(active: bool, at: real, level: int) returns (passes: bool)
      requires channels.cols == settings.columns
      modifies channels`storeCallNum
      ensures var f := Filter(channels.lastStored, old(channels.storeCallNum));
        && (passes <==> Decide(settings, f, active, at, level) != Skip)
        && channels.storeCallNum == NextFilter(settings, f, active, at, level).calls
    {
      hide Lt, Gt, Geq;
      if !active {
        return false;
      }
      if level > settings.storeLevel {
        return false;
      }
      if channels.cols == 0 {
        return false;
      }
      if settings.startTimeDefined && Lt(at, settings.startTime, settings.eps) {
        return false;
      }
      if settings.endTimeDefined && Lt(settings.endTime, at, settings.eps) {
        return false;
      }
      if settings.stepTimeDefined {
        if Geq(channels.lastStored, settings.startTime, settings.eps) &&
          Gt(channels.lastStored + settings.stepTime, at, settings.eps)
        {
          return false;
        }
      }
      if settings.stepCount > 0 {
        channels.storeCallNum := channels.storeCallNum + 1;
        if (channels.storeCallNum - 1) % settings.stepCount != 0 {
          return false;
        }
      }
      return true;
    }

    /**
      Stores the current values of the channels unless a filter skips the call or the time lies before the
      last one.
    */
    method StoreChannels(active: bool, time: real, level: int, current: seq<V>) returns (ok: bool)
      requires Valid() && (settings.columns > 0 ==> settings.columns == |current| + 1)
      modifies this`calls, channels, channels.values, file`rows
      ensures Valid() && (channels.values == old(channels.values) || fresh(channels.values))
      ensures calls == old(calls) + [Call(active, time, level, current)]
      ensures var f := old(Replay(settings, calls)).1;
        ok <==> Decide(settings, f, active, time + settings.timeOffset, level) != Refuse
    {
      hide Lt, Gt, Geq, RowOf, Replay, InWindow, TooSoon;
      var at := time + settings.timeOffset;
      ReplayNext(settings, calls, Call(active, time, level, current));
      calls := calls + [Call(active, time, level, current)];
      var passes := PassesFilters(active, at, level);
      if !passes {
        return true;
      }
      if Lt(at, channels.lastStored, settings.eps) {
        return false;
      }
      ok := StoreRow(at, current);
      if ok {
        channels.lastStored := at;
      }
    }

    /** `FinishedFull` of the text backend for one component: writes the whole table and closes the file. */
    method WriteTable() returns (ok: bool)
      requires channels.Valid()
      modifies file
      ensures !file.isOpen
      ensures ok <==> old(file.isOpen) || channels.numValues == 0
      ensures file.rows == if old(file.isOpen) then old(file.rows) + channels.Rows() else old(file.rows)
    {
      ok := true;
      if channels.numValues > 0 {
        ok := SetStored();
      } else {
        assert old(file.rows) + channels.Rows() == old(file.rows);
      }
      file.Close();
    }

    /** After the end: the file is closed and holds all rows. */
    ghost predicate Complete()
      reads this, channels, channels.values, file
    {
      && Wf()
      && !file.isOpen
      && file.rows == Replay(settings, calls).0
    }

    /** Ends the output; a second time it fails if there is a table to write, and writes nothing. */
    method FinishFile() returns (ok: bool)
      requires Valid() || Complete()
      modifies file
      ensures Complete()
      ensures ok <==> old(file.isOpen) || !channels.fullStorage || channels.numValues == 0
    {
      hide Replay;
      ok := true;
      if channels.fullStorage {
        ok := WriteTable();
      } else {
        file.Close();
      }
    }
  }

  // ---------------------------------------------------------------------------------------------
  // The storages of all components

  function Count(flags: seq<bool>): nat {
    if flags == [] then 0
    else Count(flags[..|flags| - 1]) + if flags[|flags| - 1] then 1 else 0
  }

  lemma {:induction false} CountAll(flags: seq<bool>)
    ensures Count(flags) <= |flags|
    ensures Count(flags) == |flags| <==> forall k :: 0 <= k < |flags| ==> flags[k]
  {
    if flags != [] {
      CountAll(flags[..|flags| - 1]);
    }
  }

  lemma {:induction false} CountSet(flags: seq<bool>, i: nat)
    requires i < |flags| && !flags[i]
    ensures Count(flags[i := true]) == Count(flags) + 1
  {
    var m := |flags| - 1;
    if i == m {
      assert flags[i := true][..m] == flags[..m];
    } else {
      assert flags[i := true][..m] == flags[..m][i := true];
      CountSet(flags[..m], i);
    }
  }

  lemma {:induction false} CountNone(flags: seq<bool>)
    requires forall k :: 0 <= k < |flags| ==> !flags[k]
    ensures Count(flags) == 0
  {
    if flags != [] {
      CountNone(flags[..|flags| - 1]);
    }
  }

  /** No two components share a table or a file. */
  ghost predicate Separate<V>(comps: seq<ComponentStorage<V>>)
    reads set c | c in comps :: c.channels`values
  {
    && (forall i, j :: 0 <= i < j < |comps| ==> comps[i] != comps[j])
    && (forall i, j :: 0 <= i < j < |comps| ==> comps[i].channels != comps[j].channels)
    && (forall i, j :: 0 <= i < j < |comps| ==> comps[i].channels.values != comps[j].channels.values)
    && (forall i, j :: 0 <= i < j < |comps| ==> comps[i].file != comps[j].file)
  }

  lemma NoComponentTwice<V>(comps: seq<ComponentStorage<V>>)
    requires Separate(comps)
    ensures forall i, j :: 0 <= i < j < |comps| ==> comps[i] != comps[j]
  {
  }

  class ResultsStorage<V> {
    const comps: seq<ComponentStorage<V>>
    const needsFullStorage: bool
    const isComponentFinished: array<bool>
    var numComponentsFinished: nat

    ghost const files := set c | c in comps :: c.file

    /** No component has finished yet. */
    constructor (comps: seq<ComponentStorage<V>>, needsFullStorage: bool)
      requires Separate(comps)
      requires forall c :: c in comps ==> c.Valid() && c.channels.fullStorage == needsFullStorage
      ensures Valid() && this.comps == comps && this.needsFullStorage == needsFullStorage
      ensures fresh(isComponentFinished) && (forall k :: 0 <= k < |comps| ==> !isComponentFinished[k])
      ensures numComponentsFinished == 0
    {
      this.comps := comps;
      this.needsFullStorage := needsFullStorage;
      isComponentFinished := new bool[|comps|](_ => false);
      numComponentsFinished := 0;
      new;
      hide Replay, Count, Table;
      CountNone(isComponentFinished[..]);
    }

    predicate AllFinished()
      reads this`numComponentsFinished
    {
      numComponentsFinished == |comps|
    }

    /** The state of one component: as long as not all are finished its file is open, afterwards it is complete. */
    ghost predicate CompValid(c: ComponentStorage<V>)
      requires c in comps
      reads this`numComponentsFinished, c, c.channels, c.channels.values, c.file
    {
      && c.channels.fullStorage == needsFullStorage
      && if AllFinished() then c.Complete() else c.Valid()
    }

    ghost predicate Valid()
      reads this`numComponentsFinished, isComponentFinished, set c | c in comps, set c | c in comps :: c.channels
      reads set c | c in comps :: c.channels.values
      reads set c | c in comps :: c.file
    {
      && Separate(comps)
      && isComponentFinished.Length == |comps|
      && numComponentsFinished == Count(isComponentFinished[..])
      && forall c :: c in comps ==> CompValid(c)
    }

    /** A component stores values; the storages of the others stay as they are. */
    method Store(comp: ComponentStorage<V>, active: bool, time: real, level: int, current: seq<V>) returns (ok: bool)
      requires Valid() && !AllFinished() && comp in comps
      requires comp.settings.columns > 0 ==> comp.settings.columns == |current| + 1
      modifies comp`calls, comp.channels, comp.channels.values, comp.file`rows
      ensures Valid()
      ensures comp.calls == old(comp.calls) + [Call(active, time, level, current)]
      ensures var f := old(Replay(comp.settings, comp.calls)).1;
        ok <==> Decide(comp.settings, f, active, time + comp.settings.timeOffset, level) != Refuse
    {
      hide Replay, Decide;
      ok := comp.StoreChannels(active, time, level, current);
      forall c | c in comps
        ensures CompValid(c)
      {
        if c != comp {
          assert old(CompValid(c));
        }
      }
    }

    /**
      Nothing is left to write for the component: its file is open, or it was written at runtime, or it has no
      rows.
    */
    predicate CanFinish(c: ComponentStorage<V>)
      reads c.channels`numValues, c.file`isOpen
    {
      c.file.isOpen || !c.channels.fullStorage || c.channels.numValues == 0
    }

    /** No table is kept to the end, or all are empty. */
    predicate NothingToWrite()
      reads set c | c in comps :: c.channels`numValues
    {
      !needsFullStorage || forall c :: c in comps ==> c.channels.numValues == 0
    }

    /** Ends the output of all components. */
    method FinishBackends() returns (ok: bool)
      requires Separate(comps) && forall c :: c in comps ==> c.Valid() || c.Complete()
      modifies files
      ensures forall c :: c in comps ==> c.Complete()
      ensures ok <==> forall c :: c in comps ==> old(CanFinish(c))
    {
      hide Replay, ComponentStorage<V>.Valid, ComponentStorage<V>.Complete;
      ok := true;
      for i := 0 to |comps|
        invariant forall j :: 0 <= j < i ==> comps[j].Complete()
        invariant forall j :: i <= j < |comps| ==> comps[j].Valid() || comps[j].Complete()
        invariant forall j :: i <= j < |comps| ==> comps[j].file.isOpen == old(comps[j].file.isOpen)
        invariant ok <==> forall j :: 0 <= j < i ==> old(CanFinish(comps[j]))
      {
        var finished := comps[i].FinishFile();
        ok := ok && finished;
      }
    }

    lemma OpenUntilTheEnd()
      requires Valid()
      ensures !AllFinished() ==> forall c :: c in comps ==> c.Valid() && CanFinish(c)
      ensures AllFinished() ==> forall c :: c in comps ==> c.Complete()
      ensures AllFinished() ==> ((forall c :: c in comps ==> CanFinish(c)) <==> NothingToWrite())
    {
      hide Replay;
      forall c | c in comps
        ensures if AllFinished() then c.Complete() && (CanFinish(c) <==> !needsFullStorage || c.channels.numValues == 0)
                else c.Valid() && CanFinish(c)
      {
        assert CompValid(c);
      }
    }

    /**
      Marks a component as finished; the last one to finish ends the output of all, and so does everything
      after that.
    */
    method SetFinished(comp: ComponentStorage<V>) returns (ok: bool)
      requires Valid()
      modifies this`numComponentsFinished, isComponentFinished, files
      ensures Valid()
      ensures forall k :: 0 <= k < |comps| ==>
        (isComponentFinished[k] <==> old(isComponentFinished[k]) || comps[k] == comp)
      ensures ok <==> !old(AllFinished()) || NothingToWrite()
    {
      hide ComponentStorage<V>.Valid, ComponentStorage<V>.Complete, Count, CanFinish, NothingToWrite;
      OpenUntilTheEnd();
      ghost var flags := isComponentFinished[..];
      var i := 0;
      while i < |comps| && !(comps[i] == comp && !isComponentFinished[i])
        invariant 0 <= i <= |comps|
        invariant forall k :: 0 <= k < i ==> comps[k] != comp || isComponentFinished[k]
      {
        i := i + 1;
      }
      if i < |comps| {
        isComponentFinished[i] := true;
        numComponentsFinished := numComponentsFinished + 1;
        CountSet(flags, i);
        assert isComponentFinished[..] == flags[i := true];
      }
      CountAll(isComponentFinished[..]);
      CountAll(flags);
      ok := true;
      if numComponentsFinished == |comps| {
        ok := FinishBackends();
      }
    }

    /**
      Finishes all components; whatever was stored is then in the files, row for row. It reports an error
      exactly when the last component was finished on its own before and there is a table to write.
    */
    method Finished() returns (ok: bool)
      requires Valid()
      modifies this`numComponentsFinished, isComponentFinished, files
      ensures Valid() && AllFinished()
      ensures forall c :: c in comps ==> !c.file.isOpen && c.file.rows == Replay(c.settings, c.calls).0
      ensures ok <==> comps == [] || !old(isComponentFinished[..])[|comps| - 1] || NothingToWrite()
    {
      hide Replay, Count, Separate, ComponentStorage<V>.Valid, NothingToWrite;
      ok := true;
      ghost var flags := isComponentFinished[..];
      NoComponentTwice(comps);
      for i := 0 to |comps|
        invariant Valid() && forall k :: 0 <= k < i ==> isComponentFinished[k]
        invariant forall k :: i <= k < |comps| ==> isComponentFinished[k] == flags[k]
        invariant ok <==> NothingToWrite() || forall j :: 0 <= j < i ==> !AllFrom(flags, j)
      {
        CountAll(isComponentFinished[..]);
        assert AllFinished() <==> AllFrom(flags, i);
        var finished := SetFinished(comps[i]);
        ok := ok && finished;
      }
      CountAll(isComponentFinished[..]);
      if comps != [] {
        assert AllFrom(flags, |comps| - 1) <==> flags[|comps| - 1];
      }
    }
  }

  /**
    Finishing twice: after the first time all files are complete, and the second time reports an error
    exactly when there are components and a table to write.
  */
  method FinishTwice<V>(storage: ResultsStorage<V>) returns (first: bool, second: bool)
    requires storage.Valid()
    modifies storage`numComponentsFinished, storage.isComponentFinished, storage.files
    ensures storage.Valid() && storage.AllFinished()
    ensures storage.comps != [] && !old(storage.isComponentFinished[..])[|storage.comps| - 1] ==> first
    ensures second <==> storage.comps == [] || storage.NothingToWrite()
  {
    hide Replay, Count, Separate, ComponentStorage<V>.Valid, ResultsStorage<V>.NothingToWrite;
    first := storage.Finished();
    CountAll(storage.isComponentFinished[..]);
    second := storage.Finished();
  }

  method OneRowInTable() returns (comp: ComponentStorage<int>)
    ensures comp.Valid() && comp.channels.fullStorage && comp.channels.numValues == 1 && fresh(comp.file)
  {
    var settings := Settings(1, 2, false, 0.0, false, 0.0, false, 0.0, 0, 0.0, 0.0);
    comp := new ComponentStorage<int>(settings, true);
    hide RowOf;
    ReplayNext<int>(settings, [], Call(true, 0.0, 2, []));
    assert Decide(settings, Filter(-1.0, 0), true, 0.0, 2) == Accept;
    var ok := comp.StoreChannels(true, 0.0, 2, []);
  }

  /** A single component with one row in its table: finishing it a second time is an error. */
  method SecondFinishFails() returns (first: bool, second: bool)
    ensures first && !second
  {
    hide ComponentStorage<int>.Valid, ComponentStorage<int>.Complete, Replay;
    var comp := OneRowInTable();
    var storage := new ResultsStorage<int>([comp], true);
    first, second := FinishTwice(storage);
    assert comp in storage.comps;
  }

  /** All flags from `j` on are set. */
  predicate AllFrom(flags: seq<bool>, j: nat) {
    forall k :: j <= k < |flags| ==> flags[k]
  }
}
