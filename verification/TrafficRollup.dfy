/** Traffic tables and their rollups (internal/db/traffic_rollup.go). A series S is a resource, tag and
    direction; times are seconds. */
module TrafficRollup {

  datatype Point<S> = Point(period: int, series: S, bytes: int)

  datatype Cell<S> = Cell(period: int, series: S)

  type Table<!S(==)> = map<Cell<S>, int>

  // ---------- What was measured

  predicate Hits<S(==)>(p: Point<S>, s: S, lo: int, hi: int) {
    p.series == s && lo <= p.period < hi
  }

  /** The bytes of a series in a window of time. */
  function PointSum<S(==)>(points: seq<Point<S>>, s: S, lo: int, hi: int): (sum: int) {
    if points == [] then 0
    else
      var p := points[|points| - 1];
      PointSum(points[..|points| - 1], s, lo, hi) + if Hits(p, s, lo, hi) then p.bytes else 0
  }

  ghost predicate AnyPoint<S>(points: seq<Point<S>>, s: S, lo: int, hi: int) {
    exists i :: 0 <= i < |points| && Hits(points[i], s, lo, hi)
  }

  // ---------- What the tables hold

  function Bytes<S(==)>(table: Table<S>, c: Cell<S>): int {
    if c in table then table[c] else 0
  }

  function AddPoint<S(==)>(table: Table<S>, p: Point<S>): (after: Table<S>) {
    table[Cell(p.period, p.series) := Bytes(table, Cell(p.period, p.series)) + p.bytes]
  }

  function AddPoints<S(==)>(table: Table<S>, points: seq<Point<S>>): (after: Table<S>) {
    if points == [] then table else AddPoint(AddPoints(table, points[..|points| - 1]), points[|points| - 1])
  }

  /** The sum of a series' rows that start in a window. */
  function RowSum<S(==)>(table: Table<S>, s: S, lo: int, hi: int): (sum: int)
    decreases hi - lo
  {
    if lo >= hi then 0 else RowSum(table, s, lo, hi - 1) + Bytes(table, Cell(hi - 1, s))
  }

  /** The cells that a rollup writes: one for every series with a row in the window. */
  function RolledCells<S(==)>(source: Table<S>, start: int, end: int): (cells: set<Cell<S>>) {
    set c | c in source && start <= c.period < end :: Cell(start, c.series)
  }

  /** Every series with a row in the window gets one row at its start, with the sum in place of what was there. */
  function RolledUp<S(==)>(source: Table<S>, target: Table<S>, start: int, end: int): (after: Table<S>) {
    target + map c | c in RolledCells(source, start, end) :: RowSum(source, c.series, start, end)
  }

  /** The table without the rows that are older than it keeps them; all of it where it keeps no time. */
  function Kept<S(==)>(table: Table<S>, now: int, keep: int): (rest: Table<S>) {
    if keep > 0 then map c | c in table && c.period >= now - keep :: table[c] else table
  }

  /** Exactly the rows that are older than the table keeps its rows are deleted, and no other changes. */
  ghost predicate CutOff<S>(table: Table<S>, rest: Table<S>, now: int, keep: int) {
    && (forall c :: c in rest ==> c in table && rest[c] == table[c] && !(keep > 0 && now - c.period > keep))
    && forall c :: c in table && !(keep > 0 && now - c.period > keep) ==> c in rest
  }

  lemma KeptExactly<S>(table: Table<S>, rest: Table<S>, now: int, keep: int)
    ensures rest == Kept(table, now, keep) <==> CutOff(table, rest, now, keep)
  {
    if CutOff(table, rest, now, keep) {
      assert rest.Keys == Kept(table, now, keep).Keys;
    }
  }

  // ---------- A settled window

  /** The table's row at a time holds what was measured from lo to hi. */
  ghost predicate Holds<S>(table: Table<S>, points: seq<Point<S>>, at: int, lo: int, hi: int, s: S) {
    if AnyPoint(points, s, lo, hi) then Cell(at, s) in table && table[Cell(at, s)] == PointSum(points, s, lo, hi)
    else Cell(at, s) !in table
  }

  /** The table's row at the start of a window holds exactly what was measured in it. */
  ghost predicate SettledWithin<S>(table: Table<S>, points: seq<Point<S>>, start: int, end: int, s: S) {
    Holds(table, points, start, start, end, s)
  }

  ghost predicate SettledUpTo<S(!new)>(table: Table<S>, points: seq<Point<S>>, start: int, end: int) {
    forall s: S :: SettledWithin(table, points, start, end, s)
  }

  ghost predicate SettledFor<S>(table: Table<S>, points: seq<Point<S>>, start: int, length: nat, s: S) {
    SettledWithin(table, points, start, start + length, s)
  }

  ghost predicate Settled<S(!new)>(table: Table<S>, points: seq<Point<S>>, start: int, length: nat) {
    forall s: S :: SettledFor(table, points, start, length, s)
  }

  /** No row of the table at a time without something measured from lo to hi. */
  ghost predicate GroundedAt<S(!new)>(target: Table<S>, points: seq<Point<S>>, at: int, lo: int, hi: int) {
    forall s: S :: Cell(at, s) in target ==> AnyPoint(points, s, lo, hi)
  }

  ghost predicate GroundedUpTo<S(!new)>(table: Table<S>, points: seq<Point<S>>, start: int, end: int) {
    GroundedAt(table, points, start, start, end)
  }

  /** How long k windows are. */
  function Span(unit: nat, k: nat): (length: nat)
    ensures unit > 0 ==> length >= k
  {
    if k == 0 then 0 else Span(unit, k - 1) + unit
  }

  lemma {:induction false} SpanIs(unit: nat, k: nat)
    ensures Span(unit, k) == unit * k
  {
    if k > 0 {
      SpanIs(unit, k - 1);
    }
  }

  lemma {:induction false} SpanGrows(unit: nat, j: nat, k: nat)
    requires j <= k
    ensures Span(unit, j) <= Span(unit, k)
    ensures j < k ==> Span(unit, j) + unit <= Span(unit, k)
  {
    if j < k {
      SpanGrows(unit, j, k - 1);
    }
  }

  /** The rows in the window of n units all start at one of them. */
  ghost predicate AlignedRows<S>(table: Table<S>, start: int, unit: nat, n: nat) {
    forall c :: c in table && start <= c.period < start + Span(unit, n) ==> IsStart(c.period, start, unit, n)
  }

  ghost predicate IsStart(t: int, start: int, unit: nat, n: nat) {
    exists k :: 0 <= k < n && t == start + Span(unit, k)
  }

  ghost predicate UnitsSettled<S(!new)>(table: Table<S>, points: seq<Point<S>>, start: int, unit: nat, n: nat) {
    forall k :: 0 <= k < n ==> Settled(table, points, start + Span(unit, k), unit)
  }

  // ---------- Sums over windows

  lemma {:induction false} PointSumSplits<S>(points: seq<Point<S>>, s: S, lo: int, mid: int, hi: int)
    requires lo <= mid <= hi
    ensures PointSum(points, s, lo, hi) == PointSum(points, s, lo, mid) + PointSum(points, s, mid, hi)
  {
    if points != [] {
      PointSumSplits(points[..|points| - 1], s, lo, mid, hi);
    }
  }

  lemma {:induction false} NoPointsNoBytes<S>(points: seq<Point<S>>, s: S, lo: int, hi: int)
    requires !AnyPoint(points, s, lo, hi)
    ensures PointSum(points, s, lo, hi) == 0
  {
    if points != [] {
      var init := points[..|points| - 1];
      assert !Hits(points[|points| - 1], s, lo, hi);
      assert forall i :: 0 <= i < |init| ==> init[i] == points[i];
      NoPointsNoBytes(init, s, lo, hi);
    }
  }

  lemma {:induction false} RowSumSplits<S>(table: Table<S>, s: S, lo: int, mid: int, hi: int)
    requires lo <= mid <= hi
    ensures RowSum(table, s, lo, hi) == RowSum(table, s, lo, mid) + RowSum(table, s, mid, hi)
    decreases hi - mid
  {
    if mid < hi {
      RowSumSplits(table, s, lo, mid, hi - 1);
    }
  }

  lemma {:induction false} OneRowSum<S>(table: Table<S>, s: S, lo: int, hi: int)
    requires lo < hi && forall t :: lo < t < hi ==> Cell(t, s) !in table
    ensures RowSum(table, s, lo, hi) == Bytes(table, Cell(lo, s))
    decreases hi - lo
  {
    if lo + 1 < hi {
      OneRowSum(table, s, lo, hi - 1);
    } else {
      assert RowSum(table, s, lo, lo) == 0;
    }
  }

  lemma StartsApart(t: int, start: int, unit: nat, n: nat, k: nat)
    requires k < n && start + Span(unit, k) < t < start + Span(unit, k) + unit
    ensures !IsStart(t, start, unit, n)
  {
    forall j | 0 <= j < n ensures t != start + Span(unit, j) {
      if j <= k {
        SpanGrows(unit, j, k);
      } else {
        SpanGrows(unit, k, j);
      }
    }
  }

  lemma UnitRowSum<S(!new)>(table: Table<S>, points: seq<Point<S>>, start: int, unit: nat, n: nat, s: S, k: nat)
    requires unit > 0 && k < n && UnitsSettled(table, points, start, unit, n) && AlignedRows(table, start, unit, n)
    ensures var x := start + Span(unit, k);
            RowSum(table, s, x, x + unit) == PointSum(points, s, x, x + unit)
  {
    var x := start + Span(unit, k);
    SpanGrows(unit, k, n);
    forall t | x < t < x + unit ensures Cell(t, s) !in table {
      StartsApart(t, start, unit, n, k);
    }
    OneRowSum(table, s, x, x + unit);
    assert Settled(table, points, x, unit);
    assert SettledFor(table, points, x, unit, s);
    if !AnyPoint(points, s, x, x + unit) {
      NoPointsNoBytes(points, s, x, x + unit);
    }
  }

  /** The rows of n settled units add up to what was measured in them. */
  lemma {:induction false} UnitsAddUp<S(!new)>(table: Table<S>, points: seq<Point<S>>, start: int, unit: nat, n: nat, s: S, k: nat)
    requires unit > 0 && k <= n && UnitsSettled(table, points, start, unit, n) && AlignedRows(table, start, unit, n)
    ensures RowSum(table, s, start, start + Span(unit, k)) == PointSum(points, s, start, start + Span(unit, k))
  {
    if k > 0 {
      var x := start + Span(unit, k - 1);
      UnitsAddUp(table, points, start, unit, n, s, k - 1);
      UnitRowSum(table, points, start, unit, n, s, k - 1);
      RowSumSplits(table, s, start, x, x + unit);
      PointSumSplits(points, s, start, x, x + unit);
    } else {
      EmptyWindow(points, s, start);
    }
  }

  lemma EmptyWindow<S>(points: seq<Point<S>>, s: S, lo: int)
    ensures PointSum(points, s, lo, lo) == 0
  {
    assert !AnyPoint(points, s, lo, lo);
    NoPointsNoBytes(points, s, lo, lo);
  }

  /** A time in the window of n units lies in one of them. */
  lemma {:induction false} UnitOf(t: int, start: int, unit: nat, n: nat) returns (k: nat)
    requires start <= t < start + Span(unit, n)
    ensures k < n && start + Span(unit, k) <= t < start + Span(unit, k) + unit
  {
    if t < start + Span(unit, n - 1) {
      k := UnitOf(t, start, unit, n - 1);
    } else {
      k := n - 1;
    }
  }

  /** A point in a settled unit has its row there. */
  lemma PointHasRow<S(!new)>(table: Table<S>, points: seq<Point<S>>, x: int, unit: nat, i: nat)
    requires Settled(table, points, x, unit) && i < |points| && x <= points[i].period < x + unit
    ensures Cell(x, points[i].series) in table
  {
    var s := points[i].series;
    assert SettledFor(table, points, x, unit, s);
    assert Hits(points[i], s, x, x + unit);
  }

  lemma MeasuredIsRolled<S(!new)>(table: Table<S>, points: seq<Point<S>>, start: int, unit: nat, n: nat, s: S)
    requires UnitsSettled(table, points, start, unit, n) && AnyPoint(points, s, start, start + Span(unit, n))
    ensures Cell(start, s) in RolledCells(table, start, start + Span(unit, n))
  {
    var i :| 0 <= i < |points| && Hits(points[i], s, start, start + Span(unit, n));
    var k := UnitOf(points[i].period, start, unit, n);
    SpanGrows(unit, k, n);
    PointHasRow(table, points, start + Span(unit, k), unit, i);
  }

  lemma RowIsMeasured<S(!new)>(table: Table<S>, points: seq<Point<S>>, start: int, unit: nat, n: nat, c: Cell<S>, k: nat)
    requires Settled(table, points, start + Span(unit, k), unit)
    requires c in table && k < n && c.period == start + Span(unit, k)
    ensures AnyPoint(points, c.series, start, start + Span(unit, n))
  {
    SpanGrows(unit, k, n);
    assert SettledFor(table, points, c.period, unit, c.series);
    var i :| 0 <= i < |points| && Hits(points[i], c.series, c.period, c.period + unit);
    assert Hits(points[i], c.series, start, start + Span(unit, n));
  }

  lemma RolledIsMeasured<S(!new)>(table: Table<S>, points: seq<Point<S>>, start: int, unit: nat, n: nat, s: S)
    requires UnitsSettled(table, points, start, unit, n) && AlignedRows(table, start, unit, n)
    requires Cell(start, s) in RolledCells(table, start, start + Span(unit, n))
    ensures AnyPoint(points, s, start, start + Span(unit, n))
  {
    var c :| c in table && start <= c.period < start + Span(unit, n) && Cell(start, c.series) == Cell(start, s);
    assert IsStart(c.period, start, unit, n);
    var k: nat :| k < n && c.period == start + Span(unit, k);
    RowIsMeasured(table, points, start, unit, n, c, k);
  }

  lemma RolledCell<S>(source: Table<S>, target: Table<S>, start: int, end: int, s: S)
    ensures Cell(start, s) in RolledUp(source, target, start, end) <==>
            Cell(start, s) in target || Cell(start, s) in RolledCells(source, start, end)
    ensures Cell(start, s) in RolledCells(source, start, end) ==>
              RolledUp(source, target, start, end)[Cell(start, s)] == RowSum(source, s, start, end)
  {}

  lemma RolledIsWhole<S(!new)>(source: Table<S>, points: seq<Point<S>>, start: int, unit: nat, n: nat, s: S)
    requires UnitsSettled(source, points, start, unit, n) && AlignedRows(source, start, unit, n)
    ensures Cell(start, s) in RolledCells(source, start, start + Span(unit, n)) <==> AnyPoint(points, s, start, start + Span(unit, n))
  {
    if AnyPoint(points, s, start, start + Span(unit, n)) {
      MeasuredIsRolled(source, points, start, unit, n, s);
    }
    if Cell(start, s) in RolledCells(source, start, start + Span(unit, n)) {
      RolledIsMeasured(source, points, start, unit, n, s);
    }
  }

  /** What a rollup of settled units sums is what was measured, and it writes a row exactly when there was
      something. */
  lemma RolledIsExact<S(!new)>(source: Table<S>, points: seq<Point<S>>, start: int, unit: nat, n: nat, end: int, s: S)
    requires unit > 0 && UnitsSettled(source, points, start, unit, n) && AlignedRows(source, start, unit, n)
    requires end == start + Span(unit, n)
    ensures Cell(start, s) in RolledCells(source, start, end) <==> AnyPoint(points, s, start, end)
    ensures RowSum(source, s, start, end) == PointSum(points, s, start, end)
  {
    RolledIsWhole(source, points, start, unit, n, s);
    UnitsAddUp(source, points, start, unit, n, s, n);
  }

  /** A rollup of n settled units settles the whole: seconds to an hour, hours to a day, days to a week or
      month. */
  lemma RollupSettles<S(!new)>(source: Table<S>, target: Table<S>, points: seq<Point<S>>, start: int, unit: nat, n: nat, end: int)
    requires unit > 0 && UnitsSettled(source, points, start, unit, n) && AlignedRows(source, start, unit, n)
    requires end == start + Span(unit, n) && GroundedUpTo(target, points, start, end)
    ensures SettledUpTo(RolledUp(source, target, start, end), points, start, end)
  {
    var after := RolledUp(source, target, start, end);
    forall s: S ensures SettledWithin(after, points, start, end, s) {
      RolledIsExact(source, points, start, unit, n, end, s);
      RolledCell(source, target, start, end, s);
    }
  }

  // ---------- Adding points

  lemma {:induction false} PointSumAppends<S>(old': seq<Point<S>>, new': seq<Point<S>>, s: S, lo: int, hi: int)
    ensures PointSum(old' + new', s, lo, hi) == PointSum(old', s, lo, hi) + PointSum(new', s, lo, hi)
  {
    if new' == [] {
      assert old' + new' == old';
    } else {
      PointSumAppends(old', new'[..|new'| - 1], s, lo, hi);
      assert (old' + new')[..|old' + new'| - 1] == old' + new'[..|new'| - 1];
    }
  }

  lemma AnyPointAppends<S>(old': seq<Point<S>>, new': seq<Point<S>>, s: S, lo: int, hi: int)
    ensures AnyPoint(old' + new', s, lo, hi) <==> AnyPoint(old', s, lo, hi) || AnyPoint(new', s, lo, hi)
  {
    var all := old' + new';
    if AnyPoint(old', s, lo, hi) {
      var i :| 0 <= i < |old'| && Hits(old'[i], s, lo, hi);
      assert Hits(all[i], s, lo, hi);
    }
    if AnyPoint(new', s, lo, hi) {
      var i :| 0 <= i < |new'| && Hits(new'[i], s, lo, hi);
      assert Hits(all[|old'| + i], s, lo, hi);
    }
    if AnyPoint(all, s, lo, hi) {
      var i :| 0 <= i < |all| && Hits(all[i], s, lo, hi);
      assert if i < |old'| then Hits(old'[i], s, lo, hi) else Hits(new'[i - |old'|], s, lo, hi);
    }
  }

  /** A cell after an upsert holds what it held, and what was added to it. */
  lemma {:induction false} CellAfter<S>(table: Table<S>, points: seq<Point<S>>, c: Cell<S>)
    ensures Bytes(AddPoints(table, points), c) == Bytes(table, c) + PointSum(points, c.series, c.period, c.period + 1)
    ensures c in AddPoints(table, points) <==> c in table || AnyPoint(points, c.series, c.period, c.period + 1)
  {
    if points != [] {
      var init, p := points[..|points| - 1], points[|points| - 1];
      CellAfter(table, init, c);
      assert points == init + [p];
      AnyPointAppends(init, [p], c.series, c.period, c.period + 1);
      assert AnyPoint([p], c.series, c.period, c.period + 1) <==> Hits([p][0], c.series, c.period, c.period + 1);
      assert Hits(p, c.series, c.period, c.period + 1) <==> Cell(p.period, p.series) == c;
    }
  }

  lemma PointSumWithout<S>(b: seq<Point<S>>, i: nat, s: S, lo: int, hi: int)
    requires i < |b|
    ensures PointSum(b, s, lo, hi) == PointSum(b[..i] + b[i + 1..], s, lo, hi) + PointSum([b[i]], s, lo, hi)
  {
    assert b == b[..i] + [b[i]] + b[i + 1..];
    PointSumAppends(b[..i], [b[i]], s, lo, hi);
    PointSumAppends(b[..i] + [b[i]], b[i + 1..], s, lo, hi);
    PointSumAppends(b[..i], b[i + 1..], s, lo, hi);
  }

  /** Taking the last element of a out of b as well. */
  lemma TakeOut<A>(a: seq<A>, b: seq<A>) returns (i: nat)
    requires multiset(a) == multiset(b) && a != []
    ensures i < |b| && b[i] == a[|a| - 1]
    ensures multiset(a[..|a| - 1]) == multiset(b[..i] + b[i + 1..])
  {
    var p := a[|a| - 1];
    assert p in multiset(a) && p in multiset(b);
    i :| 0 <= i < |b| && b[i] == p;
    WithoutOne(a, |a| - 1);
    WithoutOne(b, i);
    assert a[..|a| - 1] + a[|a| - 1 + 1..] == a[..|a| - 1];
  }

  lemma WithoutOne<A>(s: seq<A>, i: nat)
    requires i < |s|
    ensures multiset(s[..i] + s[i + 1..]) == multiset(s) - multiset{s[i]}
  {
    assert s == s[..i] + [s[i]] + s[i + 1..];
  }

  lemma {:induction false} PointSumPermutes<S>(a: seq<Point<S>>, b: seq<Point<S>>, s: S, lo: int, hi: int)
    requires multiset(a) == multiset(b)
    ensures PointSum(a, s, lo, hi) == PointSum(b, s, lo, hi)
  {
    if a == [] {
      assert |b| == |multiset(b)| == |multiset(a)| == 0;
    } else {
      var i := TakeOut(a, b);
      PointSumPermutes(a[..|a| - 1], b[..i] + b[i + 1..], s, lo, hi);
      PointSumWithout(b, i, s, lo, hi);
    }
  }

  /** Neither the order of the points nor how they were batched changes the minute table. */
  lemma UpsertsCommute<S>(table: Table<S>, a: seq<Point<S>>, b: seq<Point<S>>)
    requires multiset(a) == multiset(b)
    ensures AddPoints(table, a) == AddPoints(table, b)
  {
    var after, other := AddPoints(table, a), AddPoints(table, b);
    forall c | c in after.Keys + other.Keys ensures c in after && c in other && after[c] == other[c] {
      CellAfter(table, a, c);
      CellAfter(table, b, c);
      PointSumPermutes(a, b, c.series, c.period, c.period + 1);
      AnyPointPermutes(a, b, c.series, c.period, c.period + 1);
      assert Bytes(after, c) == Bytes(other, c);
    }
    assert after.Keys == other.Keys;
  }

  lemma AnyPointPermutes<S>(a: seq<Point<S>>, b: seq<Point<S>>, s: S, lo: int, hi: int)
    requires multiset(a) == multiset(b)
    ensures AnyPoint(a, s, lo, hi) <==> AnyPoint(b, s, lo, hi)
  {
    if AnyPoint(a, s, lo, hi) {
      var i :| 0 <= i < |a| && Hits(a[i], s, lo, hi);
      assert a[i] in multiset(b);
      var j :| 0 <= j < |b| && b[j] == a[i];
    }
    if AnyPoint(b, s, lo, hi) {
      var i :| 0 <= i < |b| && Hits(b[i], s, lo, hi);
      assert b[i] in multiset(a);
      var j :| 0 <= j < |a| && a[j] == b[i];
    }
  }

  lemma {:induction false} UpsertsBatch<S>(table: Table<S>, a: seq<Point<S>>, b: seq<Point<S>>)
    ensures AddPoints(AddPoints(table, a), b) == AddPoints(table, a + b)
  {
    if b == [] {
      assert a + b == a;
    } else {
      UpsertsBatch(table, a, b[..|b| - 1]);
      assert (a + b)[..|a + b| - 1] == a + b[..|b| - 1];
    }
  }
}
