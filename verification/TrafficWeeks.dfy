/** Weeks and months start at local midnight, while the rows of days start at midnight of UTC
    (internal/proxy/traffic/sampler.go). */
module TrafficWeeks {

  import opened TrafficRollup
  import opened TrafficRuns

  /** The start of the UTC day a time lies in. */
  function DayStart(t: int): (start: int)
    ensures start <= t < start + Day && start % Day == 0
  {
    t - t % Day
  }

  /** The first UTC day that starts at t or later. */
  function NextDayStart(t: int): (start: int)
    ensures t <= start < t + Day && start % Day == 0
  {
    if t % Day == 0 then t else DayStart(t) + Day
  }

  predicate IsFinishedDay(d: int, now: int) {
    d % Day == 0 && d + Day <= now
  }

  /** When a week or month that ends now is rolled up: the rows of days are those of UTC days that are over, and
      the days from its start on are settled. */
  ghost predicate DaysKnown<S(!new)>(day: Table<S>, points: seq<Point<S>>, start: int, now: int) {
    && (forall c :: c in day ==> IsFinishedDay(c.period, now))
    && forall d :: start <= d && IsFinishedDay(d, now) ==> Settled(day, points, d, Day)
  }

  /** The days are known, and what a week's or month's table holds at its start was measured. */
  ghost predicate MayRoll<S(!new)>(day: Table<S>, target: Table<S>, points: seq<Point<S>>, start: int, now: int) {
    && start + 2 * Day <= now && DaysKnown(day, points, start, now)
    && GroundedAt(target, points, start, NextDayStart(start), DayStart(now))
  }

  /** The row of every series is what was measured in the whole UTC days, and the sum of its points if and only if
      the edges make no difference. */
  ghost predicate HoldsWholeDays<S(!new)>(table: Table<S>, points: seq<Point<S>>, start: int, now: int) {
    forall s: S ::
      && Holds(table, points, start, NextDayStart(start), DayStart(now), s)
      && (SettledWithin(table, points, start, now, s) <==> EdgesAddNothing(points, start, now, s))
  }

  /** What lies before the first whole UTC day and after the last one makes no difference. */
  ghost predicate EdgesAddNothing<S>(points: seq<Point<S>>, start: int, now: int, s: S) {
    && PointSum(points, s, start, NextDayStart(start)) + PointSum(points, s, DayStart(now), now) == 0
    && (AnyPoint(points, s, start, now) ==> AnyPoint(points, s, NextDayStart(start), DayStart(now)))
  }

  // ---------- The whole UTC days

  lemma {:induction false} NoRowsNoSum<S>(table: Table<S>, s: S, lo: int, hi: int)
    requires forall t :: lo <= t < hi ==> Cell(t, s) !in table
    ensures RowSum(table, s, lo, hi) == 0
    decreases hi - lo
  {
    if lo < hi {
      NoRowsNoSum(table, s, lo, hi - 1);
    }
  }

  lemma NextIsFirst(t: int, d: int)
    requires t <= d && d % Day == 0
    ensures NextDayStart(t) <= d
  {}

  lemma StartIsLast(t: int, d: int)
    requires d + Day <= t && d % Day == 0
    ensures d + Day <= DayStart(t)
  {}

  /** How many days lie between the starts of two. */
  lemma DaysBetween(first: int, d: int) returns (k: nat)
    requires first <= d && first % Day == 0 && d % Day == 0
    ensures d == first + Span(Day, k)
  {
    k := d / Day - first / Day;
    SpanIs(Day, k);
  }

  lemma DayAfterDays(first: int, k: nat)
    requires first % Day == 0
    ensures (first + Span(Day, k)) % Day == 0
  {
    SpanIs(Day, k);
  }

  lemma WholeDays(start: int, now: int) returns (n: nat)
    requires start + 2 * Day <= now
    ensures start <= NextDayStart(start) < DayStart(now) <= now
    ensures DayStart(now) == NextDayStart(start) + Span(Day, n)
    ensures forall k: nat :: k < n ==> start <= NextDayStart(start) + Span(Day, k) && IsFinishedDay(NextDayStart(start) + Span(Day, k), now)
  {
    var first := NextDayStart(start);
    n := DaysBetween(first, DayStart(now));
    forall k: nat | k < n ensures start <= first + Span(Day, k) && IsFinishedDay(first + Span(Day, k), now) {
      DayAfterDays(first, k);
      SpanGrows(Day, k, n);
    }
  }

  /** Every row between start and now is one of the whole UTC days. */
  lemma RowIsWholeDay(d: int, start: int, now: int, n: nat)
    requires start <= d && IsFinishedDay(d, now) && DayStart(now) == NextDayStart(start) + Span(Day, n)
    ensures NextDayStart(start) <= d < DayStart(now) && IsStart(d, NextDayStart(start), Day, n)
  {
    NextIsFirst(start, d);
    StartIsLast(now, d);
    var k := DaysBetween(NextDayStart(start), d);
    if k >= n {
      SpanGrows(Day, n, k);
    }
  }

  lemma DaysSettle<S(!new)>(day: Table<S>, points: seq<Point<S>>, start: int, now: int) returns (n: nat)
    requires DaysKnown(day, points, start, now) && start + 2 * Day <= now
    ensures start <= NextDayStart(start) < DayStart(now) <= now
    ensures DayStart(now) == NextDayStart(start) + Span(Day, n)
    ensures UnitsSettled(day, points, NextDayStart(start), Day, n) && AlignedRows(day, NextDayStart(start), Day, n)
    ensures forall c :: c in day && start <= c.period < now ==> NextDayStart(start) <= c.period < DayStart(now)
  {
    n := WholeDays(start, now);
    forall c | c in day && start <= c.period < now
      ensures NextDayStart(start) <= c.period < DayStart(now) && IsStart(c.period, NextDayStart(start), Day, n)
    {
      RowIsWholeDay(c.period, start, now, n);
    }
    forall k | 0 <= k < n ensures Settled(day, points, NextDayStart(start) + Span(Day, k), Day) {
      assert IsFinishedDay(NextDayStart(start) + Span(Day, k), now);
    }
  }

  /** A rollup from lo to hi reads the rows of a part of it, when there are no others. */
  lemma NarrowRollup<S>(day: Table<S>, start: int, first: int, last: int, now: int, s: S)
    requires start <= first <= last <= now
    requires forall c :: c in day && start <= c.period < now ==> first <= c.period < last
    ensures RowSum(day, s, start, now) == RowSum(day, s, first, last)
    ensures Cell(start, s) in RolledCells(day, start, now) <==> Cell(first, s) in RolledCells(day, first, last)
  {
    forall t | start <= t < first || last <= t < now ensures Cell(t, s) !in day {
      assert Cell(t, s) in day ==> first <= Cell(t, s).period < last;
    }
    NoRowsNoSum(day, s, start, first);
    NoRowsNoSum(day, s, last, now);
    RowSumSplits(day, s, start, first, now);
    RowSumSplits(day, s, first, last, now);
    if Cell(start, s) in RolledCells(day, start, now) {
      var c :| c in day && start <= c.period < now && Cell(start, c.series) == Cell(start, s);
      assert Cell(first, c.series) in RolledCells(day, first, last);
    }
    if Cell(first, s) in RolledCells(day, first, last) {
      var c :| c in day && first <= c.period < last && Cell(first, c.series) == Cell(first, s);
      assert Cell(start, c.series) in RolledCells(day, start, now);
    }
  }

  // ---------- What a week or month holds

  /** The row of a week or month that ends now holds what was measured in its whole UTC days. */
  lemma RollupHoldsWholeDays<S(!new)>(day: Table<S>, target: Table<S>, points: seq<Point<S>>, start: int, now: int, s: S)
    requires MayRoll(day, target, points, start, now)
    ensures Holds(RolledUp(day, target, start, now), points, start, NextDayStart(start), DayStart(now), s)
  {
    var first, last := NextDayStart(start), DayStart(now);
    var n := DaysSettle(day, points, start, now);
    RolledIsExact(day, points, first, Day, n, last, s);
    NarrowRollup(day, start, first, last, now, s);
    RolledCell(day, target, start, now, s);
  }

  lemma WindowSplits<S>(points: seq<Point<S>>, start: int, first: int, last: int, now: int, s: S)
    requires start <= first <= last <= now
    ensures PointSum(points, s, start, now) == PointSum(points, s, start, first) + PointSum(points, s, first, last) + PointSum(points, s, last, now)
    ensures AnyPoint(points, s, first, last) ==> AnyPoint(points, s, start, now)
  {
    PointSumSplits(points, s, start, first, now);
    PointSumSplits(points, s, first, last, now);
    if AnyPoint(points, s, first, last) {
      PointWithin(points, s, first, last, start, now);
    }
  }

  /** So it is the sum of the week or month if and only if what was measured on its first and last local day,
      outside of whole UTC days, makes no difference. */
  lemma RollupIsTheSum<S(!new)>(day: Table<S>, target: Table<S>, points: seq<Point<S>>, start: int, now: int)
    requires MayRoll(day, target, points, start, now)
    ensures HoldsWholeDays(RolledUp(day, target, start, now), points, start, now)
  {
    var after := RolledUp(day, target, start, now);
    forall s: S
      ensures Holds(after, points, start, NextDayStart(start), DayStart(now), s)
      ensures SettledWithin(after, points, start, now, s) <==> EdgesAddNothing(points, start, now, s)
    {
      RollupHoldsWholeDays(day, target, points, start, now, s);
      EdgesDecide(after, points, start, now, s);
    }
  }

  lemma EdgesDecide<S>(table: Table<S>, points: seq<Point<S>>, start: int, now: int, s: S)
    requires start + 2 * Day <= now && Holds(table, points, start, NextDayStart(start), DayStart(now), s)
    ensures SettledWithin(table, points, start, now, s) <==> EdgesAddNothing(points, start, now, s)
  {
    WindowSplits(points, start, NextDayStart(start), DayStart(now), now, s);
    if !AnyPoint(points, s, start, now) {
      NoPointsNoBytes(points, s, start, now);
      NoPointsNoBytes(points, s, NextDayStart(start), DayStart(now));
    }
  }

  /** Where local days are UTC days there are no such edges: every week and month is the sum of its points. */
  lemma AlignedEdgesAddNothing<S>(points: seq<Point<S>>, start: int, now: int, s: S)
    requires start % Day == 0 && now % Day == 0
    ensures NextDayStart(start) == start && DayStart(now) == now
    ensures EdgesAddNothing(points, start, now, s)
  {
    EmptyWindow(points, s, start);
    EmptyWindow(points, s, now);
  }

  /** With positive points it is the sum exactly when there are none at the edges. */
  lemma PositiveEdgesShow<S>(points: seq<Point<S>>, start: int, now: int, s: S)
    requires start + 2 * Day <= now && forall p :: p in points ==> p.bytes > 0
    ensures EdgesAddNothing(points, start, now, s) <==>
            !AnyPoint(points, s, start, NextDayStart(start)) && !AnyPoint(points, s, DayStart(now), now)
  {
    var first, last := NextDayStart(start), DayStart(now);
    PositiveSum(points, s, start, first);
    PositiveSum(points, s, last, now);
    AnyPointSplits(points, s, start, first, last, now);
  }

  lemma {:induction false} PositiveSum<S>(points: seq<Point<S>>, s: S, lo: int, hi: int)
    requires forall p :: p in points ==> p.bytes > 0
    ensures PointSum(points, s, lo, hi) >= 0
    ensures PointSum(points, s, lo, hi) == 0 <==> !AnyPoint(points, s, lo, hi)
  {
    if points != [] {
      var init, p := points[..|points| - 1], points[|points| - 1];
      assert points == init + [p];
      PositiveSum(init, s, lo, hi);
      AnyPointAppends(init, [p], s, lo, hi);
      assert AnyPoint([p], s, lo, hi) <==> Hits([p][0], s, lo, hi);
    }
  }

  lemma AnyPointSplits<S>(points: seq<Point<S>>, s: S, start: int, first: int, last: int, now: int)
    requires start <= first <= last <= now
    ensures AnyPoint(points, s, start, now) <==>
            AnyPoint(points, s, start, first) || AnyPoint(points, s, first, last) || AnyPoint(points, s, last, now)
  {
    if AnyPoint(points, s, start, now) {
      var i :| 0 <= i < |points| && Hits(points[i], s, start, now);
      assert Hits(points[i], s, start, first) || Hits(points[i], s, first, last) || Hits(points[i], s, last, now);
    }
    if AnyPoint(points, s, start, first) {
      PointWithin(points, s, start, first, start, now);
    }
    if AnyPoint(points, s, first, last) {
      PointWithin(points, s, first, last, start, now);
    }
    if AnyPoint(points, s, last, now) {
      PointWithin(points, s, last, now, start, now);
    }
  }

  /** A week that starts at midnight eight hours ahead of UTC, with a point in its last hours: the week is rolled up
      before the UTC day of the point is, and has no row although something was measured in it. */
  lemma WeekLacksItsEnd<S(!new)>(s: S, bytes: int)
    ensures var start, now := 16 * Hour, 16 * Hour + 7 * Day;
            var day, target: Table<S>, points := map[], map[], [Point(7 * Day + Hour, s, bytes)];
            && MayRoll(day, target, points, start, now)
            && AnyPoint(points, s, start, now)
            && RolledUp(day, target, start, now) == map[]
            && !SettledWithin(RolledUp(day, target, start, now), points, start, now, s)
  {
    var start, now := 16 * Hour, 16 * Hour + 7 * Day;
    var day, target: Table<S>, points := map[], map[], [Point(7 * Day + Hour, s, bytes)];
    assert Hits(points[0], s, start, now);
    forall d | start <= d && IsFinishedDay(d, now) ensures Settled(day, points, d, Day) {
      forall x: S ensures SettledFor(day, points, d, Day, x) {
        assert !Hits(points[0], x, d, d + Day);
      }
    }
  }

  // ---------- Runs

  /** Every row of a day was written by a rollup of that day. */
  lemma {:induction false} DayRowsWereRolled<S>(states: seq<World<S>>, events: seq<Event<S>>, n: nat, now: int)
    requires IsRun(states, events) && n <= |events|
    requires forall k :: 0 <= k < n && events[k].DayRolled? ==> IsFinishedDay(events[k].start, now)
    ensures forall c :: c in states[n].tables.day ==> IsFinishedDay(c.period, now)
  {
    if n > 0 {
      DayRowsWereRolled(states, events, n - 1, now);
      assert StepAt(states, events, n - 1);
    }
  }

  ghost predicate WasRolled<S>(events: seq<Event<S>>, d: int, n: nat) {
    exists rolls: seq<nat>, j: nat :: LastDayRoll(events, d, rolls, j, n)
  }

  /** Over any run in which only UTC days that are over were rolled up, and all days from the start of a week or month
      on had their last rollup: its row is what was measured in its whole UTC days, and the sum of its points if and
      only if the edges make no difference. */
  lemma WeekOfRun<S(!new)>(states: seq<World<S>>, events: seq<Event<S>>, n: nat, target: Table<S>, start: int, now: int)
    requires IsRun(states, events) && n <= |events| && start + 2 * Day <= now
    requires forall k :: 0 <= k < n && events[k].DayRolled? ==> IsFinishedDay(events[k].start, now)
    requires forall d :: start <= d && IsFinishedDay(d, now) ==> WasRolled(events, d, n)
    requires GroundedAt(target, states[n].points, start, NextDayStart(start), DayStart(now))
    ensures HoldsWholeDays(RolledUp(states[n].tables.day, target, start, now), states[n].points, start, now)
  {
    DayRowsWereRolled(states, events, n, now);
    forall d | start <= d && IsFinishedDay(d, now) ensures Settled(states[n].tables.day, states[n].points, d, Day) {
      assert WasRolled(events, d, n);
      var rolls: seq<nat>, j: nat :| LastDayRoll(events, d, rolls, j, n);
      DayIsTheSum(states, events, d, rolls, j, n);
    }
    RollupIsTheSum(states[n].tables.day, target, states[n].points, start, now);
  }
}
