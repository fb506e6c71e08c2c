/** Whole runs of the traffic tables: points are upserted, windows rolled up again and again, old rows cleaned
    up (internal/db/traffic_rollup.go). */
module TrafficRuns {

  import opened TrafficRollup

  const Hour: nat := 3600
  const Day: nat := 86400

  datatype Tables<!S(==)> = Tables(minute: Table<S>, hour: Table<S>, day: Table<S>)

  /** The tables, and everything that was ever upserted. */
  datatype World<!S(==)> = World(tables: Tables<S>, points: seq<Point<S>>)

  /** Cleaned carries how long each table keeps its rows. */
  datatype Event<S> =
    | Upserted(batch: seq<Point<S>>)
    | HourRolled(start: int)
    | DayRolled(start: int)
    | Cleaned(now: int, keepMinute: int, keepHour: int, keepDay: int)

  function RolledHour<S(==)>(t: Tables<S>, start: int): (hour: Table<S>) {
    RolledUp(t.minute, t.hour, start, start + Hour)
  }

  function RolledDay<S(==)>(t: Tables<S>, start: int): (day: Table<S>) {
    RolledUp(t.hour, t.day, start, start + Day)
  }

  function ApplyTables<S(==)>(t: Tables<S>, e: Event<S>): (after: Tables<S>) {
    match e
    case Upserted(batch) => t.(minute := AddPoints(t.minute, batch))
    case HourRolled(start) => t.(hour := RolledHour(t, start))
    case DayRolled(start) => t.(day := RolledDay(t, start))
    case Cleaned(now, keepMinute, keepHour, keepDay) =>
      Tables(Kept(t.minute, now, keepMinute), Kept(t.hour, now, keepHour), Kept(t.day, now, keepDay))
  }

  function Step<S(==)>(w: World<S>, e: Event<S>): (after: World<S>) {
    World(ApplyTables(w.tables, e), if e.Upserted? then w.points + e.batch else w.points)
  }

  // ---------- What is asked of a run

  predicate Reaches(now: int, keep: int, t: int) {
    keep > 0 && now - keep > t
  }

  /** Rows that start at t are deleted, from the minutes, the hours or the days. */
  predicate CleansMinutes<S>(e: Event<S>, t: int) { e.Cleaned? && Reaches(e.now, e.keepMinute, t) }

  predicate CleansHours<S>(e: Event<S>, t: int) { e.Cleaned? && Reaches(e.now, e.keepHour, t) }

  predicate CleansDays<S>(e: Event<S>, t: int) { e.Cleaned? && Reaches(e.now, e.keepDay, t) }

  /** The hours rolled up in the day that starts at d are its own: they do not overlap. */
  ghost predicate Aligned<S>(e: Event<S>, d: int) {
    e.HourRolled? && d <= e.start < d + Day ==> IsStart(e.start, d, Hour, 24)
  }

  /** Nothing is added to a window. */
  ghost predicate Quiet<S>(e: Event<S>, lo: int, hi: int) {
    e.Upserted? ==> forall i :: 0 <= i < |e.batch| ==> !(lo <= e.batch[i].period < hi)
  }

  // ---------- What holds in every state

  /** No row without something measured in its window. */
  ghost predicate Grounded<S>(table: Table<S>, points: seq<Point<S>>, length: nat) {
    forall c :: c in table ==> AnyPoint(points, c.series, c.period, c.period + length)
  }

  ghost predicate Inv<S>(w: World<S>) {
    Grounded(w.tables.minute, w.points, 1) && Grounded(w.tables.hour, w.points, Hour)
  }

  /** Every second of the hour at h holds exactly what was measured in it. */
  ghost predicate SecondsExact<S(!new)>(w: World<S>, h: int) {
    forall t :: h <= t < h + Hour ==> Settled(w.tables.minute, w.points, t, 1)
  }

  function HourStart(d: int, k: nat): int { d + Span(Hour, k) }

  ghost predicate HourSettled<S(!new)>(w: World<S>, h: int) {
    Settled(w.tables.hour, w.points, h, Hour)
  }

  ghost predicate HoursSettled<S(!new)>(w: World<S>, d: int) {
    forall k :: 0 <= k < 24 ==> HourSettled(w, HourStart(d, k))
  }

  /** The hour rows in the day are its hours, and its own rows are grounded. */
  ghost predicate DayReady<S(!new)>(w: World<S>, d: int) {
    AlignedRows(w.tables.hour, d, Hour, 24) && GroundedUpTo(w.tables.day, w.points, d, d + Day)
  }

  lemma DaySpan()
    ensures Span(Hour, 24) == Day
  {
    SpanIs(Hour, 24);
  }

  // ---------- Upserts

  lemma SettledAfterUpsert<S(!new)>(table: Table<S>, points: seq<Point<S>>, batch: seq<Point<S>>, start: int, length: nat)
    requires Settled(table, points, start, length)
    requires Quiet(Upserted(batch), start, start + length)
    ensures Settled(table, points + batch, start, length)
  {
    forall s: S ensures SettledFor(table, points + batch, start, length, s) {
      assert SettledFor(table, points, start, length, s);
      assert !AnyPoint(batch, s, start, start + length);
      AnyPointAppends(points, batch, s, start, start + length);
      PointSumAppends(points, batch, s, start, start + length);
      NoPointsNoBytes(batch, s, start, start + length);
    }
  }

  lemma SecondAfterUpsert<S(!new)>(table: Table<S>, points: seq<Point<S>>, batch: seq<Point<S>>, t: int)
    requires Settled(table, points, t, 1)
    ensures Settled(AddPoints(table, batch), points + batch, t, 1)
  {
    forall s: S ensures SettledFor(AddPoints(table, batch), points + batch, t, 1, s) {
      assert SettledFor(table, points, t, 1, s);
      CellAfter(table, batch, Cell(t, s));
      AnyPointAppends(points, batch, s, t, t + 1);
      PointSumAppends(points, batch, s, t, t + 1);
      if !AnyPoint(points, s, t, t + 1) {
        NoPointsNoBytes(points, s, t, t + 1);
      }
    }
  }

  lemma GroundedAfterUpsert<S>(table: Table<S>, points: seq<Point<S>>, batch: seq<Point<S>>, length: nat)
    requires Grounded(table, points, length)
    ensures Grounded(table, points + batch, length)
  {
    forall c | c in table ensures AnyPoint(points + batch, c.series, c.period, c.period + length) {
      AnyPointAppends(points, batch, c.series, c.period, c.period + length);
    }
  }

  lemma GroundedUpToAfterUpsert<S(!new)>(table: Table<S>, points: seq<Point<S>>, batch: seq<Point<S>>, start: int, end: int)
    requires GroundedUpTo(table, points, start, end)
    ensures GroundedUpTo(table, points + batch, start, end)
  {
    forall s: S | Cell(start, s) in table ensures AnyPoint(points + batch, s, start, end) {
      AnyPointAppends(points, batch, s, start, end);
    }
  }

  lemma UpsertKeepsInv<S>(w: World<S>, batch: seq<Point<S>>)
    requires Inv(w)
    ensures Inv(Step(w, Upserted(batch)))
  {
    var minute, points := AddPoints(w.tables.minute, batch), w.points + batch;
    forall c | c in minute ensures AnyPoint(points, c.series, c.period, c.period + 1) {
      CellAfter(w.tables.minute, batch, c);
      AnyPointAppends(w.points, batch, c.series, c.period, c.period + 1);
    }
    GroundedAfterUpsert(w.tables.hour, w.points, batch, Hour);
  }

  // ---------- Rollups

  lemma RolledHourGrounded<S>(w: World<S>, start: int)
    requires Inv(w)
    ensures Grounded(RolledHour(w.tables, start), w.points, Hour)
  {
    var after := RolledHour(w.tables, start);
    forall c | c in after ensures AnyPoint(w.points, c.series, c.period, c.period + Hour) {
      if c !in w.tables.hour {
        var m :| m in w.tables.minute && start <= m.period < start + Hour && Cell(start, m.series) == c;
        PointWithin(w.points, m.series, m.period, m.period + 1, start, start + Hour);
      }
    }
  }

  lemma PointWithin<S>(points: seq<Point<S>>, s: S, lo: int, hi: int, outerLo: int, outerHi: int)
    requires AnyPoint(points, s, lo, hi) && outerLo <= lo && hi <= outerHi
    ensures AnyPoint(points, s, outerLo, outerHi)
  {
    var i :| 0 <= i < |points| && Hits(points[i], s, lo, hi);
    assert Hits(points[i], s, outerLo, outerHi);
  }

  lemma StepKeepsInv<S>(w: World<S>, e: Event<S>)
    requires Inv(w)
    ensures Inv(Step(w, e))
  {
    match e
    case Upserted(batch) => UpsertKeepsInv(w, batch);
    case HourRolled(start) => RolledHourGrounded(w, start);
    case DayRolled(_) =>
    case Cleaned(_, _, _, _) =>
  }

  lemma DayRollGrounded<S(!new)>(w: World<S>, d: int, s: S)
    requires Inv(w) && DayReady(w, d) && Cell(d, s) in RolledCells(w.tables.hour, d, d + Day)
    ensures AnyPoint(w.points, s, d, d + Day)
  {
    var c :| c in w.tables.hour && d <= c.period < d + Day && Cell(d, c.series) == Cell(d, s);
    DaySpan();
    assert IsStart(c.period, d, Hour, 24);
    var k: nat :| k < 24 && c.period == d + Span(Hour, k);
    SpanGrows(Hour, k, 24);
    PointWithin(w.points, s, c.period, c.period + Hour, d, d + Day);
  }

  lemma RolledDayGrounded<S(!new)>(w: World<S>, start: int, d: int)
    requires Inv(w) && DayReady(w, d)
    ensures GroundedUpTo(RolledDay(w.tables, start), w.points, d, d + Day)
  {
    forall s: S | Cell(d, s) in RolledDay(w.tables, start) ensures AnyPoint(w.points, s, d, d + Day) {
      if Cell(d, s) !in w.tables.day {
        DayRollGrounded(w, d, s);
      }
    }
  }

  lemma RolledHourAligned<S>(w: World<S>, start: int, d: int)
    requires AlignedRows(w.tables.hour, d, Hour, 24) && Aligned<S>(HourRolled(start), d)
    ensures AlignedRows(RolledHour(w.tables, start), d, Hour, 24)
  {
    DaySpan();
    var after := RolledHour(w.tables, start);
    forall c | c in after && d <= c.period < d + Span(Hour, 24) ensures IsStart(c.period, d, Hour, 24) {
      if c !in w.tables.hour {
        assert c.period == start;
      }
    }
  }

  lemma StepKeepsReady<S(!new)>(w: World<S>, e: Event<S>, d: int)
    requires Inv(w) && DayReady(w, d) && Aligned(e, d)
    ensures DayReady(Step(w, e), d)
  {
    match e
    case Upserted(batch) => GroundedUpToAfterUpsert(w.tables.day, w.points, batch, d, d + Day);
    case HourRolled(start) => RolledHourAligned(w, start, d);
    case DayRolled(start) => RolledDayGrounded(w, start, d);
    case Cleaned(_, _, _, _) =>
  }

  // ---------- Exact seconds

  lemma SettledKept<S(!new)>(table: Table<S>, points: seq<Point<S>>, now: int, keep: int, start: int, length: nat)
    requires Settled(table, points, start, length) && !Reaches(now, keep, start)
    ensures Settled(Kept(table, now, keep), points, start, length)
  {
    forall s: S ensures SettledFor(Kept(table, now, keep), points, start, length, s) {
      assert SettledFor(table, points, start, length, s);
    }
  }

  /** The seconds of an hour stay exact until a cleanup reaches them. */
  lemma SecondsStayExact<S(!new)>(w: World<S>, e: Event<S>, h: int)
    requires SecondsExact(w, h) && !CleansMinutes(e, h)
    ensures SecondsExact(Step(w, e), h)
  {
    var after := Step(w, e);
    forall t | h <= t < h + Hour ensures Settled(after.tables.minute, after.points, t, 1) {
      assert Settled(w.tables.minute, w.points, t, 1);
      match e
      case Upserted(batch) => SecondAfterUpsert(w.tables.minute, w.points, batch, t);
      case Cleaned(now, keepMinute, _, _) => SettledKept(w.tables.minute, w.points, now, keepMinute, t, 1);
      case HourRolled(_) =>
      case DayRolled(_) =>
    }
  }

  // ---------- Settled windows

  lemma SecondsSettled<S(!new)>(w: World<S>, h: int)
    requires SecondsExact(w, h)
    ensures Span(1, Hour) == Hour
    ensures UnitsSettled(w.tables.minute, w.points, h, 1, Hour)
    ensures AlignedRows(w.tables.minute, h, 1, Hour)
  {
    SpanIs(1, Hour);
    forall k | 0 <= k < Hour ensures Settled(w.tables.minute, w.points, h + Span(1, k), 1) {
      SpanIs(1, k);
      assert Settled(w.tables.minute, w.points, h + k, 1);
    }
    forall c | c in w.tables.minute && h <= c.period < h + Span(1, Hour) ensures IsStart(c.period, h, 1, Hour) {
      SpanIs(1, c.period - h);
    }
  }

  lemma RolledHourSettles<S(!new)>(w: World<S>, h: int)
    requires Inv(w) && SecondsExact(w, h)
    ensures SettledUpTo(RolledHour(w.tables, h), w.points, h, h + Hour)
  {
    SecondsSettled(w, h);
    RollupSettles(w.tables.minute, w.tables.hour, w.points, h, 1, Hour, h + Hour);
  }

  /** A rollup of an hour whose seconds are exact settles it. */
  lemma HourRollSettles<S(!new)>(w: World<S>, h: int)
    requires Inv(w) && SecondsExact(w, h)
    ensures HourSettled(Step(w, HourRolled(h)), h)
  {
    RolledHourSettles(w, h);
  }

  lemma HourUnitsSettled<S(!new)>(w: World<S>, d: int)
    requires HoursSettled(w, d)
    ensures UnitsSettled(w.tables.hour, w.points, d, Hour, 24)
  {
    forall k | 0 <= k < 24 ensures Settled(w.tables.hour, w.points, d + Span(Hour, k), Hour) {
      assert HourSettled(w, HourStart(d, k));
    }
  }

  lemma RolledDaySettles<S(!new)>(w: World<S>, d: int)
    requires DayReady(w, d) && HoursSettled(w, d)
    ensures SettledUpTo(RolledDay(w.tables, d), w.points, d, d + Day)
  {
    DaySpan();
    HourUnitsSettled(w, d);
    RollupSettles(w.tables.hour, w.tables.day, w.points, d, Hour, 24, d + Day);
  }

  /** When its hours are settled, a rollup of the day settles it. */
  lemma DayRollSettles<S(!new)>(w: World<S>, d: int)
    requires DayReady(w, d) && HoursSettled(w, d)
    ensures Settled(Step(w, DayRolled(d)).tables.day, w.points, d, Day)
  {
    RolledDaySettles(w, d);
  }

  lemma RolledElsewhere<S(!new)>(source: Table<S>, target: Table<S>, points: seq<Point<S>>, start: int, end: int, at: int, length: nat)
    requires Settled(target, points, at, length) && at != start
    ensures Settled(RolledUp(source, target, start, end), points, at, length)
  {
    var after := RolledUp(source, target, start, end);
    forall s: S ensures SettledFor(after, points, at, length, s) {
      assert SettledFor(target, points, at, length, s);
    }
  }

  lemma HourElsewhere<S(!new)>(w: World<S>, start: int, h: int)
    requires HourSettled(w, h) && start != h
    ensures Settled(RolledHour(w.tables, start), w.points, h, Hour)
  {
    RolledElsewhere(w.tables.minute, w.tables.hour, w.points, start, start + Hour, h, Hour);
  }

  lemma DayElsewhere<S(!new)>(w: World<S>, start: int, d: int)
    requires Settled(w.tables.day, w.points, d, Day) && start != d
    ensures Settled(RolledDay(w.tables, start), w.points, d, Day)
  {
    RolledElsewhere(w.tables.hour, w.tables.day, w.points, start, start + Day, d, Day);
  }

  /** A settled hour stays settled until something is added to it, it is rolled up again or its row deleted. */
  lemma HourStaysSettled<S(!new)>(w: World<S>, e: Event<S>, h: int)
    requires HourSettled(w, h) && Quiet(e, h, h + Hour) && e != HourRolled(h) && !CleansHours(e, h)
    ensures HourSettled(Step(w, e), h)
  {
    match e
    case Upserted(batch) => SettledAfterUpsert(w.tables.hour, w.points, batch, h, Hour);
    case HourRolled(start) => HourElsewhere(w, start, h);
    case Cleaned(now, _, keepHour, _) => SettledKept(w.tables.hour, w.points, now, keepHour, h, Hour);
    case DayRolled(_) =>
  }

  /** So does a settled day. */
  lemma DayStaysSettled<S(!new)>(w: World<S>, e: Event<S>, d: int)
    requires Settled(w.tables.day, w.points, d, Day)
    requires Quiet(e, d, d + Day) && e != DayRolled(d) && !CleansDays(e, d)
    ensures Settled(Step(w, e).tables.day, Step(w, e).points, d, Day)
  {
    match e
    case Upserted(batch) => SettledAfterUpsert(w.tables.day, w.points, batch, d, Day);
    case DayRolled(start) => DayElsewhere(w, start, d);
    case Cleaned(now, _, _, keepDay) => SettledKept(w.tables.day, w.points, now, keepDay, d, Day);
    case HourRolled(_) =>
  }

  // ---------- Runs

  ghost predicate StepAt<S>(states: seq<World<S>>, events: seq<Event<S>>, k: nat)
    requires k < |events| < |states|
  {
    states[k + 1] == Step(states[k], events[k])
  }

  /** A run from empty tables. */
  ghost predicate IsRun<S>(states: seq<World<S>>, events: seq<Event<S>>) {
    && |states| == |events| + 1
    && states[0] == World(Tables(map[], map[], map[]), [])
    && forall k :: 0 <= k < |events| ==> StepAt(states, events, k)
  }

  lemma {:induction false} RunKeepsInv<S(!new)>(states: seq<World<S>>, events: seq<Event<S>>, k: nat)
    requires IsRun(states, events) && k < |states|
    ensures Inv(states[k])
  {
    if k > 0 {
      RunKeepsInv(states, events, k - 1);
      assert StepAt(states, events, k - 1);
      StepKeepsInv(states[k - 1], events[k - 1]);
    }
  }

  /** Event i rolls up the hour at h while its minutes are all there; until event n nothing is added to the
      hour, it is not rolled up again, and its row is not deleted. */
  ghost predicate LastHourRoll<S>(events: seq<Event<S>>, h: int, i: nat, n: nat) {
    && i < n <= |events| && events[i] == HourRolled(h)
    && (forall k :: 0 <= k < i ==> !CleansMinutes(events[k], h))
    && (forall k :: i < k < n ==> LeavesHour(events[k], h))
  }

  ghost predicate LeavesHour<S>(e: Event<S>, h: int) {
    Quiet(e, h, h + Hour) && e != HourRolled(h) && !CleansHours(e, h)
  }

  lemma {:induction false} SecondsWereExact<S(!new)>(states: seq<World<S>>, events: seq<Event<S>>, h: int, i: nat)
    requires IsRun(states, events) && i <= |events| && forall k :: 0 <= k < i ==> !CleansMinutes(events[k], h)
    ensures SecondsExact(states[i], h)
  {
    if i == 0 {
      var w := states[0];
      forall t | h <= t < h + Hour ensures Settled(w.tables.minute, w.points, t, 1) {
        forall s: S ensures SettledFor(w.tables.minute, w.points, t, 1, s) {}
      }
    } else {
      SecondsWereExact(states, events, h, i - 1);
      assert StepAt(states, events, i - 1);
      SecondsStayExact(states[i - 1], events[i - 1], h);
    }
  }

  /** Once an hour was rolled up after its last point and before its minutes were deleted, its row of every
      series is the sum of its points until it is rolled up again or deleted. */
  lemma {:induction false} HourIsTheSum<S(!new)>(states: seq<World<S>>, events: seq<Event<S>>, h: int, i: nat, n: nat)
    requires IsRun(states, events) && LastHourRoll(events, h, i, n)
    ensures HourSettled(states[n], h)
    decreases n
  {
    assert StepAt(states, events, n - 1);
    if n == i + 1 {
      RunKeepsInv(states, events, i);
      SecondsWereExact(states, events, h, i);
      HourRollSettles(states[i], h);
    } else {
      HourIsTheSum(states, events, h, i, n - 1);
      HourStaysSettled(states[n - 1], events[n - 1], h);
    }
  }

  lemma {:induction false} RunKeepsReady<S(!new)>(states: seq<World<S>>, events: seq<Event<S>>, d: int, k: nat)
    requires IsRun(states, events) && k <= |events| && forall i :: 0 <= i < k ==> Aligned(events[i], d)
    ensures DayReady(states[k], d)
  {
    if k > 0 {
      RunKeepsReady(states, events, d, k - 1);
      RunKeepsInv(states, events, k - 1);
      assert StepAt(states, events, k - 1);
      StepKeepsReady(states[k - 1], events[k - 1], d);
    }
  }

  /** Event j rolls up the day at d, each hour having had its last rollup before; until event n nothing is added
      to the day, it is not rolled up again, and its row is not deleted. Cleanups are free otherwise. */
  ghost predicate LastDayRoll<S>(events: seq<Event<S>>, d: int, rolls: seq<nat>, j: nat, n: nat) {
    && j < n <= |events| && events[j] == DayRolled(d)
    && |rolls| == 24
    && (forall k :: 0 <= k < 24 ==> LastHourRoll(events, HourStart(d, k), rolls[k], j))
    && (forall i :: 0 <= i < j ==> Aligned(events[i], d))
    && (forall i :: j < i < n ==> LeavesDay(events[i], d))
  }

  ghost predicate LeavesDay<S>(e: Event<S>, d: int) {
    Quiet(e, d, d + Day) && e != DayRolled(d) && !CleansDays(e, d)
  }

  /** Traffic is conserved: once every hour of the day was rolled up after its last point and before its minutes
      were deleted, and then the day before its hours were, the day's row of every series is the sum of all its
      points, whatever their order and batches and however often hours and day were rolled up before, until the
      row is deleted. */
  lemma {:induction false} DayIsTheSum<S(!new)>(states: seq<World<S>>, events: seq<Event<S>>, d: int, rolls: seq<nat>, j: nat, n: nat)
    requires IsRun(states, events) && LastDayRoll(events, d, rolls, j, n)
    ensures Settled(states[n].tables.day, states[n].points, d, Day)
    decreases n
  {
    assert StepAt(states, events, n - 1);
    if n == j + 1 {
      forall k | 0 <= k < 24 ensures HourSettled(states[j], HourStart(d, k)) {
        HourIsTheSum(states, events, HourStart(d, k), rolls[k], j);
      }
      RunKeepsReady(states, events, d, j);
      DayRollSettles(states[j], d);
    } else {
      assert LastDayRoll(events, d, rolls, j, n - 1);
      DayIsTheSum(states, events, d, rolls, j, n - 1);
      DayStaysSettled(states[n - 1], events[n - 1], d);
    }
  }

  // ---------- Weeks and months

  /** The days from start on are settled, and no other day rows lie between them. */
  ghost predicate DaysSettled<S(!new)>(day: Table<S>, points: seq<Point<S>>, start: int, n: nat) {
    UnitsSettled(day, points, start, Day, n) && AlignedRows(day, start, Day, n)
  }

  /** The days from start to end are settled, and the target has no unmeasured row there. */
  ghost predicate ReadyUpTo<S(!new)>(day: Table<S>, target: Table<S>, points: seq<Point<S>>, start: int, end: int) {
    && start <= end && (end - start) % Day == 0
    && DaysSettled(day, points, start, (end - start) / Day)
    && GroundedUpTo(target, points, start, end)
  }

  /** Then a rollup gives one row for every series measured in them, the sum of its points, and none for the
      others. */
  lemma DaysRollUp<S(!new)>(day: Table<S>, target: Table<S>, points: seq<Point<S>>, start: int, end: int)
    requires ReadyUpTo(day, target, points, start, end)
    ensures SettledUpTo(RolledUp(day, target, start, end), points, start, end)
  {
    SpanIs(Day, (end - start) / Day);
    RollupSettles(day, target, points, start, Day, (end - start) / Day, end);
  }

  // ---------- The program's schedule

  /** Events happen in the order of their times, and cleanups keep a day of minutes, a week of hours and 31 days
      of days, as the sampler asks. */
  ghost predicate OnSchedule<S>(events: seq<Event<S>>, times: seq<int>) {
    && |times| == |events|
    && (forall i, k :: 0 <= i <= k < |times| ==> times[i] <= times[k])
    && (forall k :: 0 <= k < |events| && events[k].Cleaned? ==>
          events[k] == Cleaned(events[k].now, Day, 7 * Day, 31 * Day) && events[k].now <= times[k])
  }

  /** On that schedule an hour may be rolled up for a day after its start, the day for a week, and the day's row
      stays the sum of the day's points for 31 days, although minutes and hours are deleted meanwhile. */
  lemma ScheduledDayIsTheSum<S(!new)>(states: seq<World<S>>, events: seq<Event<S>>, times: seq<int>, d: int, rolls: seq<nat>, j: nat, n: nat)
    requires IsRun(states, events) && OnSchedule(events, times)
    requires j < n <= |events| && events[j] == DayRolled(d) && times[j] <= d + 7 * Day && times[n - 1] <= d + 31 * Day
    requires |rolls| == 24
    requires forall k :: 0 <= k < 24 ==> RolledInTime(events, times, HourStart(d, k), rolls[k], j)
    requires forall i :: 0 <= i < j ==> Aligned(events[i], d)
    requires forall i :: j < i < n ==> Quiet(events[i], d, d + Day) && events[i] != DayRolled(d)
    ensures Settled(states[n].tables.day, states[n].points, d, Day)
  {
    forall k | 0 <= k < 24 ensures LastHourRoll(events, HourStart(d, k), rolls[k], j) {
      assert RolledInTime(events, times, HourStart(d, k), rolls[k], j);
    }
    DayIsTheSum(states, events, d, rolls, j, n);
  }

  ghost predicate RolledInTime<S>(events: seq<Event<S>>, times: seq<int>, h: int, i: nat, j: nat)
    requires |times| == |events|
  {
    && i < j <= |events| && events[i] == HourRolled(h) && times[i] <= h + Day
    && (forall k :: i < k < j ==> Quiet(events[k], h, h + Hour) && events[k] != HourRolled(h))
  }
}
