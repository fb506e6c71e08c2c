/** The traffic tables as the program changes them (internal/db/traffic_rollup.go). */
module TrafficStore {

  import opened TrafficRollup
  import opened TrafficRuns
  import opened TrafficWeeks

  class TrafficTables<!S(!new, ==)> {

    var minute: Table<S>
    var hour: Table<S>
    var day: Table<S>
    var week: Table<S>
    var month: Table<S>
    ghost var points: seq<Point<S>>

    ghost function View(): World<S>
      reads this
    {
      World(Tables(minute, hour, day), points)
    }

    constructor ()
      ensures View() == World(Tables(map[], map[], map[]), []) && week == map[] && month == map[]
    {
      minute, hour, day, week, month, points := map[], map[], map[], map[], map[], [];
    }

    /** Add every point to its minute's row. */
    method UpsertTrafficMinute(batch: seq<Point<S>>)
      modifies this`minute, this`points
      ensures View() == Step(old(View()), Upserted(batch))
    {
      for i := 0 to |batch|
        invariant points == old(points) && minute == AddPoints(old(minute), batch[..i])
      {
        var p := batch[i];
        var cell := Cell(p.period, p.series);
        minute := minute[cell := if cell in minute then minute[cell] + p.bytes else p.bytes];
        assert batch[..i + 1][..i] == batch[..i];
      }
      assert batch[..|batch|] == batch;
      points := points + batch;
    }

    method RollupToHour(hourStart: int)
      modifies this`hour
      ensures View() == Step(old(View()), HourRolled(hourStart))
    {
      hour := RolledUp(minute, hour, hourStart, hourStart + Hour);
    }

    method RollupToDay(dayStart: int)
      modifies this`day
      ensures View() == Step(old(View()), DayRolled(dayStart))
    {
      day := RolledUp(hour, day, dayStart, dayStart + Day);
    }

    /** When the seven days are settled, so is the week; a week that starts within a UTC day holds what was measured in
        its whole UTC days. */
    method RollupToWeek(weekStart: int)
      modifies this`week
      ensures week == RolledUp(day, old(week), weekStart, weekStart + 7 * Day)
      ensures old(ReadyUpTo(day, week, points, weekStart, weekStart + 7 * Day)) ==>
                SettledUpTo(week, points, weekStart, weekStart + 7 * Day)
      ensures old(MayRoll(day, week, points, weekStart, weekStart + 7 * Day)) ==>
                HoldsWholeDays(week, points, weekStart, weekStart + 7 * Day)
    {
      if MayRoll(day, week, points, weekStart, weekStart + 7 * Day) {
        RollupIsTheSum(day, week, points, weekStart, weekStart + 7 * Day);
      }
      if ReadyUpTo(day, week, points, weekStart, weekStart + 7 * Day) {
        DaysRollUp(day, week, points, weekStart, weekStart + 7 * Day);
      }
      week := RolledUp(day, week, weekStart, weekStart + 7 * Day);
    }

    /** The same for the days up to the next month. */
    method RollupToMonth(monthStart: int, next: int)
      modifies this`month
      ensures month == RolledUp(day, old(month), monthStart, next)
      ensures old(ReadyUpTo(day, month, points, monthStart, next)) ==> SettledUpTo(month, points, monthStart, next)
      ensures old(MayRoll(day, month, points, monthStart, next)) ==> HoldsWholeDays(month, points, monthStart, next)
    {
      if MayRoll(day, month, points, monthStart, next) {
        RollupIsTheSum(day, month, points, monthStart, next);
      }
      if ReadyUpTo(day, month, points, monthStart, next) {
        DaysRollUp(day, month, points, monthStart, next);
      }
      month := RolledUp(day, month, monthStart, next);
    }

    /** Delete what is older than each table keeps. */
    method CleanupBefore(now: int, keepMinute: int, keepHour: int, keepDay: int, keepWeek: int, keepMonth: int)
      modifies this`minute, this`hour, this`day, this`week, this`month
      ensures View() == Step(old(View()), Cleaned(now, keepMinute, keepHour, keepDay))
      ensures week == Kept(old(week), now, keepWeek) && month == Kept(old(month), now, keepMonth)
      ensures CutOff(old(minute), minute, now, keepMinute) && CutOff(old(hour), hour, now, keepHour)
      ensures CutOff(old(day), day, now, keepDay) && CutOff(old(week), week, now, keepWeek)
      ensures CutOff(old(month), month, now, keepMonth)
    {
      minute := Kept(minute, now, keepMinute);
      hour := Kept(hour, now, keepHour);
      day := Kept(day, now, keepDay);
      week := Kept(week, now, keepWeek);
      month := Kept(month, now, keepMonth);
    }
  }
}
