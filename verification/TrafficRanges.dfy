/** Which rows the analysis shows, once, twice or not at all: the steps of a range have 24 hours, its days need not
    (internal/db/traffic.go). */
module TrafficRanges {

  import opened Wrappers
  import opened TrafficChart

  // ---------- Which times have a bucket

  /** The last moment the steps reach. */
  function LastCursor<G, D(==)>(spec: Spec<G, D>, cursor: int, now: int): (last: int)
    requires spec.step > 0 && cursor <= now
    ensures cursor <= last <= now < last + spec.step
    decreases now - cursor
  {
    if cursor + spec.step <= now then LastCursor(spec, cursor + spec.step, now) else cursor
  }

  /** No step leads over a whole period, and the last one ends in the period of now. */
  ghost predicate NoneSkipped<G, D>(spec: Spec<G, D>, cursor: int, now: int)
    requires spec.step > 0
    decreases now - cursor
  {
    if cursor + spec.step <= now then StepSkipsNone(spec, cursor) && NoneSkipped(spec, cursor + spec.step, now)
    else PeriodOf(spec, cursor) == PeriodOf(spec, now)
  }

  ghost predicate StepSkipsNone<G, D>(spec: Spec<G, D>, cursor: int) {
    forall t :: cursor <= t <= cursor + spec.step ==>
      PeriodOf(spec, t) == PeriodOf(spec, cursor) || PeriodOf(spec, t) == PeriodOf(spec, cursor + spec.step)
  }

  ghost predicate AllShown<G, D>(spec: Spec<G, D>, cursor: int, now: int)
    requires spec.step > 0
  {
    forall t :: cursor <= t <= now ==> PeriodOf(spec, t) in Keys(spec, cursor, now)
  }

  lemma FirstKey<G, D>(spec: Spec<G, D>, cursor: int, now: int)
    requires spec.step > 0 && cursor <= now
    ensures Keys(spec, cursor, now) == [PeriodOf(spec, cursor)] + Keys(spec, cursor + spec.step, now)
    ensures cursor + spec.step <= now ==> PeriodOf(spec, cursor + spec.step) in Keys(spec, cursor + spec.step, now)
    ensures cursor + spec.step > now ==> Keys(spec, cursor, now) == [PeriodOf(spec, cursor)]
  {
    if cursor + spec.step <= now {
      assert Keys(spec, cursor + spec.step, now)[0] == PeriodOf(spec, cursor + spec.step);
    }
  }

  /** A time behind the next step is shown if and only if a later step shows it. */
  lemma LaterTime<G, D>(spec: Spec<G, D>, cursor: int, now: int, t: int)
    requires spec.step > 0 && Monotone(spec) && cursor + spec.step <= t <= now
    ensures PeriodOf(spec, t) in Keys(spec, cursor, now) <==> PeriodOf(spec, t) in Keys(spec, cursor + spec.step, now)
  {
    FirstKey(spec, cursor, now);
    assert PeriodOf(spec, cursor) <= PeriodOf(spec, cursor + spec.step) <= PeriodOf(spec, t);
  }

  /** A time up to the next step is shown if and only if one of its two ends has its period. */
  lemma EarlyTime<G, D>(spec: Spec<G, D>, cursor: int, now: int, t: int)
    requires spec.step > 0 && Monotone(spec) && cursor <= t <= cursor + spec.step <= now
    ensures PeriodOf(spec, t) in Keys(spec, cursor, now) <==>
            PeriodOf(spec, t) == PeriodOf(spec, cursor) || PeriodOf(spec, t) == PeriodOf(spec, cursor + spec.step)
  {
    FirstKey(spec, cursor, now);
    if PeriodOf(spec, t) in Keys(spec, cursor + spec.step, now) {
      KeysFrom(spec, cursor + spec.step, now, PeriodOf(spec, t));
    }
  }

  lemma ShownFromNext<G, D>(spec: Spec<G, D>, cursor: int, now: int)
    requires spec.step > 0 && Monotone(spec) && cursor + spec.step <= now && AllShown(spec, cursor, now)
    ensures StepSkipsNone(spec, cursor) && AllShown(spec, cursor + spec.step, now)
  {
    forall t | cursor <= t <= cursor + spec.step
      ensures PeriodOf(spec, t) == PeriodOf(spec, cursor) || PeriodOf(spec, t) == PeriodOf(spec, cursor + spec.step)
    {
      EarlyTime(spec, cursor, now, t);
    }
    forall t | cursor + spec.step <= t <= now ensures PeriodOf(spec, t) in Keys(spec, cursor + spec.step, now) {
      LaterTime(spec, cursor, now, t);
    }
  }

  lemma ShownWithNext<G, D>(spec: Spec<G, D>, cursor: int, now: int)
    requires spec.step > 0 && Monotone(spec) && cursor + spec.step <= now
    requires StepSkipsNone(spec, cursor) && AllShown(spec, cursor + spec.step, now)
    ensures AllShown(spec, cursor, now)
  {
    forall t | cursor <= t <= now ensures PeriodOf(spec, t) in Keys(spec, cursor, now) {
      if t <= cursor + spec.step {
        EarlyTime(spec, cursor, now, t);
      } else {
        LaterTime(spec, cursor, now, t);
      }
    }
  }

  lemma ShownAtEnd<G, D>(spec: Spec<G, D>, cursor: int, now: int)
    requires spec.step > 0 && Monotone(spec) && cursor <= now < cursor + spec.step
    ensures AllShown(spec, cursor, now) <==> PeriodOf(spec, cursor) == PeriodOf(spec, now)
  {
    FirstKey(spec, cursor, now);
    assert forall t :: cursor <= t <= now ==> PeriodOf(spec, cursor) <= PeriodOf(spec, t) <= PeriodOf(spec, now);
  }

  /** Every time up to now has a bucket if and only if no period is skipped. */
  lemma {:induction false} ShownUnlessSkipped<G, D>(spec: Spec<G, D>, cursor: int, now: int)
    requires spec.step > 0 && Monotone(spec) && cursor <= now
    ensures AllShown(spec, cursor, now) <==> NoneSkipped(spec, cursor, now)
    decreases now - cursor
  {
    if now < cursor + spec.step {
      ShownAtEnd(spec, cursor, now);
    } else {
      ShownUnlessSkipped(spec, cursor + spec.step, now);
      if AllShown(spec, cursor, now) {
        ShownFromNext(spec, cursor, now);
      }
      if NoneSkipped(spec, cursor, now) {
        ShownWithNext(spec, cursor, now);
      }
    }
  }

  /** The current period has a bucket if and only if the last step lies in it. */
  lemma {:induction false} CurrentIsShown<G, D>(spec: Spec<G, D>, cursor: int, now: int)
    requires spec.step > 0 && Monotone(spec) && cursor <= now
    ensures PeriodOf(spec, now) in Keys(spec, cursor, now) <==>
            PeriodOf(spec, LastCursor(spec, cursor, now)) == PeriodOf(spec, now)
    decreases now - cursor
  {
    FirstKey(spec, cursor, now);
    if cursor + spec.step <= now {
      CurrentIsShown(spec, cursor + spec.step, now);
      LaterTime(spec, cursor, now, now);
    }
  }

  // ---------- Conservation of all that is read

  /** Every step leads into the very next period, and the last one into that of now. */
  ghost predicate StepsFollowPeriods<G, D>(spec: Spec<G, D>, now: int)
    requires spec.step > 0
  {
    EveryStepMoves(spec, spec.since, now) && NoneSkipped(spec, spec.since, now)
  }

  /** What the two queries return: rows from the start of the range up to now. */
  ghost predicate InRange<G, D>(spec: Spec<G, D>, rows: seq<RollupRow<G>>, now: int) {
    forall r :: r in rows ==> spec.since <= r.period <= now
  }

  ghost predicate Conserves<G, D>(spec: Spec<G, D>, now: int, rows: seq<RollupRow<G>>, buckets: seq<Bucket>)
    requires spec.step > 0
  {
    InRange(spec, rows, now) && AreBuckets(spec, Keys(spec, spec.since, now), rows, buckets) ==>
      BucketTotals(buckets) == RowBytes(rows)
  }

  lemma {:induction false} NoneDropped<G, D>(spec: Spec<G, D>, rows: seq<RollupRow<G>>, keys: seq<int>)
    requires forall r :: r in rows ==> PeriodOf(spec, r.period) in keys
    ensures DroppedBytes(spec, rows, keys) == 0
  {
    if rows != [] {
      NoneDropped(spec, rows[..|rows| - 1], keys);
    }
  }

  lemma {:induction false} DistinctIsUnrepeated(keys: seq<int>, buckets: seq<Bucket>)
    requires |buckets| == |keys| && Distinct(keys)
    ensures RepeatedBytes(keys, buckets) == 0
  {
    if keys != [] {
      assert keys == [keys[0]] + keys[1..];
      DistinctTail(keys[0], keys[1..]);
      DistinctIsUnrepeated(keys[1..], buckets[1..]);
    }
  }

  lemma FollowingConserves<G, D>(spec: Spec<G, D>, now: int, rows: seq<RollupRow<G>>, buckets: seq<Bucket>)
    requires spec.step > 0 && Monotone(spec) && spec.since <= now && StepsFollowPeriods(spec, now)
    requires InRange(spec, rows, now) && AreBuckets(spec, Keys(spec, spec.since, now), rows, buckets)
    ensures BucketTotals(buckets) == RowBytes(rows)
  {
    var keys := Keys(spec, spec.since, now);
    DistinctWhenMoving(spec, spec.since, now);
    ShownUnlessSkipped(spec, spec.since, now);
    BucketsAccount(spec, keys, rows, buckets);
    NoneDropped(spec, rows, keys);
    DistinctIsUnrepeated(keys, buckets);
  }

  /** The buckets of any rows. */
  lemma BucketsOf<G, D>(spec: Spec<G, D>, keys: seq<int>, rows: seq<RollupRow<G>>) returns (buckets: seq<Bucket>)
    ensures AreBuckets(spec, keys, rows, buckets)
  {
    buckets := seq(|keys|, i requires 0 <= i < |keys| =>
      var rx, tx := Bytes(spec, rows, keys[i], false), Bytes(spec, rows, keys[i], true);
      Bucket(keys[i], rx, tx, rx + tx));
  }

  lemma OneRow<G, D>(spec: Spec<G, D>, keys: seq<int>, r: RollupRow<G>, buckets: seq<Bucket>)
    requires AreBuckets(spec, keys, [r], buckets) && r.bytes == 1
    ensures forall i :: 0 <= i < |keys| ==> buckets[i].total == if PeriodOf(spec, r.period) == keys[i] then 1 else 0
    ensures RowBytes([r]) == 1
    ensures DroppedBytes(spec, [r], keys) == if PeriodOf(spec, r.period) in keys then 0 else 1
  {
    assert [r][..0] == [];
    forall i | 0 <= i < |keys| ensures buckets[i].total == if PeriodOf(spec, r.period) == keys[i] then 1 else 0 {
      assert IsBucket(spec, [r], keys[i], buckets[i]);
      assert forall direction :: Bytes(spec, [r], keys[i], direction)
                == if PeriodOf(spec, r.period) == keys[i] && r.direction == direction then 1 else 0;
    }
  }

  /** A row in a skipped period is read, and shown nowhere. */
  lemma SkippedIsLost<G, D>(spec: Spec<G, D>, now: int, t: int, tag: G) returns (rows: seq<RollupRow<G>>, buckets: seq<Bucket>)
    requires spec.step > 0 && spec.since <= t <= now && PeriodOf(spec, t) !in Keys(spec, spec.since, now)
    ensures !Conserves(spec, now, rows, buckets)
  {
    var keys, r := Keys(spec, spec.since, now), RollupRow(t, tag, false, 1);
    rows := [r];
    buckets := BucketsOf(spec, keys, rows);
    OneRow(spec, keys, r, buckets);
    BucketsAccount(spec, keys, rows, buckets);
    RepeatedIsNone(keys, buckets);
  }

  lemma {:induction false} TimeOfKey<G, D>(spec: Spec<G, D>, cursor: int, now: int, k: int) returns (t: int)
    requires spec.step > 0 && k in Keys(spec, cursor, now)
    ensures cursor <= t <= now && PeriodOf(spec, t) == k
    decreases now - cursor
  {
    FirstKey(spec, cursor, now);
    if k == PeriodOf(spec, cursor) {
      t := cursor;
    } else {
      t := TimeOfKey(spec, cursor + spec.step, now, k);
    }
  }

  /** A row in a repeated period is shown more than once. */
  lemma RepeatedRow<G, D>(spec: Spec<G, D>, keys: seq<int>, i: nat, j: nat, r: RollupRow<G>) returns (buckets: seq<Bucket>)
    requires i < j < |keys| && keys[i] == keys[j] == PeriodOf(spec, r.period) && r.bytes == 1
    ensures AreBuckets(spec, keys, [r], buckets) && BucketTotals(buckets) > RowBytes([r])
  {
    buckets := BucketsOf(spec, keys, [r]);
    OneRow(spec, keys, r, buckets);
    BucketsAccount(spec, keys, [r], buckets);
    RepeatedIsNone(keys, buckets);
    LaterPlace(keys, i, j);
    assert !IsLast(keys, i) && buckets[i].total == 1;
  }

  lemma RepeatedIsShownAgain<G, D>(spec: Spec<G, D>, now: int, tag: G) returns (rows: seq<RollupRow<G>>, buckets: seq<Bucket>)
    requires spec.step > 0 && spec.since <= now && !Distinct(Keys(spec, spec.since, now))
    ensures !Conserves(spec, now, rows, buckets)
  {
    var keys := Keys(spec, spec.since, now);
    var i, j :| 0 <= i < j < |keys| && keys[i] == keys[j];
    var t := TimeOfKey(spec, spec.since, now, keys[i]);
    rows := [RollupRow(t, tag, false, 1)];
    buckets := RepeatedRow(spec, keys, i, j, rows[0]);
  }

  /** Whatever rows are read from the range, the buckets hold together exactly their bytes, if and only if every
      step leads into the very next period and the last one into that of now. */
  lemma AnalysisConserves<G(!new), D>(spec: Spec<G, D>, now: int, tag: G)
    requires spec.step > 0 && Monotone(spec) && spec.since <= now
    ensures StepsFollowPeriods(spec, now) <==>
            forall rows: seq<RollupRow<G>>, buckets: seq<Bucket> :: Conserves(spec, now, rows, buckets)
  {
    if StepsFollowPeriods(spec, now) {
      forall rows: seq<RollupRow<G>>, buckets: seq<Bucket> ensures Conserves(spec, now, rows, buckets) {
        if InRange(spec, rows, now) && AreBuckets(spec, Keys(spec, spec.since, now), rows, buckets) {
          FollowingConserves(spec, now, rows, buckets);
        }
      }
    } else if !EveryStepMoves(spec, spec.since, now) {
      DistinctWhenMoving(spec, spec.since, now);
      var rows, buckets := RepeatedIsShownAgain(spec, now, tag);
    } else {
      ShownUnlessSkipped(spec, spec.since, now);
      var t :| spec.since <= t <= now && PeriodOf(spec, t) !in Keys(spec, spec.since, now);
      var rows, buckets := SkippedIsLost(spec, now, t, tag);
    }
  }

  // ---------- The program's ranges

  ghost predicate AreDayStarts(startOfDay: int -> int) {
    && (forall t, u :: t <= u ==> startOfDay(t) <= startOfDay(u))
    && (forall t :: startOfDay(t) <= t && startOfDay(startOfDay(t)) == startOfDay(t))
  }

  /** In every range, wherever days start and however long they are: the current rows lie between its start and
      now, and they have a bucket if and only if the last step lies in the current period. */
  lemma CurrentRowsAreShown<G, D>(name: string, now: int, startOfDay: int -> int, deviceOf: G -> D)
    requires name in {"day", "week", "month"} && AreDayStarts(startOfDay)
    ensures var range := NewTrafficRange(name, now, startOfDay, deviceOf);
            && Monotone(range.spec) && range.spec.since <= range.currentStart <= now
            && PeriodOf(range.spec, range.currentStart) == range.currentStart == PeriodOf(range.spec, now)
            && (range.currentStart in Keys(range.spec, range.spec.since, now) <==>
                PeriodOf(range.spec, LastCursor(range.spec, range.spec.since, now)) == range.currentStart)
            && (name == "day" ==> range.currentStart in Keys(range.spec, range.spec.since, now))
  {
    var range := NewTrafficRange(name, now, startOfDay, deviceOf);
    PeriodsFollow(range.spec, startOfDay);
    HoursFollow(now, now);
    CurrentIsShown(range.spec, range.spec.since, now);
    if name == "day" {
      HoursStayWhole(range.spec, range.spec.since, now);
    }
  }

  lemma PeriodsFollow<G, D>(spec: Spec<G, D>, startOfDay: int -> int)
    requires AreDayStarts(startOfDay)
    requires (forall t :: PeriodOf(spec, t) == Truncate(t, Hour)) || (forall t :: PeriodOf(spec, t) == startOfDay(t))
    ensures Monotone(spec)
  {
    forall t, u | t <= u ensures PeriodOf(spec, t) <= PeriodOf(spec, u) {
      HoursFollow(t, u);
    }
  }

  lemma HoursFollow(t: int, u: int)
    requires t <= u
    ensures Truncate(t, Hour) <= Truncate(u, Hour) && Truncate(Truncate(t, Hour), Hour) == Truncate(t, Hour)
  {}

  lemma {:induction false} HoursStayWhole<G, D>(spec: Spec<G, D>, cursor: int, now: int)
    requires spec.step == Hour && cursor <= now && Truncate(cursor, Hour) == cursor
    ensures LastCursor(spec, cursor, now) == Truncate(now, Hour)
    decreases now - cursor
  {
    if cursor + Hour <= now {
      HoursStayWhole(spec, cursor + Hour, now);
    }
  }

  /** How many steps lead from a cursor up to now. */
  lemma {:induction false} KeysReachNow<G, D>(spec: Spec<G, D>, cursor: int, now: int, n: nat)
    requires spec.step > 0 && cursor + Steps(spec.step, n) <= now < cursor + Steps(spec.step, n) + spec.step
    ensures |Keys(spec, cursor, now)| == n + 1
    ensures Keys(spec, cursor, now)[n] == PeriodOf(spec, cursor + Steps(spec.step, n))
    decreases n
  {
    if n > 0 {
      KeysReachNow(spec, cursor + spec.step, now, n - 1);
    } else {
      assert Keys(spec, cursor + spec.step, now) == [];
    }
  }

  function Steps(step: nat, n: nat): nat {
    if n == 0 then 0 else Steps(step, n - 1) + step
  }

  lemma {:induction false} StepsAre(step: nat, n: nat)
    ensures Steps(step, n) == step * n
  {
    if n > 0 {
      StepsAre(step, n - 1);
    }
  }

  /** Where all days have 24 hours, the ranges have 25 hours, 8 days and 31 days, and end in the current period. */
  lemma PlainRangesEndNow<G, D>(name: string, n: nat, now: int, deviceOf: G -> D)
    requires (name == "day" && n == 24) || (name == "week" && n == 7) || (name == "month" && n == 30)
    ensures var range := NewTrafficRange(name, now, t => Truncate(t, Day), deviceOf);
            && |Keys(range.spec, range.spec.since, now)| == n + 1
            && Keys(range.spec, range.spec.since, now)[n] == range.currentStart
  {
    var range := NewTrafficRange(name, now, t => Truncate(t, Day), deviceOf);
    StepsAre(range.spec.step, n);
    if name == "day" {
      TruncateBack(now, Hour, n);
    } else {
      TruncateBack(now, Day, n);
    }
    KeysReachNow(range.spec, range.spec.since, now, n);
  }

  lemma TruncateBack(now: int, unit: nat, n: nat)
    requires unit in {Hour, Day} && n in {7, 24, 30}
    ensures Truncate(now - n * unit, unit) == Truncate(now, unit) - n * unit
    ensures Truncate(Truncate(now, unit), unit) == Truncate(now, unit)
  {}

  /** Days of 24 hours, but for the first of a week, which has 25. */
  function AfterLongDay(t: int): (start: int) {
    if t < 0 then Truncate(t, Day) else if t < 25 * Hour then 0 else 25 * Hour + Truncate(t - 25 * Hour, Day)
  }

  lemma AfterLongDayStarts()
    ensures AreDayStarts(AfterLongDay)
  {
    forall t, u | t <= u ensures AfterLongDay(t) <= AfterLongDay(u) {
      LongDayOrder(t, u);
    }
    forall t ensures AfterLongDay(t) <= t && AfterLongDay(AfterLongDay(t)) == AfterLongDay(t) {
      LongDayStart(t);
    }
  }

  lemma LongDayOrder(t: int, u: int)
    requires t <= u
    ensures AfterLongDay(t) <= AfterLongDay(u)
  {
    if u < 0 {
      DaysFollow(t, u);
    } else if t < 0 {
      DaysFollow(t, t);
    } else if t >= 25 * Hour {
      DaysFollow(t - 25 * Hour, u - 25 * Hour);
    }
  }

  lemma LongDayStart(t: int)
    ensures AfterLongDay(t) <= t && AfterLongDay(AfterLongDay(t)) == AfterLongDay(t)
  {
    if t < 0 {
      DaysFollow(t, t);
    } else if t >= 25 * Hour {
      var start := Truncate(t - 25 * Hour, Day);
      DaysFollow(t - 25 * Hour, t - 25 * Hour);
      assert 25 * Hour + start - 25 * Hour == start;
    }
  }

  lemma DaysFollow(t: int, u: int)
    requires t <= u
    ensures Truncate(t, Day) <= Truncate(u, Day) && Truncate(Truncate(t, Day), Day) == Truncate(t, Day)
    ensures t < 0 ==> Truncate(t, Day) < 0
    ensures t >= 0 ==> Truncate(t, Day) >= 0
  {}

  /** The steps from the long day on end an hour before midnight, so until then the eighth day has no bucket: what
      was measured in it is read and dropped. */
  lemma CurrentDayIsDropped(now: int, bytes: int, buckets: seq<Bucket>, devices: seq<int>, series: map<int, seq<int>>)
    requires 169 * Hour <= now < 192 * Hour
    requires var range := NewTrafficRange("week", now, AfterLongDay, (g: int) => g);
             IsAnalysis(range.spec, Keys(range.spec, range.spec.since, now), [RollupRow(range.currentStart, 1, true, bytes)],
                        buckets, devices, series)
    ensures AreDayStarts(AfterLongDay)
    ensures |buckets| == 8 && BucketTotals(buckets) == 0 && devices == []
  {
    AfterLongDayStarts();
    var range := NewTrafficRange("week", now, AfterLongDay, (g: int) => g);
    var spec, keys := range.spec, Keys(range.spec, range.spec.since, now);
    assert spec.since == 0 && range.currentStart == 169 * Hour;
    KeysReachNow(spec, 0, now, 7);
    LongWeekKeys(spec, now);
    var row := RollupRow(169 * Hour, 1, true, bytes);
    assert IsAnalysis(spec, keys, [row], buckets, devices, series);
    DroppedRow(spec, keys, row, buckets);
    forall device: int ensures device !in devices {
      assert !Appears(spec, keys, [row], device);
    }
    EmptyExactly(devices);
  }

  lemma LongWeekKeys<G, D>(spec: Spec<G, D>, now: int)
    requires spec.step == Day && 169 * Hour <= now < 192 * Hour && forall t :: PeriodOf(spec, t) == AfterLongDay(t)
    ensures |Keys(spec, 0, now)| == 8 && 169 * Hour !in Keys(spec, 0, now)
  {
    StepsAre(Day, 7);
    KeysReachNow(spec, 0, now, 7);
    forall k | k in Keys(spec, 0, now) ensures k < 169 * Hour {
      var t := TimeOfKeyStep(spec, 0, now, k);
    }
  }

  /** Every key is the period of a step, and those lie up to the last cursor. */
  lemma {:induction false} TimeOfKeyStep<G, D>(spec: Spec<G, D>, cursor: int, now: int, k: int) returns (t: int)
    requires spec.step == Day && cursor % Day == 0 && k in Keys(spec, cursor, now)
    ensures cursor <= t <= now && t % Day == 0 && PeriodOf(spec, t) == k
    decreases now - cursor
  {
    FirstKey(spec, cursor, now);
    if k == PeriodOf(spec, cursor) {
      t := cursor;
    } else {
      t := TimeOfKeyStep(spec, cursor + Day, now, k);
    }
  }

  lemma DroppedRow<G, D>(spec: Spec<G, D>, keys: seq<int>, r: RollupRow<G>, buckets: seq<Bucket>)
    requires AreBuckets(spec, keys, [r], buckets) && PeriodOf(spec, r.period) !in keys
    ensures BucketTotals(buckets) == 0
  {
    BucketsAddUp(spec, keys, [r], buckets);
    assert [r][..0] == [];
    forall i | 0 <= i < |keys| ensures buckets[i].total == 0 {
      assert IsBucket(spec, [r], keys[i], buckets[i]);
      assert forall direction :: Bytes(spec, [r], keys[i], direction) == 0;
    }
    RepeatedIsNone(keys, buckets);
  }

  /** A day of 25 hours is repeated, and its bytes show in two buckets. */
  lemma LongDayShowsTwice(bytes: int, buckets: seq<Bucket>, devices: seq<int>, series: map<int, seq<int>>)
    requires var spec := Spec(0, Day, t => if t < 25 * Hour then 0 else 25 * Hour, g => g);
             IsAnalysis(spec, Keys(spec, 0, Day), [RollupRow(0, 1, true, bytes)], buckets, devices, series)
    ensures |buckets| == 2 && buckets[0].total == buckets[1].total == bytes
    ensures BucketTotals(buckets) == 2 * bytes
  {
    var spec: Spec<int, int> := Spec(0, Day, t => if t < 25 * Hour then 0 else 25 * Hour, g => g);
    var rows := [RollupRow(0, 1, true, bytes)];
    assert Keys(spec, Day + Day, Day) == [];
    assert Keys(spec, Day, Day) == [0];
    assert Keys(spec, 0, Day) == [0] + Keys(spec, 0 + Day, Day);
    assert rows[..0] == [];
    assert Bytes(spec, rows, 0, true) == bytes && Bytes(spec, rows, 0, false) == 0;
    assert IsBucket(spec, rows, 0, buckets[0]) && IsBucket(spec, rows, 0, buckets[1]);
    assert buckets == [buckets[0], buckets[1]];
    assert BucketTotals(buckets[1..][1..]) == 0;
  }
}
