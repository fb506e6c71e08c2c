/** The traffic analysis: buckets in time, and one series for every device (internal/db/traffic.go). G is a
    row's tag, D the device it belongs to. */
module TrafficChart {

  datatype RollupRow<G> = RollupRow(period: int, tag: G, direction: bool, bytes: int)

  datatype Bucket = Bucket(periodStart: int, rx: int, tx: int, total: int)

  /** Where the buckets start, how a time is brought to the start of its period, and whose a tag is. */
  datatype Spec<!G, !D(==)> = Spec(since: int, step: nat, periodStart: int -> int, deviceOf: G -> D)

  type Series<!D(==)> = map<D, map<nat, int>>

  function PeriodOf<G, D(==)>(spec: Spec<G, D>, t: int): int {
    spec.periodStart(t)
  }

  function DeviceOf<G, D(==)>(spec: Spec<G, D>, tag: G): D {
    spec.deviceOf(tag)
  }

  /** The bucket keys: the periods of the steps up to now. */
  function Keys<G, D(==)>(spec: Spec<G, D>, cursor: int, now: int): (keys: seq<int>)
    requires spec.step > 0
    decreases now - cursor
  {
    if cursor > now then [] else [PeriodOf(spec, cursor)] + Keys(spec, cursor + spec.step, now)
  }

  // ---------- What a bucket and a series should hold

  function Bytes<G, D(==)>(spec: Spec<G, D>, rows: seq<RollupRow<G>>, key: int, direction: bool): (sum: int) {
    if rows == [] then 0
    else
      var r := rows[|rows| - 1];
      Bytes(spec, rows[..|rows| - 1], key, direction)
        + if PeriodOf(spec, r.period) == key && r.direction == direction then r.bytes else 0
  }

  function DeviceBytes<G, D(==)>(spec: Spec<G, D>, rows: seq<RollupRow<G>>, key: int, device: D): (sum: int) {
    if rows == [] then 0
    else
      var r := rows[|rows| - 1];
      DeviceBytes(spec, rows[..|rows| - 1], key, device)
        + if PeriodOf(spec, r.period) == key && DeviceOf(spec, r.tag) == device then r.bytes else 0
  }

  /** Some row of the device falls into a bucket. */
  ghost predicate Appears<G, D>(spec: Spec<G, D>, keys: seq<int>, rows: seq<RollupRow<G>>, device: D) {
    exists r :: r in rows && PeriodOf(spec, r.period) in keys && DeviceOf(spec, r.tag) == device
  }

  // ---------- The tables while rows are added

  /** A repeated key stands for its last place. */
  ghost predicate IsLast(keys: seq<int>, i: nat) {
    i < |keys| && keys[i] !in keys[i + 1..]
  }

  ghost predicate Places(keys: seq<int>, place: map<int, nat>) {
    && (forall k :: k in place <==> k in keys)
    && forall k :: k in place ==> IsLast(keys, place[k]) && keys[place[k]] == k
  }

  ghost predicate BucketsHold<G, D>(spec: Spec<G, D>, keys: seq<int>, rows: seq<RollupRow<G>>, agg: map<int, Bucket>) {
    && (forall k :: k in agg <==> k in keys)
    && forall k :: k in agg ==> IsBucket(spec, rows, k, agg[k])
  }

  ghost predicate IsBucket<G, D>(spec: Spec<G, D>, rows: seq<RollupRow<G>>, key: int, b: Bucket) {
    && b.periodStart == key
    && b.rx == Bytes(spec, rows, key, false)
    && b.tx == Bytes(spec, rows, key, true)
    && b.total == b.rx + b.tx
  }

  function At<D(==)>(temp: Series<D>, device: D, i: nat): int {
    if device in temp && i in temp[device] then temp[device][i] else 0
  }

  ghost predicate SeriesHold<G, D(!new)>(spec: Spec<G, D>, keys: seq<int>, place: map<int, nat>, rows: seq<RollupRow<G>>, temp: Series<D>) {
    && (forall device: D :: device in temp <==> Appears(spec, keys, rows, device))
    && (forall device: D, i: nat :: device in temp && i in temp[device] ==> IsLast(keys, i))
    && forall device: D, k :: k in place ==> At(temp, device, place[k]) == DeviceBytes(spec, rows, k, device)
  }

  lemma NextRow<G, D>(spec: Spec<G, D>, rows: seq<RollupRow<G>>, r: RollupRow<G>, key: int, device: D)
    ensures forall direction :: Bytes(spec, rows + [r], key, direction)
              == Bytes(spec, rows, key, direction) + if PeriodOf(spec, r.period) == key && r.direction == direction then r.bytes else 0
    ensures DeviceBytes(spec, rows + [r], key, device)
              == DeviceBytes(spec, rows, key, device) + if PeriodOf(spec, r.period) == key && DeviceOf(spec, r.tag) == device then r.bytes else 0
  {
    assert (rows + [r])[..|rows + [r]| - 1] == rows;
  }

  /** What was sent counts as tx, what was received as rx. */
  lemma DirectionsAre<G, D>(spec: Spec<G, D>, r: RollupRow<G>, b: Bucket)
    requires IsBucket(spec, [r], PeriodOf(spec, r.period), b)
    ensures b.tx == (if r.direction then r.bytes else 0) && b.rx == (if r.direction then 0 else r.bytes) && b.total == r.bytes
  {
    assert [r][..0] == [];
    NextRow(spec, [], r, PeriodOf(spec, r.period), DeviceOf(spec, r.tag));
    assert [] + [r] == [r];
  }

  lemma NextAppears<G, D>(spec: Spec<G, D>, keys: seq<int>, rows: seq<RollupRow<G>>, r: RollupRow<G>, device: D)
    ensures Appears(spec, keys, rows + [r], device) <==>
            Appears(spec, keys, rows, device) || (PeriodOf(spec, r.period) in keys && DeviceOf(spec, r.tag) == device)
  {
    if Appears(spec, keys, rows + [r], device) {
      var x :| x in rows + [r] && PeriodOf(spec, x.period) in keys && DeviceOf(spec, x.tag) == device;
      assert x in rows || x == r;
    }
    if Appears(spec, keys, rows, device) {
      var x :| x in rows && PeriodOf(spec, x.period) in keys && DeviceOf(spec, x.tag) == device;
      assert x in rows + [r];
    }
    assert r in rows + [r];
  }

  /** Add one row to its bucket and its device's series; a row outside the range is dropped. */
  method ApplyRow<G, D(!new, ==)>(spec: Spec<G, D>, ghost keys: seq<int>, place: map<int, nat>, ghost rows: seq<RollupRow<G>>,
                                  r: RollupRow<G>, agg: map<int, Bucket>, temp: Series<D>)
    returns (newAgg: map<int, Bucket>, newTemp: Series<D>)
    requires Places(keys, place) && BucketsHold(spec, keys, rows, agg) && SeriesHold(spec, keys, place, rows, temp)
    ensures BucketsHold(spec, keys, rows + [r], newAgg) && SeriesHold(spec, keys, place, rows + [r], newTemp)
  {
    newAgg := AddToBucket(spec, r, agg);
    newTemp := AddToSeries(spec, place, r, temp);
    RowInBuckets(spec, keys, rows, r, agg);
    RowInSeries(spec, keys, place, rows, r, temp);
  }

  method AddToBucket<G, D>(spec: Spec<G, D>, r: RollupRow<G>, agg: map<int, Bucket>) returns (newAgg: map<int, Bucket>)
    ensures newAgg == InBucket(spec, r, agg)
  {
    newAgg := agg;
    var key := PeriodOf(spec, r.period);
    if key in newAgg {
      var b := newAgg[key];
      if r.direction {
        b := b.(tx := b.tx + r.bytes);
      } else {
        b := b.(rx := b.rx + r.bytes);
      }
      newAgg := newAgg[key := b.(total := b.rx + b.tx)];
    }
  }

  method AddToSeries<G, D(==)>(spec: Spec<G, D>, place: map<int, nat>, r: RollupRow<G>, temp: Series<D>) returns (newTemp: Series<D>)
    ensures newTemp == WithRow(spec, place, r, temp)
  {
    newTemp := temp;
    var key := PeriodOf(spec, r.period);
    if key in place {
      var i, dev := place[key], DeviceOf(spec, r.tag);
      if dev !in newTemp {
        newTemp := newTemp[dev := map[]];
      }
      var points := newTemp[dev];
      newTemp := newTemp[dev := points[i := (if i in points then points[i] else 0) + r.bytes]];
    }
  }

  /** The buckets after a row. */
  ghost function InBucket<G, D>(spec: Spec<G, D>, r: RollupRow<G>, agg: map<int, Bucket>): map<int, Bucket> {
    var key := PeriodOf(spec, r.period);
    if key !in agg then agg
    else
      var b := if r.direction then agg[key].(tx := agg[key].tx + r.bytes) else agg[key].(rx := agg[key].rx + r.bytes);
      agg[key := b.(total := b.rx + b.tx)]
  }

  lemma RowInBuckets<G, D>(spec: Spec<G, D>, keys: seq<int>, rows: seq<RollupRow<G>>, r: RollupRow<G>, agg: map<int, Bucket>)
    requires BucketsHold(spec, keys, rows, agg)
    ensures BucketsHold(spec, keys, rows + [r], InBucket(spec, r, agg))
  {
    var newAgg := InBucket(spec, r, agg);
    forall k | k in newAgg ensures IsBucket(spec, rows + [r], k, newAgg[k]) {
      NextRow(spec, rows, r, k, DeviceOf(spec, r.tag));
      assert IsBucket(spec, rows, k, agg[k]);
    }
  }

  /** The series after a row. */
  ghost function WithRow<G, D>(spec: Spec<G, D>, place: map<int, nat>, r: RollupRow<G>, temp: Series<D>): Series<D> {
    var key, dev := PeriodOf(spec, r.period), DeviceOf(spec, r.tag);
    if key !in place then temp
    else temp[dev := (if dev in temp then temp[dev] else map[])[place[key] := At(temp, dev, place[key]) + r.bytes]]
  }

  lemma RowChangesOne<G, D(!new)>(spec: Spec<G, D>, keys: seq<int>, place: map<int, nat>, r: RollupRow<G>, temp: Series<D>, device: D, k: int)
    requires Places(keys, place) && k in place
    ensures At(WithRow(spec, place, r, temp), device, place[k])
         == At(temp, device, place[k]) + if PeriodOf(spec, r.period) == k && DeviceOf(spec, r.tag) == device then r.bytes else 0
  {
    assert keys[place[k]] == k;
  }

  lemma RowInSeries<G, D(!new)>(spec: Spec<G, D>, keys: seq<int>, place: map<int, nat>, rows: seq<RollupRow<G>>, r: RollupRow<G>,
                                temp: Series<D>)
    requires Places(keys, place) && SeriesHold(spec, keys, place, rows, temp)
    ensures SeriesHold(spec, keys, place, rows + [r], WithRow(spec, place, r, temp))
  {
    var newTemp := WithRow(spec, place, r, temp);
    forall device: D ensures device in newTemp <==> Appears(spec, keys, rows + [r], device) {
      NextAppears(spec, keys, rows, r, device);
    }
    forall device: D, k | k in place ensures At(newTemp, device, place[k]) == DeviceBytes(spec, rows + [r], k, device) {
      NextRow(spec, rows, r, k, device);
      RowChangesOne(spec, keys, place, r, temp, device, k);
    }
  }

  // ---------- The analysis

  predicate Distinct<A(==)>(s: seq<A>) {
    forall i, j :: 0 <= i < j < |s| ==> s[i] != s[j]
  }

  ghost predicate IsSeries<G, D>(spec: Spec<G, D>, keys: seq<int>, rows: seq<RollupRow<G>>, device: D, data: seq<int>) {
    && |data| == |keys|
    && forall i :: 0 <= i < |keys| ==> data[i] == if IsLast(keys, i) then DeviceBytes(spec, rows, keys[i], device) else 0
  }

  ghost predicate AreBuckets<G, D>(spec: Spec<G, D>, keys: seq<int>, rows: seq<RollupRow<G>>, buckets: seq<Bucket>) {
    |buckets| == |keys| && forall i :: 0 <= i < |keys| ==> IsBucket(spec, rows, keys[i], buckets[i])
  }

  /** One bucket for every key, and one series for every device that appears in a bucket. */
  ghost predicate IsAnalysis<G, D(!new)>(spec: Spec<G, D>, keys: seq<int>, rows: seq<RollupRow<G>>,
                                         buckets: seq<Bucket>, devices: seq<D>, series: map<D, seq<int>>) {
    && AreBuckets(spec, keys, rows, buckets)
    && Distinct(devices)
    && (forall device: D :: device in devices <==> Appears(spec, keys, rows, device))
    && (forall device: D :: device in series <==> device in devices)
    && forall device: D :: device in series ==> IsSeries(spec, keys, rows, device, series[device])
  }

  method BuildBuckets<G, D>(spec: Spec<G, D>, now: int) returns (keys: seq<int>, place: map<int, nat>, agg: map<int, Bucket>)
    requires spec.step > 0
    ensures keys == Keys(spec, spec.since, now)
    ensures Places(keys, place) && BucketsHold(spec, keys, [], agg)
  {
    keys, place, agg := [], map[], map[];
    var cursor := spec.since;
    while cursor <= now
      invariant keys + Keys(spec, cursor, now) == Keys(spec, spec.since, now)
      invariant Places(keys, place) && BucketsHold(spec, keys, [], agg)
      decreases now - cursor
    {
      var key := PeriodOf(spec, cursor);
      assert keys + Keys(spec, cursor, now) == (keys + [key]) + Keys(spec, cursor + spec.step, now);
      agg := agg[key := Bucket(key, 0, 0, 0)];
      place := place[key := |keys|];
      keys := keys + [key];
      cursor := cursor + spec.step;
    }
  }

  method ApplyRows<G, D(!new, ==)>(spec: Spec<G, D>, ghost keys: seq<int>, place: map<int, nat>, ghost before: seq<RollupRow<G>>,
                                   rows: seq<RollupRow<G>>, agg: map<int, Bucket>, temp: Series<D>)
    returns (newAgg: map<int, Bucket>, newTemp: Series<D>)
    requires Places(keys, place) && BucketsHold(spec, keys, before, agg) && SeriesHold(spec, keys, place, before, temp)
    ensures BucketsHold(spec, keys, before + rows, newAgg) && SeriesHold(spec, keys, place, before + rows, newTemp)
  {
    newAgg, newTemp := agg, temp;
    assert before + rows[..0] == before;
    for i := 0 to |rows|
      invariant BucketsHold(spec, keys, before + rows[..i], newAgg)
      invariant SeriesHold(spec, keys, place, before + rows[..i], newTemp)
    {
      newAgg, newTemp := ApplyRow(spec, keys, place, before + rows[..i], rows[i], newAgg, newTemp);
      assert before + rows[..i + 1] == before + rows[..i] + [rows[i]];
    }
    assert before + rows[..|rows|] == before + rows;
  }

  lemma SeriesOf<G, D(!new)>(spec: Spec<G, D>, keys: seq<int>, place: map<int, nat>, rows: seq<RollupRow<G>>, temp: Series<D>,
                             device: D, data: seq<int>)
    requires Places(keys, place) && SeriesHold(spec, keys, place, rows, temp) && device in temp
    requires |data| == |keys| && forall i :: 0 <= i < |keys| ==> data[i] == At(temp, device, i)
    ensures IsSeries(spec, keys, rows, device, data)
  {
    forall i | 0 <= i < |keys| ensures data[i] == if IsLast(keys, i) then DeviceBytes(spec, rows, keys[i], device) else 0 {
      if IsLast(keys, i) {
        var k := keys[i];
        assert k in place;
        OneLastPlace(keys, i, place[k]);
      }
    }
  }

  lemma OneLastPlace(keys: seq<int>, i: nat, j: nat)
    requires IsLast(keys, i) && IsLast(keys, j) && keys[i] == keys[j]
    ensures i == j
  {
    if i < j {
      LaterPlace(keys, i, j);
    } else if j < i {
      LaterPlace(keys, j, i);
    }
  }

  lemma LaterPlace(keys: seq<int>, i: nat, j: nat)
    requires i < j < |keys|
    ensures keys[j] in keys[i + 1..]
  {
    assert keys[i + 1..][j - i - 1] == keys[j];
  }

  /** Buckets and device series from the rolled-up rows and those of the current period. */
  method GetTrafficAnalysisWithChart<G, D(!new, ==)>(spec: Spec<G, D>, now: int, rows: seq<RollupRow<G>>, currentRows: seq<RollupRow<G>>)
    returns (buckets: seq<Bucket>, devices: seq<D>, series: map<D, seq<int>>)
    requires spec.step > 0
    ensures IsAnalysis(spec, Keys(spec, spec.since, now), rows + currentRows, buckets, devices, series)
  {
    var keys, place, agg := BuildBuckets(spec, now);
    var temp: Series<D> := map[];
    assert [] + rows == rows;
    agg, temp := ApplyRows(spec, keys, place, [], rows, agg, temp);
    agg, temp := ApplyRows(spec, keys, place, rows, currentRows, agg, temp);
    buckets := ListBuckets(spec, keys, rows + currentRows, agg);
    devices, series := CollectSeries(spec, keys, place, rows + currentRows, temp);
  }

  /** The buckets in the order of their keys. */
  method ListBuckets<G, D>(ghost spec: Spec<G, D>, keys: seq<int>, ghost rows: seq<RollupRow<G>>, agg: map<int, Bucket>)
    returns (buckets: seq<Bucket>)
    requires BucketsHold(spec, keys, rows, agg)
    ensures AreBuckets(spec, keys, rows, buckets)
  {
    buckets := [];
    for i := 0 to |keys|
      invariant |buckets| == i
      invariant forall j :: 0 <= j < i ==> IsBucket(spec, rows, keys[j], buckets[j])
    {
      var key := keys[i];
      assert key in agg;
      buckets := buckets + [agg[key]];
    }
  }

  /** The devices, in some order. */
  method ListDevices<D(!new, ==)>(all: set<D>) returns (devices: seq<D>)
    ensures Distinct(devices) && forall device: D :: device in devices <==> device in all
  {
    devices := [];
    var rest := all;
    while rest != {}
      invariant rest <= all && Distinct(devices)
      invariant forall device: D :: device in all <==> device in devices || device in rest
      invariant forall device: D :: device in devices ==> device !in rest
      decreases |rest|
    {
      var dev :| dev in rest;
      devices := devices + [dev];
      rest := rest - {dev};
    }
  }

  /** The series of every device, with zeros where it has nothing. */
  method CollectSeries<G, D(!new, ==)>(ghost spec: Spec<G, D>, keys: seq<int>, ghost place: map<int, nat>, ghost rows: seq<RollupRow<G>>, temp: Series<D>)
    returns (devices: seq<D>, series: map<D, seq<int>>)
    requires Places(keys, place) && SeriesHold(spec, keys, place, rows, temp)
    ensures Distinct(devices)
    ensures forall device: D :: device in devices <==> Appears(spec, keys, rows, device)
    ensures forall device: D :: device in series <==> device in devices
    ensures forall device: D :: device in series ==> IsSeries(spec, keys, rows, device, series[device])
  {
    devices := ListDevices(temp.Keys);
    series := map[];
    for i := 0 to |devices|
      invariant forall device: D :: device in series <==> device in devices[..i]
      invariant forall device: D :: device in series ==> IsSeries(spec, keys, rows, device, series[device])
    {
      var data := SeriesFor(spec, keys, place, rows, temp, devices[i]);
      series := series[devices[i] := data];
    }
  }

  method SeriesFor<G, D(!new, ==)>(ghost spec: Spec<G, D>, keys: seq<int>, ghost place: map<int, nat>, ghost rows: seq<RollupRow<G>>,
                                   temp: Series<D>, device: D)
    returns (data: seq<int>)
    requires Places(keys, place) && SeriesHold(spec, keys, place, rows, temp) && device in temp
    ensures IsSeries(spec, keys, rows, device, data)
  {
    data := seq(|keys|, i requires 0 <= i < |keys| => At(temp, device, i));
    SeriesOf(spec, keys, place, rows, temp, device, data);
  }

  // ---------- Conservation

  function SeriesTotal<D(==)>(devices: seq<D>, series: map<D, seq<int>>, i: nat): (sum: int)
    requires forall d :: d in devices ==> d in series && i < |series[d]|
  {
    if devices == [] then 0
    else SeriesTotal(devices[..|devices| - 1], series, i) + series[devices[|devices| - 1]][i]
  }

  function DevicesTotal<G, D(==)>(spec: Spec<G, D>, rows: seq<RollupRow<G>>, key: int, devices: seq<D>): (sum: int) {
    if devices == [] then 0
    else DevicesTotal(spec, rows, key, devices[..|devices| - 1]) + DeviceBytes(spec, rows, key, devices[|devices| - 1])
  }

  lemma {:induction false} NextRowTotal<G, D>(spec: Spec<G, D>, rows: seq<RollupRow<G>>, r: RollupRow<G>, key: int, devices: seq<D>)
    requires Distinct(devices)
    ensures DevicesTotal(spec, rows + [r], key, devices)
         == DevicesTotal(spec, rows, key, devices)
            + if PeriodOf(spec, r.period) == key && DeviceOf(spec, r.tag) in devices then r.bytes else 0
  {
    if devices != [] {
      var init, d := devices[..|devices| - 1], devices[|devices| - 1];
      assert devices == init + [d];
      NextRowTotal(spec, rows, r, key, init);
      NextRow(spec, rows, r, key, d);
      assert forall i :: 0 <= i < |init| ==> init[i] == devices[i] != d;
    }
  }

  lemma {:induction false} NoRowsTotal<G, D>(spec: Spec<G, D>, key: int, devices: seq<D>)
    ensures DevicesTotal(spec, [], key, devices) == 0
  {
    if devices != [] {
      NoRowsTotal(spec, key, devices[..|devices| - 1]);
    }
  }

  /** Over all devices that appear, the bytes of a period are those of both directions. */
  lemma {:induction false} DevicesAddUp<G, D>(spec: Spec<G, D>, rows: seq<RollupRow<G>>, key: int, devices: seq<D>)
    requires Distinct(devices)
    requires forall r :: r in rows && PeriodOf(spec, r.period) == key ==> DeviceOf(spec, r.tag) in devices
    ensures DevicesTotal(spec, rows, key, devices) == Bytes(spec, rows, key, false) + Bytes(spec, rows, key, true)
  {
    if rows == [] {
      NoRowsTotal(spec, key, devices);
    } else {
      var init, r := rows[..|rows| - 1], rows[|rows| - 1];
      assert rows == init + [r];
      DevicesAddUp(spec, init, key, devices);
      NextRowTotal(spec, init, r, key, devices);
    }
  }

  lemma {:induction false} SeriesTotalIs<G, D(!new)>(spec: Spec<G, D>, keys: seq<int>, rows: seq<RollupRow<G>>,
                                                     devices: seq<D>, series: map<D, seq<int>>, i: nat)
    requires i < |keys|
    requires forall d :: d in devices ==> d in series && |series[d]| == |keys| && IsSeries(spec, keys, rows, d, series[d])
    ensures SeriesTotal(devices, series, i) == if IsLast(keys, i) then DevicesTotal(spec, rows, keys[i], devices) else 0
  {
    if devices != [] {
      SeriesTotalIs(spec, keys, rows, devices[..|devices| - 1], series, i);
      assert devices[|devices| - 1] in devices;
    }
  }

  /** In every period the series of all devices sum to the bucket's total exactly when the period is not
      repeated later, or nothing was measured in it; a repeated period has its series at its last place only. */
  lemma ChartMatchesBuckets<G, D(!new)>(spec: Spec<G, D>, keys: seq<int>, rows: seq<RollupRow<G>>,
                                        buckets: seq<Bucket>, devices: seq<D>, series: map<D, seq<int>>, i: nat)
    requires IsAnalysis(spec, keys, rows, buckets, devices, series) && i < |keys|
    ensures forall d :: d in devices ==> d in series && |series[d]| == |keys|
    ensures SeriesTotal(devices, series, i) == buckets[i].total <==> IsLast(keys, i) || buckets[i].total == 0
  {
    forall d | d in devices ensures d in series && |series[d]| == |keys| && IsSeries(spec, keys, rows, d, series[d]) {}
    SeriesTotalIs(spec, keys, rows, devices, series, i);
    assert IsBucket(spec, rows, keys[i], buckets[i]);
    forall r | r in rows && PeriodOf(spec, r.period) == keys[i] ensures DeviceOf(spec, r.tag) in devices {
      assert Appears(spec, keys, rows, DeviceOf(spec, r.tag));
    }
    DevicesAddUp(spec, rows, keys[i], devices);
  }

  function BucketTotals(buckets: seq<Bucket>): (sum: int) {
    if buckets == [] then 0 else buckets[0].total + BucketTotals(buckets[1..])
  }

  /** The bytes of all rows that fall into a bucket. */
  function BytesWithin<G, D(==)>(spec: Spec<G, D>, rows: seq<RollupRow<G>>, keys: seq<int>): (sum: int) {
    if rows == [] then 0
    else
      var r := rows[|rows| - 1];
      BytesWithin(spec, rows[..|rows| - 1], keys) + if PeriodOf(spec, r.period) in keys then r.bytes else 0
  }

  /** A key more adds its bytes, unless it was there. */
  lemma {:induction false} OneKeyMore<G, D>(spec: Spec<G, D>, rows: seq<RollupRow<G>>, k: int, keys: seq<int>)
    ensures BytesWithin(spec, rows, [k] + keys)
         == BytesWithin(spec, rows, keys) + if k in keys then 0 else Bytes(spec, rows, k, false) + Bytes(spec, rows, k, true)
  {
    if rows != [] {
      OneKeyMore(spec, rows[..|rows| - 1], k, keys);
    }
  }

  lemma {:induction false} NoKeys<G, D>(spec: Spec<G, D>, rows: seq<RollupRow<G>>)
    ensures BytesWithin(spec, rows, []) == 0
  {
    if rows != [] {
      NoKeys(spec, rows[..|rows| - 1]);
    }
  }

  /** Every bucket but the last of its period is empty. */
  ghost predicate RepeatsAreEmpty(keys: seq<int>, buckets: seq<Bucket>)
    requires |buckets| == |keys|
  {
    forall i :: 0 <= i < |keys| ==> IsLast(keys, i) || buckets[i].total == 0
  }

  lemma RepeatsFromFront(keys: seq<int>, buckets: seq<Bucket>)
    requires |buckets| == |keys| > 0
    ensures RepeatsAreEmpty(keys, buckets) <==>
            (keys[0] !in keys[1..] || buckets[0].total == 0) && RepeatsAreEmpty(keys[1..], buckets[1..])
  {
    forall i | 0 <= i < |keys| - 1 ensures IsLast(keys[1..], i) <==> IsLast(keys, i + 1) {
      assert keys[1..][i + 1..] == keys[i + 2..];
    }
    if RepeatsAreEmpty(keys, buckets) {
      assert IsLast(keys, 0) || buckets[0].total == 0;
      forall i | 0 <= i < |keys| - 1 ensures IsLast(keys[1..], i) || buckets[1..][i].total == 0 {
        assert IsLast(keys, i + 1) || buckets[i + 1].total == 0;
      }
    } else {
      var i :| 0 <= i < |keys| && !(IsLast(keys, i) || buckets[i].total == 0);
      assert i > 0 ==> buckets[1..][i - 1] == buckets[i];
    }
  }

  /** What the buckets show of periods that are repeated later. */
  function RepeatedBytes(keys: seq<int>, buckets: seq<Bucket>): (sum: int)
    requires |buckets| == |keys|
  {
    if keys == [] then 0
    else RepeatedBytes(keys[1..], buckets[1..]) + if keys[0] in keys[1..] then buckets[0].total else 0
  }

  /** The bytes of all rows that were read. */
  function RowBytes<G>(rows: seq<RollupRow<G>>): (sum: int) {
    if rows == [] then 0 else RowBytes(rows[..|rows| - 1]) + rows[|rows| - 1].bytes
  }

  /** The bytes of the rows that were read and dropped. */
  function DroppedBytes<G, D(==)>(spec: Spec<G, D>, rows: seq<RollupRow<G>>, keys: seq<int>): (sum: int) {
    if rows == [] then 0
    else
      var r := rows[|rows| - 1];
      DroppedBytes(spec, rows[..|rows| - 1], keys) + if PeriodOf(spec, r.period) in keys then 0 else r.bytes
  }

  lemma {:induction false} BucketsAddUp<G, D>(spec: Spec<G, D>, keys: seq<int>, rows: seq<RollupRow<G>>, buckets: seq<Bucket>)
    requires AreBuckets(spec, keys, rows, buckets)
    ensures BucketTotals(buckets) == BytesWithin(spec, rows, keys) + RepeatedBytes(keys, buckets)
  {
    if keys == [] {
      NoKeys(spec, rows);
    } else {
      BucketsAddUp(spec, keys[1..], rows, buckets[1..]);
      assert keys == [keys[0]] + keys[1..];
      assert IsBucket(spec, rows, keys[0], buckets[0]);
      OneKeyMore(spec, rows, keys[0], keys[1..]);
    }
  }

  lemma {:induction false} RowsAddUp<G, D>(spec: Spec<G, D>, keys: seq<int>, rows: seq<RollupRow<G>>)
    ensures RowBytes(rows) == BytesWithin(spec, rows, keys) + DroppedBytes(spec, rows, keys)
  {
    if rows != [] {
      RowsAddUp(spec, keys, rows[..|rows| - 1]);
    }
  }

  /** Every byte is accounted for: what the buckets show and what was dropped is what was read and what is shown
      again. */
  lemma BucketsAccount<G, D>(spec: Spec<G, D>, keys: seq<int>, rows: seq<RollupRow<G>>, buckets: seq<Bucket>)
    requires AreBuckets(spec, keys, rows, buckets)
    ensures BucketTotals(buckets) + DroppedBytes(spec, rows, keys) == RowBytes(rows) + RepeatedBytes(keys, buckets)
  {
    BucketsAddUp(spec, keys, rows, buckets);
    RowsAddUp(spec, keys, rows);
  }

  lemma {:induction false} RepeatedIsNone(keys: seq<int>, buckets: seq<Bucket>)
    requires |buckets| == |keys|
    ensures RepeatsAreEmpty(keys, buckets) ==> RepeatedBytes(keys, buckets) == 0
    ensures (forall b :: b in buckets ==> b.total >= 0) ==>
              && RepeatedBytes(keys, buckets) >= 0
              && (RepeatedBytes(keys, buckets) == 0 ==> RepeatsAreEmpty(keys, buckets))
  {
    if keys != [] {
      RepeatedIsNone(keys[1..], buckets[1..]);
      RepeatsFromFront(keys, buckets);
    }
  }

  /** The buckets hold together no less than the rows that have one, and exactly as much if and only if no period
      that is repeated holds anything. */
  lemma BucketsConserve<G, D>(spec: Spec<G, D>, keys: seq<int>, rows: seq<RollupRow<G>>, buckets: seq<Bucket>)
    requires AreBuckets(spec, keys, rows, buckets) && forall b :: b in buckets ==> b.total >= 0
    ensures BucketTotals(buckets) >= BytesWithin(spec, rows, keys)
    ensures BucketTotals(buckets) == BytesWithin(spec, rows, keys) <==> RepeatsAreEmpty(keys, buckets)
  {
    BucketsAddUp(spec, keys, rows, buckets);
    RepeatedIsNone(keys, buckets);
  }

  // ---------- Ranges

  const Hour: nat := 3600
  const Day: nat := 86400

  datatype Range<!G, !D(==)> = Range(spec: Spec<G, D>, currentStart: int) | InvalidRange

  function Truncate(t: int, unit: nat): (start: int)
    requires unit > 0
    ensures start <= t < start + unit
  {
    t - t % unit
  }

  /** The range a name stands for; days start where the location says. */
  function NewTrafficRange<G, D(==)>(name: string, now: int, startOfDay: int -> int, deviceOf: G -> D): (range: Range<G, D>)
    ensures range.InvalidRange? <==> name !in {"day", "week", "month"}
    ensures !range.InvalidRange? ==> range.spec.step == (if name == "day" then Hour else Day) && range.spec.deviceOf == deviceOf
    ensures name == "day" ==> range.currentStart == Truncate(now, Hour) && range.spec.since == range.currentStart - 24 * Hour
    ensures name in {"week", "month"} ==>
              && range.currentStart == startOfDay(now)
              && range.spec.since == startOfDay(now - (if name == "week" then 7 else 30) * Day)
    ensures !range.InvalidRange? ==>
              forall t :: PeriodOf(range.spec, t) == if name == "day" then Truncate(t, Hour) else startOfDay(t)
  {
    if name == "day" then
      Range(Spec(Truncate(now - 24 * Hour, Hour), Hour, t => Truncate(t, Hour), deviceOf), Truncate(now, Hour))
    else if name == "week" then
      Range(Spec(startOfDay(now - 7 * Day), Day, startOfDay, deviceOf), startOfDay(now))
    else if name == "month" then
      Range(Spec(startOfDay(now - 30 * Day), Day, startOfDay, deviceOf), startOfDay(now))
    else InvalidRange
  }

  ghost predicate Monotone<G, D>(spec: Spec<G, D>) {
    forall t, u :: t <= u ==> PeriodOf(spec, t) <= PeriodOf(spec, u)
  }

  /** Every step leads into a new period. */
  ghost predicate EveryStepMoves<G, D>(spec: Spec<G, D>, cursor: int, now: int)
    requires spec.step > 0
    decreases now - cursor
  {
    cursor + spec.step <= now ==>
      PeriodOf(spec, cursor) != PeriodOf(spec, cursor + spec.step) && EveryStepMoves(spec, cursor + spec.step, now)
  }

  lemma {:induction false} KeysFrom<G, D>(spec: Spec<G, D>, cursor: int, now: int, k: int)
    requires spec.step > 0 && Monotone(spec) && k in Keys(spec, cursor, now)
    ensures PeriodOf(spec, cursor) <= k
    decreases now - cursor
  {
    if k != PeriodOf(spec, cursor) {
      KeysFrom(spec, cursor + spec.step, now, k);
    }
  }

  /** No period is repeated exactly when every step leads into a new one: a day longer than the step of 24 hours,
      at a change of clocks, is repeated. */
  lemma {:induction false} DistinctWhenMoving<G, D>(spec: Spec<G, D>, cursor: int, now: int)
    requires spec.step > 0 && Monotone(spec) && cursor <= now
    ensures Distinct(Keys(spec, cursor, now)) <==> EveryStepMoves(spec, cursor, now)
    decreases now - cursor
  {
    var next := cursor + spec.step;
    var rest := Keys(spec, next, now);
    assert Keys(spec, cursor, now) == [PeriodOf(spec, cursor)] + rest;
    if next <= now {
      DistinctWhenMoving(spec, next, now);
      assert rest[0] == PeriodOf(spec, next);
      DistinctTail(PeriodOf(spec, cursor), rest);
      forall k | k in rest ensures PeriodOf(spec, next) <= k {
        KeysFrom(spec, next, now, k);
      }
    }
  }

  lemma DistinctTail(k: int, rest: seq<int>)
    ensures Distinct([k] + rest) <==> k !in rest && Distinct(rest)
  {
    var all := [k] + rest;
    assert forall i :: 0 <= i < |rest| ==> all[i + 1] == rest[i];
    if Distinct(all) {
      assert forall i :: 0 <= i < |rest| ==> rest[i] == all[i + 1] != all[0];
    }
  }

  lemma {:induction false} HourStepsMove<G, D>(spec: Spec<G, D>, cursor: int, now: int)
    requires spec.step == Hour && forall t :: PeriodOf(spec, t) == Truncate(t, Hour)
    ensures EveryStepMoves(spec, cursor, now)
    decreases now - cursor
  {
    if cursor + Hour <= now {
      HourStepsMove(spec, cursor + Hour, now);
    }
  }

  /** The range of a day repeats no hour, so there series and buckets always agree. */
  lemma DayRangeIsDistinct<G, D>(now: int, startOfDay: int -> int, deviceOf: G -> D)
    ensures var spec := NewTrafficRange("day", now, startOfDay, deviceOf).spec;
            Distinct(Keys(spec, spec.since, now))
  {
    var spec := NewTrafficRange("day", now, startOfDay, deviceOf).spec;
    assert forall t :: PeriodOf(spec, t) == Truncate(t, Hour);
    HourStepsMove(spec, spec.since, now);
    DistinctWhenMoving(spec, spec.since, now);
  }
}
