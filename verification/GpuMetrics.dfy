/** Joining GPU utilisation and memory samples into one record per device. */
module GpuMetrics {
  import opened Common
  import opened Ordering
  import opened Strings

  /**
   * One series of a query result. `labels` is None when the series has none; `time` and `value` are None when they are
   * missing, malformed or not finite.
   */
  datatype Series = Series(labels: Option<map<string, string>>, time: Option<real>, value: Option<real>)

  datatype Kind = Utilization | Used | Free

  datatype Device = Device(
    node: string, vendor: string, device: string, utilization: Option<real>, used: Option<nat>, total: Option<nat>)

  type Key = (string, string)

  /** A device under construction, with its free memory. */
  type Entry = (Device, Option<nat>)

  const MAX_AGE := 120.0
  const MAX_AHEAD := 30.0
  const MIB := 1048576
  const U64_LIMIT := 0x1_0000_0000_0000_0000

  predicate Fresh(time: real, now: real) {
    time <= now + MAX_AHEAD && now - time <= MAX_AGE
  }

  function LabelOr(labels: map<string, string>, name: string, other: string): string {
    if name in labels then labels[name] else other
  }

  function DeviceName(uuid: string, profile: string, instance: string): string {
    if instance == "" then uuid else uuid + " (MIG " + profile + " instance " + instance + ")"
  }

  /** `gpu_sample`: the device that a series belongs to and its value; None for a series that is not used. */
  function Sample(s: Series, now: real): Option<(Key, real)> {
    if s.labels.None? || "Hostname" !in s.labels.value || "UUID" !in s.labels.value then None
    else
      var labels := s.labels.value;
      var node, uuid := Trim(labels["Hostname"]), Trim(labels["UUID"]);
      if node == "" || uuid == "" || s.time.None? || s.value.None? || !Fresh(s.time.value, now) then None
      else
        var device := DeviceName(uuid, LabelOr(labels, "GPU_I_PROFILE", ""), LabelOr(labels, "GPU_I_ID", ""));
        Some(((node, device), s.value.value))
  }

  /** `gpu_series_identity`: all labels but the metric name. */
  function Identity(s: Series): Option<map<string, string>> {
    if s.labels.None? then None else Some(s.labels.value - {"__name__"})
  }

  function SourceTimes(timestamps: seq<Series>, now: real): map<map<string, string>, real> {
    if timestamps == [] then map[]
    else
      var n := |timestamps| - 1;
      var before, last := SourceTimes(timestamps[..n], now), timestamps[n];
      if Identity(last).None? || last.value.None? || !Fresh(last.value.value, now) then before
      else before[Identity(last).value := last.value.value]
  }

  /** `with_scrape_timestamps`: values whose source time is known and fresh, carrying that time. */
  function WithTimes(values: seq<Series>, times: map<map<string, string>, real>): seq<Series> {
    if values == [] then []
    else
      var n := |values| - 1;
      var before, last := WithTimes(values[..n], times), values[n];
      if Identity(last).None? || Identity(last).value !in times then before
      else before + [last.(time := Some(times[Identity(last).value]))]
  }

  // ------------------------------------------------------------------- assembly

  function NewEntry(k: Key): Entry {
    (Device(k.0, "NVIDIA", k.1, None, None, None), None)
  }

  predicate IsPercent(value: real) {
    0.0 <= value <= 100.0
  }

  /** The largest number of MiB that is accepted is the integer quotient of the largest 64-bit number. */
  predicate IsMib(value: real) {
    0.0 <= value <= ((U64_LIMIT - 1) / MIB) as real
  }

  function Bytes(value: real): int {
    (value * MIB as real).Floor
  }

  /** MiB become bytes without leaving 64 bits. */
  lemma BytesFit(value: real)
    requires IsMib(value)
    ensures 0 <= Bytes(value) <= U64_LIMIT - MIB
    ensures Bytes(value) as real <= value * 1048576.0 < Bytes(value) as real + 1.0
  {
  }

  function Absorb(e: Entry, kind: Kind, value: real): Entry {
    match kind
    case Utilization => if IsPercent(value) then (e.0.(utilization := Some(value)), e.1) else e
    case Used => if IsMib(value) then BytesFit(value); (e.0.(used := Some(Bytes(value))), e.1) else e
    case Free => if IsMib(value) then BytesFit(value); (e.0, Some(Bytes(value))) else e
  }

  function AbsorbAll(devices: map<Key, Entry>, series: seq<Series>, kind: Kind, now: real): map<Key, Entry> {
    if series == [] then devices
    else
      var n := |series| - 1;
      var before := AbsorbAll(devices, series[..n], kind, now);
      match Sample(series[n], now)
      case None => before
      case Some((k, value)) => before[k := Absorb(if k in before then before[k] else NewEntry(k), kind, value)]
  }

  /** `checked_add` on what was used and what is free. */
  function Finish(e: Entry): Device {
    var fits := e.0.used.Some? && e.1.Some? && e.0.used.value + e.1.value < U64_LIMIT;
    var total := if fits then Some(e.0.used.value + e.1.value) else None;
    e.0.(total := total)
  }

  function Devices(devices: map<Key, Entry>): (r: seq<Device>)
    ensures |r| == |PairOrder(devices.Keys)|
    ensures forall i | 0 <= i < |r| ::
      PairOrder(devices.Keys)[i] in devices && r[i] == Finish(devices[PairOrder(devices.Keys)[i]])
  {
    var keys := PairOrder(devices.Keys);
    assert forall i | 0 <= i < |keys| :: keys[i] in keys;
    seq(|keys|, i requires 0 <= i < |keys| => Finish(devices[keys[i]]))
  }

  function AllEntries(utilization: seq<Series>, used: seq<Series>, free: seq<Series>, now: real): map<Key, Entry> {
    AbsorbAll(AbsorbAll(AbsorbAll(map[], utilization, Utilization, now), used, Used, now), free, Free, now)
  }

  method AbsorbSeries(start: map<Key, Entry>, series: seq<Series>, kind: Kind, now: real) returns (devices: map<Key, Entry>)
    ensures devices == AbsorbAll(start, series, kind, now)
  {
    devices := start;
    for i := 0 to |series|
      invariant devices == AbsorbAll(start, series[..i], kind, now)
    {
      assert series[..i + 1][..i] == series[..i];
      var sample := Sample(series[i], now);
      if sample.None? {
        continue;
      }
      var (k, value) := sample.value;
      if k !in devices {
        devices := devices[k := NewEntry(k)];
      }
      devices := devices[k := Absorb(devices[k], kind, value)];
    }
    assert series[..|series|] == series;
  }

  method AssembleGpuMetrics(utilization: seq<Series>, used: seq<Series>, free: seq<Series>, now: real) returns (r: seq<Device>)
    ensures r == Devices(AllEntries(utilization, used, free, now))
  {
    var devices := AbsorbSeries(map[], utilization, Utilization, now);
    devices := AbsorbSeries(devices, used, Used, now);
    devices := AbsorbSeries(devices, free, Free, now);
    r := Devices(devices);
  }

  // -------------------------------------------------------------- what is reported

  predicate Accepts(kind: Kind, value: real) {
    if kind == Utilization then IsPercent(value) else IsMib(value)
  }

  /** The value of the last series that reports an acceptable number for a device. */
  function LastOf(series: seq<Series>, kind: Kind, now: real, k: Key): Option<real> {
    if series == [] then None
    else
      var n := |series| - 1;
      match Sample(series[n], now)
      case Some((own, value)) => if own == k && Accepts(kind, value) then Some(value) else LastOf(series[..n], kind, now, k)
      case None => LastOf(series[..n], kind, now, k)
  }

  predicate Reported(series: seq<Series>, now: real, k: Key) {
    exists i | 0 <= i < |series| :: Sample(series[i], now).Some? && Sample(series[i], now).value.0 == k
  }

  function BytesOf(value: Option<real>): Option<int> {
    if value.None? then None else Some(Bytes(value.value))
  }

  function EntryAt(devices: map<Key, Entry>, k: Key): Entry {
    if k in devices then devices[k] else NewEntry(k)
  }

  /** What one list of series does to one device. */
  ghost predicate Updated(was: Entry, after: Entry, kind: Kind, last: Option<real>) {
    match kind
    case Utilization =>
      after.0 == was.0.(utilization := if last.Some? then last else was.0.utilization) && after.1 == was.1
    case Used =>
      && after.0.(used := None) == was.0.(used := None) && after.1 == was.1
      && after.0.used == if last.Some? then BytesOf(last) else was.0.used
    case Free => after.0 == was.0 && after.1 == if last.Some? then BytesOf(last) else was.1
  }

  lemma ReportedLast(series: seq<Series>, now: real, k: Key)
    requires series != []
    ensures var last := Sample(series[|series| - 1], now);
      Reported(series, now, k) <==> Reported(series[..|series| - 1], now, k) || (last.Some? && last.value.0 == k)
  {
    var n := |series| - 1;
    assert forall i | 0 <= i < n :: series[..n][i] == series[i];
  }

  lemma {:induction false} AbsorbExact(devices: map<Key, Entry>, series: seq<Series>, kind: Kind, now: real, k: Key)
    ensures var r := AbsorbAll(devices, series, kind, now);
      && (k in r <==> k in devices || Reported(series, now, k))
      && Updated(EntryAt(devices, k), EntryAt(r, k), kind, LastOf(series, kind, now, k))
  {
    if series != [] {
      AbsorbExact(devices, series[..|series| - 1], kind, now, k);
      ReportedLast(series, now, k);
    }
  }

  /** The device record that the three lists determine. */
  ghost predicate Describes(d: Device, k: Key, utilization: seq<Series>, used: seq<Series>, free: seq<Series>, now: real) {
    var usedBytes, freeBytes := BytesOf(LastOf(used, Used, now, k)), BytesOf(LastOf(free, Free, now, k));
    && d.node == k.0 && d.device == k.1 && d.vendor == "NVIDIA"
    && d.utilization == LastOf(utilization, Utilization, now, k)
    && d.used == usedBytes
    && (d.total.Some? <==> usedBytes.Some? && freeBytes.Some? && usedBytes.value + freeBytes.value < U64_LIMIT)
    && (d.total.Some? ==> d.total.value == usedBytes.value + freeBytes.value)
  }

  /**
   * There is one record for each device that some series reports, ordered and unique by node and device. It holds the
   * last acceptable number of each kind reported for that very device, and a total exactly when used and free memory
   * are both known and their sum fits in 64 bits.
   */
  lemma DevicesExact(utilization: seq<Series>, used: seq<Series>, free: seq<Series>, now: real)
    ensures var entries := AllEntries(utilization, used, free, now);
      var r, keys := Devices(entries), PairOrder(entries.Keys);
      && |r| == |keys| && Sorted(keys, PairBefore)
      && (forall k :: k in keys <==> Reported(utilization, now, k) || Reported(used, now, k) || Reported(free, now, k))
      && (forall i | 0 <= i < |r| :: Describes(r[i], keys[i], utilization, used, free, now))
  {
    forall k
      ensures k in AllEntries(utilization, used, free, now) <==>
              Reported(utilization, now, k) || Reported(used, now, k) || Reported(free, now, k)
      ensures Describes(Finish(EntryAt(AllEntries(utilization, used, free, now), k)), k, utilization, used, free, now)
    {
      DeviceExact(utilization, used, free, now, k);
    }
  }

  lemma DeviceExact(utilization: seq<Series>, used: seq<Series>, free: seq<Series>, now: real, k: Key)
    ensures k in AllEntries(utilization, used, free, now) <==>
            Reported(utilization, now, k) || Reported(used, now, k) || Reported(free, now, k)
    ensures Describes(Finish(EntryAt(AllEntries(utilization, used, free, now), k)), k, utilization, used, free, now)
  {
    var a := AbsorbAll(map[], utilization, Utilization, now);
    var b := AbsorbAll(a, used, Used, now);
    AbsorbExact(map[], utilization, Utilization, now, k);
    AbsorbExact(a, used, Used, now, k);
    AbsorbExact(b, free, Free, now, k);
    assert k == (k.0, k.1);
  }

  /** Devices are unique by node and device. */
  lemma DevicesUnique(utilization: seq<Series>, used: seq<Series>, free: seq<Series>, now: real)
    ensures var r := Devices(AllEntries(utilization, used, free, now));
      forall i, j | 0 <= i < j < |r| :: (r[i].node, r[i].device) != (r[j].node, r[j].device)
  {
    var entries := AllEntries(utilization, used, free, now);
    var r, keys := Devices(entries), PairOrder(entries.Keys);
    DevicesExact(utilization, used, free, now);
    PairBeforeIsTotal();
    forall i, j | 0 <= i < j < |r| ensures (r[i].node, r[i].device) != (r[j].node, r[j].device) {
      assert PairBefore(keys[i], keys[j]);
      assert keys[i] == (r[i].node, r[i].device) && keys[j] == (r[j].node, r[j].device);
    }
  }

  // --------------------------------------------------------------------- origins

  /** Two series have the same labels, their names apart. */
  ghost predicate SameLabels(s: Series, t: Series) {
    && s.labels.Some? && t.labels.Some?
    && forall name | name != "__name__" ::
         && (name in s.labels.value <==> name in t.labels.value)
         && (name in s.labels.value ==> s.labels.value[name] == t.labels.value[name])
  }

  lemma IdentityExact(s: Series, t: Series)
    ensures SameLabels(s, t) <==> Identity(s).Some? && Identity(s) == Identity(t)
  {
    if s.labels.Some? && t.labels.Some? {
      var a, b := s.labels.value - {"__name__"}, t.labels.value - {"__name__"};
      forall name | name != "__name__"
        ensures (name in a <==> name in s.labels.value) && (name in b <==> name in t.labels.value)
      {
      }
      if SameLabels(s, t) {
        assert forall name :: name in a <==> name in b;
        assert a == b;
      }
      if a == b {
        forall name | name != "__name__"
          ensures name in s.labels.value <==> name in t.labels.value
          ensures name in s.labels.value ==> s.labels.value[name] == t.labels.value[name]
        {
          assert name in s.labels.value ==> a[name] == b[name];
        }
      }
    }
  }

  /** The series belongs to a GPU or MIG instance of a node: `k` is the node and the device's printed name. */
  ghost predicate Names(labels: map<string, string>, k: Key) {
    && "Hostname" in labels && k.0 == Trim(labels["Hostname"]) && k.0 != ""
    && "UUID" in labels && Trim(labels["UUID"]) != ""
    && var profile := if "GPU_I_PROFILE" in labels then labels["GPU_I_PROFILE"] else "";
    if "GPU_I_ID" !in labels || labels["GPU_I_ID"] == "" then k.1 == Trim(labels["UUID"])
    else k.1 == Trim(labels["UUID"]) + " (MIG " + profile + " instance " + labels["GPU_I_ID"] + ")"
  }

  /** A series counts for a device exactly when its labels name it, and it has a value of a fresh time. */
  lemma SampleExact(s: Series, now: real, k: Key, value: real)
    ensures Sample(s, now) == Some((k, value)) <==>
            && s.labels.Some? && Names(s.labels.value, k) && s.value == Some(value)
            && s.time.Some? && now - 120.0 <= s.time.value <= now + 30.0
  {
    if s.labels.Some? && Names(s.labels.value, k) {
      assert k == (k.0, k.1);
    }
  }

  predicate InRange(kind: Kind, value: real) {
    match kind
    case Utilization => 0.0 <= value <= 100.0
    case _ => 0.0 <= value <= 17592186044415.0
  }

  lemma RangeExact(kind: Kind, value: real)
    ensures Accepts(kind, value) <==> InRange(kind, value)
  {
    assert (U64_LIMIT - 1) / MIB == 17592186044415;
  }

  /** The number was reported for this device, in the range of its kind, by a series that was scraped at a fresh time. */
  ghost predicate Traces(values: seq<Series>, timestamps: seq<Series>, kind: Kind, now: real, k: Key, value: real) {
    exists i, j | 0 <= i < |values| && 0 <= j < |timestamps| ::
      && SameLabels(values[i], timestamps[j])
      && timestamps[j].value.Some? && now - 120.0 <= timestamps[j].value.value <= now + 30.0
      && Names(values[i].labels.value, k) && values[i].value == Some(value) && InRange(kind, value)
  }

  lemma {:induction false} TimesTrace(timestamps: seq<Series>, now: real, id: map<string, string>)
    requires id in SourceTimes(timestamps, now)
    ensures exists j | 0 <= j < |timestamps| ::
              Identity(timestamps[j]) == Some(id) && timestamps[j].value == Some(SourceTimes(timestamps, now)[id]) &&
              Fresh(SourceTimes(timestamps, now)[id], now)
  {
    var n := |timestamps| - 1;
    var last := timestamps[n];
    if Identity(last) == Some(id) && last.value.Some? && Fresh(last.value.value, now) {
      assert timestamps[n] == last;
    } else {
      TimesTrace(timestamps[..n], now, id);
      var j :| 0 <= j < n && Identity(timestamps[..n][j]) == Some(id) &&
        timestamps[..n][j].value == Some(SourceTimes(timestamps, now)[id]) && Fresh(SourceTimes(timestamps, now)[id], now);
      assert timestamps[j] == timestamps[..n][j];
    }
  }

  lemma {:induction false} JoinTraces(values: seq<Series>, times: map<map<string, string>, real>, s: Series)
    requires s in WithTimes(values, times)
    ensures exists i | 0 <= i < |values| ::
              Identity(values[i]).Some? && Identity(values[i]).value in times &&
              s == values[i].(time := Some(times[Identity(values[i]).value]))
  {
    var n := |values| - 1;
    if s in WithTimes(values[..n], times) {
      JoinTraces(values[..n], times, s);
      var i :| 0 <= i < n && Identity(values[..n][i]).Some? && Identity(values[..n][i]).value in times &&
        s == values[..n][i].(time := Some(times[Identity(values[..n][i]).value]));
      assert values[i] == values[..n][i];
    } else {
      assert s == values[n].(time := Some(times[Identity(values[n]).value]));
    }
  }

  lemma {:induction false} LastTraces(series: seq<Series>, kind: Kind, now: real, k: Key)
    requires LastOf(series, kind, now, k).Some?
    ensures exists s | s in series ::
              Sample(s, now) == Some((k, LastOf(series, kind, now, k).value)) &&
              Accepts(kind, LastOf(series, kind, now, k).value)
  {
    var n := |series| - 1;
    var sample := Sample(series[n], now);
    if sample.Some? && sample.value.0 == k && Accepts(kind, sample.value.1) {
      assert series[n] in series;
    } else {
      LastTraces(series[..n], kind, now, k);
      var s :| s in series[..n] && Sample(s, now) == Some((k, LastOf(series, kind, now, k).value)) &&
        Accepts(kind, LastOf(series, kind, now, k).value);
      assert s in series;
    }
  }

  /** Every number used for a device was scraped for that device between 120 seconds ago and 30 seconds ahead. */
  lemma NumbersTrace(values: seq<Series>, timestamps: seq<Series>, kind: Kind, now: real, k: Key)
    ensures var last := LastOf(WithTimes(values, SourceTimes(timestamps, now)), kind, now, k);
      last.Some? ==> Traces(values, timestamps, kind, now, k, last.value)
  {
    var times := SourceTimes(timestamps, now);
    var joined := WithTimes(values, times);
    var last := LastOf(joined, kind, now, k);
    if last.Some? {
      LastTraces(joined, kind, now, k);
      var s :| s in joined && Sample(s, now) == Some((k, last.value)) && Accepts(kind, last.value);
      JoinTraces(values, times, s);
      var i :| 0 <= i < |values| && Identity(values[i]).Some? && Identity(values[i]).value in times &&
        s == values[i].(time := Some(times[Identity(values[i]).value]));
      TimesTrace(timestamps, now, Identity(values[i]).value);
      var j :| 0 <= j < |timestamps| && Identity(timestamps[j]) == Identity(values[i]) &&
        timestamps[j].value == s.time && Fresh(s.time.value, now);
      IdentityExact(values[i], timestamps[j]);
      SampleExact(s, now, k, last.value);
      RangeExact(kind, last.value);
    }
  }

  // ------------------------------------------------------------- what the join keeps

  /** The fresh timestamp series with the same labels that comes last. */
  ghost predicate LastScrape(timestamps: seq<Series>, now: real, s: Series, j: int) {
    && 0 <= j < |timestamps| && Scrapes(timestamps[j], now, s)
    && forall l | j < l < |timestamps| :: !Scrapes(timestamps[l], now, s)
  }

  ghost predicate Scrapes(t: Series, now: real, s: Series) {
    SameLabels(s, t) && t.value.Some? && now - 120.0 <= t.value.value <= now + 30.0
  }

  lemma {:induction false} TimeKnown(timestamps: seq<Series>, now: real, s: Series) returns (j: int)
    requires s.labels.Some?
    ensures if j < 0 then forall l | 0 <= l < |timestamps| :: !Scrapes(timestamps[l], now, s)
            else LastScrape(timestamps, now, s, j)
    ensures j >= 0 <==> Identity(s).value in SourceTimes(timestamps, now)
    ensures j >= 0 ==> SourceTimes(timestamps, now)[Identity(s).value] == timestamps[j].value.value
  {
    if timestamps == [] {
      j := -1;
    } else {
      var n := |timestamps| - 1;
      IdentityExact(s, timestamps[n]);
      if Scrapes(timestamps[n], now, s) {
        j := n;
      } else {
        j := TimeKnown(timestamps[..n], now, s);
        assert forall l | 0 <= l < n :: timestamps[..n][l] == timestamps[l];
      }
    }
  }

  /** What becomes of one value series: it carries the time of its last fresh scrape, or is dropped without any. */
  ghost predicate Joined(timestamps: seq<Series>, now: real, s: Series, r: seq<Series>) {
    if exists l | 0 <= l < |timestamps| :: Scrapes(timestamps[l], now, s)
    then exists j :: LastScrape(timestamps, now, s, j) && r == [s.(time := timestamps[j].value)]
    else r == []
  }

  /** Values keep their order; each is kept exactly when a fresh scrape of the same labels is known, with the time of that. */
  lemma JoinExact(values: seq<Series>, s: Series, timestamps: seq<Series>, now: real)
    ensures var times := SourceTimes(timestamps, now);
      WithTimes(values + [s], times) == WithTimes(values, times) + WithTimes([s], times)
    ensures Joined(timestamps, now, s, WithTimes([s], SourceTimes(timestamps, now)))
  {
    var times := SourceTimes(timestamps, now);
    assert (values + [s])[..|values|] == values && [s][..0] == [];
    if s.labels.Some? {
      var j := TimeKnown(timestamps, now, s);
      if j >= 0 {
        assert Scrapes(timestamps[j], now, s);
      }
    }
  }

  /** A byte count is that of a number of MiB with a fresh origin, and leaves 64 bits no smaller than a MiB. */
  ghost predicate BytesTrace(values: seq<Series>, timestamps: seq<Series>, kind: Kind, now: real, k: Key, bytes: int) {
    0 <= bytes <= U64_LIMIT - MIB && exists v :: Bytes(v) == bytes && Traces(values, timestamps, kind, now, k, v)
  }

  lemma MemoryTraces(values: seq<Series>, timestamps: seq<Series>, kind: Kind, now: real, k: Key)
    requires kind != Utilization
    ensures var last := BytesOf(LastOf(WithTimes(values, SourceTimes(timestamps, now)), kind, now, k));
      last.Some? ==> BytesTrace(values, timestamps, kind, now, k, last.value)
  {
    var last := LastOf(WithTimes(values, SourceTimes(timestamps, now)), kind, now, k);
    NumbersTrace(values, timestamps, kind, now, k);
    if last.Some? {
      BytesFit(last.value);
      assert Bytes(last.value) == BytesOf(last).value;
    }
  }

  /** The three value queries with their three timestamp queries. */
  datatype Queries = Queries(
    utilization: seq<Series>, utilizationTimes: seq<Series>, used: seq<Series>, usedTimes: seq<Series>,
    free: seq<Series>, freeTimes: seq<Series>)

  function Report(q: Queries, now: real): seq<Device> {
    Devices(AllEntries(
      WithTimes(q.utilization, SourceTimes(q.utilizationTimes, now)), WithTimes(q.used, SourceTimes(q.usedTimes, now)),
      WithTimes(q.free, SourceTimes(q.freeTimes, now)), now))
  }

  /**
   * From query results to report: utilisation is a percentage and used memory at most 2^64 - 2^20 bytes, and both trace
   * to a fresh scrape of the same device; so do the two numbers behind a total.
   */
  lemma ReportSound(q: Queries, now: real, i: nat)
    requires i < |Report(q, now)|
    ensures var d := Report(q, now)[i];
      d.utilization.Some? ==>
        Traces(q.utilization, q.utilizationTimes, Utilization, now, (d.node, d.device), d.utilization.value)
    ensures var d := Report(q, now)[i];
      d.used.Some? ==> BytesTrace(q.used, q.usedTimes, Used, now, (d.node, d.device), d.used.value)
    ensures var d := Report(q, now)[i];
      d.total.Some? ==> (d.used.Some? && d.total.value < U64_LIMIT &&
        BytesTrace(q.free, q.freeTimes, Free, now, (d.node, d.device), d.total.value - d.used.value))
  {
    var a := WithTimes(q.utilization, SourceTimes(q.utilizationTimes, now));
    var b, c := WithTimes(q.used, SourceTimes(q.usedTimes, now)), WithTimes(q.free, SourceTimes(q.freeTimes, now));
    var d, k := Report(q, now)[i], PairOrder(AllEntries(a, b, c, now).Keys)[i];
    DevicesExact(a, b, c, now);
    assert Describes(d, k, a, b, c, now);
    assert k == (d.node, d.device);
    NumbersTrace(q.utilization, q.utilizationTimes, Utilization, now, k);
    MemoryTraces(q.used, q.usedTimes, Used, now, k);
    MemoryTraces(q.free, q.freeTimes, Free, now, k);
  }

  /** Two legal memory readings whose sum does not fit have no total. */
  lemma TotalCanOverflow()
    ensures var top := ((U64_LIMIT - 1) / MIB) as real; IsMib(top) && Bytes(top) + Bytes(top) >= U64_LIMIT
  {
  }

  // ---------------------------------------------------------------- device names

  /** While UUIDs and profiles hold no blank, a device name stands for one GPU or one MIG instance of it. */
  lemma DeviceNamesInjective(
    uuid: string, profile: string, instance: string, uuid': string, profile': string, instance': string)
    requires ' ' !in uuid && ' ' !in profile && ' ' !in uuid' && ' ' !in profile'
    ensures DeviceName(uuid, profile, instance) == DeviceName(uuid', profile', instance') <==>
            uuid == uuid' && instance == instance' && (instance != "" ==> profile == profile')
  {
    var name, name' := DeviceName(uuid, profile, instance), DeviceName(uuid', profile', instance');
    if name == name' {
      NameParts(uuid, profile, instance);
      NameParts(uuid', profile', instance');
      InstanceOf(instance);
      InstanceOf(instance');
    }
  }

  lemma InstanceOf(instance: string)
    ensures var tail := "instance " + instance + ")"; |tail| >= 10 && tail[9..|tail| - 1] == instance
  {
  }

  lemma NameParts(uuid: string, profile: string, instance: string)
    requires ' ' !in uuid && ' ' !in profile
    ensures var cut := SplitOnce(DeviceName(uuid, profile, instance), ' ');
      if instance == "" then cut.None?
      else
        && cut.Some? && cut.value.0 == uuid && |cut.value.1| >= 5
        && SplitOnce(cut.value.1[5..], ' ') == Some((profile, "instance " + instance + ")"))
  {
    if instance != "" {
      var tail := "instance " + instance + ")";
      var rest := "(MIG " + (profile + " " + tail);
      assert DeviceName(uuid, profile, instance) == uuid + " " + rest;
      SplitOnceAt(uuid, ' ', rest);
      assert rest[5..] == profile + " " + tail;
      SplitOnceAt(profile, ' ', tail);
    }
  }
}
