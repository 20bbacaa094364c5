/** Flow and byte time series per destination class. */
module FlowSeries {
  import opened Common
  import opened Ordering
  import opened FlowTotals

  datatype Point = Point(t: int, flows: real, bytes: real)

  /** A timestamp and a value; None for a pair that does not parse. */
  type Sample = Option<(int, real)>

  /** One range-query row; `values` is None when the row carries no list. */
  datatype SeriesRow = SeriesRow(destination: string, className: string, values: Option<seq<Sample>>)

  // ------------------------------------------------------------------- points

  ghost predicate StrictlySorted(points: seq<Point>) {
    forall i, j | 0 <= i < j < |points| :: points[i].t < points[j].t
  }

  function IndexOfTime(points: seq<Point>, t: int): (r: Option<nat>)
    ensures r.Some? ==> r.value < |points| && points[r.value].t == t && forall j | 0 <= j < r.value :: points[j].t != t
    ensures r.None? ==> forall p | p in points :: p.t != t
  {
    if points == [] then None
    else if points[0].t == t then Some(0)
    else
      var rest := IndexOfTime(points[1..], t);
      assert points == [points[0]] + points[1..];
      if rest.None? then None else Some(rest.value + 1)
  }

  function AddSample(points: seq<Point>, sample: (int, real)): seq<Point> {
    var (t, value) := sample;
    match IndexOfTime(points, t)
    case Some(i) => points[i := points[i].(bytes := points[i].bytes + value)]
    case None => points + [Point(t, 0.0, value)]
  }

  /** Each well-formed pair is added to the point at its time, or becomes a point of its own. */
  function AddSamples(points: seq<Point>, samples: seq<Sample>): seq<Point> {
    if samples == [] then points
    else
      var n := |samples| - 1;
      var before := AddSamples(points, samples[..n]);
      if samples[n].None? then before else AddSample(before, samples[n].value)
  }

  /** Where a stable sort places a point that comes last. */
  function InsertPoint(sorted: seq<Point>, p: Point): seq<Point> {
    if sorted == [] || sorted[|sorted| - 1].t <= p.t then sorted + [p]
    else InsertPoint(sorted[..|sorted| - 1], p) + [sorted[|sorted| - 1]]
  }

  /** `sort_by_key` on the timestamp, which is stable. */
  function SortByTime(points: seq<Point>): seq<Point> {
    if points == [] then [] else InsertPoint(SortByTime(points[..|points| - 1]), points[|points| - 1])
  }

  function MergeBytePoints(points: seq<Point>, row: SeriesRow): seq<Point> {
    if row.values.None? then points else SortByTime(AddSamples(points, row.values.value))
  }

  // ------------------------------------------------------- series as finite maps

  /** The simple reference: flow and byte rate by timestamp. */
  function AsMap(points: seq<Point>): map<int, (real, real)> {
    if points == [] then map[]
    else
      var last := points[|points| - 1];
      AsMap(points[..|points| - 1])[last.t := (last.flows, last.bytes)]
  }

  /** Adds a byte value at a time; a new time starts with no flows. */
  function AddAt(m: map<int, (real, real)>, t: int, value: real): map<int, (real, real)> {
    if t in m then m[t := (m[t].0, m[t].1 + value)] else m[t := (0.0, value)]
  }

  function AddAll(m: map<int, (real, real)>, samples: seq<Sample>): map<int, (real, real)> {
    if samples == [] then m
    else
      var n := |samples| - 1;
      var before := AddAll(m, samples[..n]);
      if samples[n].None? then before else AddAt(before, samples[n].value.0, samples[n].value.1)
  }

  ghost predicate DistinctTimes(points: seq<Point>) {
    forall i, j | 0 <= i < j < |points| :: points[i].t != points[j].t
  }

  lemma {:induction false} AsMapExact(points: seq<Point>)
    requires DistinctTimes(points)
    ensures forall i | 0 <= i < |points| ::
      points[i].t in AsMap(points) && AsMap(points)[points[i].t] == (points[i].flows, points[i].bytes)
    ensures forall t | t in AsMap(points) :: exists i :: 0 <= i < |points| && points[i].t == t
  {
    if points != [] {
      var n := |points| - 1;
      AsMapExact(points[..n]);
      forall t | t in AsMap(points) ensures exists i :: 0 <= i < |points| && points[i].t == t {
        if t == points[n].t {
          assert 0 <= n < |points|;
        } else {
          var i :| 0 <= i < n && points[..n][i].t == t;
          assert points[i].t == t;
        }
      }
    }
  }

  /** A list with distinct times whose points are exactly the entries of a map. */
  ghost predicate Represents(points: seq<Point>, m: map<int, (real, real)>) {
    && DistinctTimes(points)
    && (forall p | p in points :: p.t in m && m[p.t] == (p.flows, p.bytes))
    && (forall t | t in m :: Point(t, m[t].0, m[t].1) in points)
  }

  lemma RepresentsAsMap(points: seq<Point>)
    requires DistinctTimes(points)
    ensures Represents(points, AsMap(points))
  {
    var m := AsMap(points);
    AsMapExact(points);
    forall t | t in m ensures Point(t, m[t].0, m[t].1) in points {
      var i :| 0 <= i < |points| && points[i].t == t;
      assert points[i] == Point(t, m[t].0, m[t].1);
    }
  }

  lemma SampleRefines(points: seq<Point>, m: map<int, (real, real)>, sample: (int, real))
    requires Represents(points, m)
    ensures Represents(AddSample(points, sample), AddAt(m, sample.0, sample.1))
  {
    var (t, value) := sample;
    var r, n := AddSample(points, sample), AddAt(m, t, value);
    match IndexOfTime(points, t) {
      case Some(i) =>
        assert points[i] in points;
        forall u | u in n ensures Point(u, n[u].0, n[u].1) in r {
          if u == t {
            assert r[i] == Point(u, n[u].0, n[u].1);
          } else {
            var j :| 0 <= j < |points| && points[j] == Point(u, m[u].0, m[u].1);
            assert r[j] == points[j];
          }
        }
        forall p | p in r ensures p.t in n && n[p.t] == (p.flows, p.bytes) {
          var j :| 0 <= j < |r| && r[j] == p;
          assert points[j] in points;
        }
      case None =>
        assert forall u | u in m :: Point(u, m[u].0, m[u].1) in points && u != t;
        assert r[|points|] == Point(t, 0.0, value);
        forall i, j | 0 <= i < j < |r| ensures r[i].t != r[j].t {
          assert points[i] in points;
        }
    }
  }

  lemma {:induction false} SamplesRefine(points: seq<Point>, m: map<int, (real, real)>, samples: seq<Sample>)
    requires Represents(points, m)
    ensures Represents(AddSamples(points, samples), AddAll(m, samples))
  {
    if samples != [] {
      var n := |samples| - 1;
      SamplesRefine(points, m, samples[..n]);
      if samples[n].Some? {
        SampleRefines(AddSamples(points, samples[..n]), AddAll(m, samples[..n]), samples[n].value);
      }
    }
  }

  // ------------------------------------------------------------------ sorting

  ghost predicate TimesAscend(points: seq<Point>) {
    forall i, j | 0 <= i < j < |points| :: points[i].t <= points[j].t
  }

  lemma {:induction false} InsertCounts(sorted: seq<Point>, p: Point)
    ensures multiset(InsertPoint(sorted, p)) == multiset(sorted) + multiset{p}
  {
    if sorted != [] && sorted[|sorted| - 1].t > p.t {
      var n := |sorted| - 1;
      InsertCounts(sorted[..n], p);
      assert sorted == sorted[..n] + [sorted[n]];
    }
  }

  lemma {:induction false} InsertSorts(sorted: seq<Point>, p: Point)
    requires TimesAscend(sorted)
    ensures TimesAscend(InsertPoint(sorted, p))
    ensures forall q | q in InsertPoint(sorted, p) :: q == p || q in sorted
  {
    if sorted != [] && sorted[|sorted| - 1].t > p.t {
      var n := |sorted| - 1;
      InsertSorts(sorted[..n], p);
      var r := InsertPoint(sorted[..n], p);
      assert forall i | 0 <= i < |r| :: r[i] in r;
    }
  }

  /** The sort permutes the points into time order. */
  lemma {:induction false} SortSorts(points: seq<Point>)
    ensures TimesAscend(SortByTime(points))
    ensures multiset(SortByTime(points)) == multiset(points)
  {
    if points != [] {
      var n := |points| - 1;
      SortSorts(points[..n]);
      InsertSorts(SortByTime(points[..n]), points[n]);
      InsertCounts(SortByTime(points[..n]), points[n]);
      CountsSnoc(points, n);
    }
  }

  lemma CountsSnoc(points: seq<Point>, n: nat)
    requires |points| == n + 1
    ensures multiset(points) == multiset(points[..n]) + multiset{points[n]}
  {
    assert points == points[..n] + [points[n]];
  }

  lemma SameMembers(a: seq<Point>, b: seq<Point>)
    requires multiset(a) == multiset(b)
    ensures forall p :: p in a <==> p in b
  {
    forall p ensures p in a <==> p in b {
      assert p in a <==> p in multiset(a);
      assert p in b <==> p in multiset(b);
    }
  }

  lemma TwoCopies(b: seq<Point>, i: nat, j: nat)
    requires i < j < |b| && b[i] == b[j]
    ensures multiset(b)[b[i]] >= 2
  {
    WithoutCounts(b, j);
    assert Without(b, j)[i] == b[i];
    assert b[i] in multiset(Without(b, j));
  }

  lemma {:induction false} OneCopy(a: seq<Point>, p: Point)
    requires DistinctTimes(a)
    ensures multiset(a)[p] <= 1
  {
    if a != [] {
      var n := |a| - 1;
      OneCopy(a[..n], p);
      assert a == a[..n] + [a[n]];
      if a[n] == p {
        assert p !in a[..n];
      }
    }
  }

  lemma AtMostOneAt(a: seq<Point>, p: Point, q: Point)
    requires DistinctTimes(a) && p in a && q in a && p.t == q.t
    ensures p == q
  {
  }

  lemma DistinctPermuted(a: seq<Point>, b: seq<Point>)
    requires multiset(a) == multiset(b) && DistinctTimes(a)
    ensures DistinctTimes(b)
  {
    SameMembers(a, b);
    forall i, j | 0 <= i < j < |b| ensures b[i].t != b[j].t {
      assert b[i] in a && b[j] in a;
      OneCopy(a, b[i]);
      if b[i] == b[j] {
        TwoCopies(b, i, j);
      } else if b[i].t == b[j].t {
        AtMostOneAt(a, b[i], b[j]);
      }
    }
  }

  lemma SortKeepsMap(points: seq<Point>, m: map<int, (real, real)>)
    requires Represents(points, m)
    ensures Represents(SortByTime(points), m) && StrictlySorted(SortByTime(points))
  {
    SortSorts(points);
    DistinctPermuted(points, SortByTime(points));
    SameMembers(points, SortByTime(points));
  }

  lemma RepresentedMapUnique(points: seq<Point>, m: map<int, (real, real)>)
    requires Represents(points, m)
    ensures AsMap(points) == m
  {
    var n := AsMap(points);
    RepresentsAsMap(points);
    forall t ensures t in m <==> t in n {
      if t in m {
        assert Point(t, m[t].0, m[t].1) in points;
      }
      if t in n {
        assert Point(t, n[t].0, n[t].1) in points;
      }
    }
    forall t | t in m ensures m[t] == n[t] {
      assert Point(t, m[t].0, m[t].1) in points;
    }
  }

  /** Merging byte samples into a strictly sorted series keeps it so, and refines map addition. */
  lemma MergeRefines(points: seq<Point>, row: SeriesRow)
    requires StrictlySorted(points)
    ensures StrictlySorted(MergeBytePoints(points, row))
    ensures AsMap(MergeBytePoints(points, row)) == AddAll(AsMap(points), row.values.GetOr([]))
  {
    var m := AsMap(points);
    RepresentsAsMap(points);
    if row.values.Some? {
      SamplesRefine(points, m, row.values.value);
      SortKeepsMap(AddSamples(points, row.values.value), AddAll(m, row.values.value));
      RepresentedMapUnique(MergeBytePoints(points, row), AddAll(m, row.values.value));
    }
  }

  // --------------------------------------------------------- sums per timestamp

  predicate HasTime(samples: seq<Sample>, t: int) {
    exists i | 0 <= i < |samples| :: samples[i].Some? && samples[i].value.0 == t
  }

  /** The well-formed values of one timestamp, added up. */
  function SumAt(samples: seq<Sample>, t: int): real {
    if samples == [] then 0.0
    else
      var n := |samples| - 1;
      SumAt(samples[..n], t) + if samples[n].Some? && samples[n].value.0 == t then samples[n].value.1 else 0.0
  }

  function SampleSum(samples: seq<Sample>): real {
    if samples == [] then 0.0
    else
      var n := |samples| - 1;
      SampleSum(samples[..n]) + if samples[n].Some? then samples[n].value.1 else 0.0
  }

  /** Map addition keeps flows, gives new times no flows, and adds up the values of each time. */
  lemma {:induction false} AddAllExact(m: map<int, (real, real)>, samples: seq<Sample>, t: int)
    ensures t in AddAll(m, samples) <==> t in m || HasTime(samples, t)
    ensures t in AddAll(m, samples) ==>
              AddAll(m, samples)[t] == (if t in m then m[t].0 else 0.0, (if t in m then m[t].1 else 0.0) + SumAt(samples, t))
    ensures !HasTime(samples, t) ==> SumAt(samples, t) == 0.0
  {
    if samples != [] {
      var n := |samples| - 1;
      AddAllExact(m, samples[..n], t);
      assert forall i | 0 <= i < n :: samples[..n][i] == samples[i];
      assert HasTime(samples, t) <==> HasTime(samples[..n], t) || (samples[n].Some? && samples[n].value.0 == t);
    }
  }

  function TotalBytes(points: seq<Point>): real {
    if points == [] then 0.0 else TotalBytes(points[..|points| - 1]) + points[|points| - 1].bytes
  }

  lemma {:induction false} TotalAfterUpdate(points: seq<Point>, i: nat, value: real)
    requires i < |points|
    ensures TotalBytes(points[i := points[i].(bytes := points[i].bytes + value)]) == TotalBytes(points) + value
  {
    var n := |points| - 1;
    var r := points[i := points[i].(bytes := points[i].bytes + value)];
    if i == n {
      assert r[..n] == points[..n];
    } else {
      assert r[..n] == points[..n][i := points[i].(bytes := points[i].bytes + value)];
      TotalAfterUpdate(points[..n], i, value);
    }
  }

  lemma {:induction false} TotalAfterSamples(points: seq<Point>, samples: seq<Sample>)
    ensures TotalBytes(AddSamples(points, samples)) == TotalBytes(points) + SampleSum(samples)
  {
    if samples != [] {
      var n := |samples| - 1;
      TotalAfterSamples(points, samples[..n]);
      if samples[n].Some? {
        var before := AddSamples(points, samples[..n]);
        var (t, value) := samples[n].value;
        match IndexOfTime(before, t)
        case Some(i) => TotalAfterUpdate(before, i, value);
        case None => assert (before + [Point(t, 0.0, value)])[..|before|] == before;
      }
    }
  }

  lemma {:induction false} TotalAfterInsert(sorted: seq<Point>, p: Point)
    ensures TotalBytes(InsertPoint(sorted, p)) == TotalBytes(sorted) + p.bytes
  {
    var r := InsertPoint(sorted, p);
    if sorted != [] && sorted[|sorted| - 1].t > p.t {
      var n := |sorted| - 1;
      TotalAfterInsert(sorted[..n], p);
      assert r[..|r| - 1] == InsertPoint(sorted[..n], p);
    } else {
      assert r[..|r| - 1] == sorted;
    }
  }

  lemma {:induction false} TotalAfterSort(points: seq<Point>)
    ensures TotalBytes(SortByTime(points)) == TotalBytes(points)
  {
    if points != [] {
      var n := |points| - 1;
      TotalAfterSort(points[..n]);
      TotalAfterInsert(SortByTime(points[..n]), points[n]);
    }
  }

  // ----------------------------------------------------------- series over many rows

  /** A series after the byte rows of one class, or of every row when there is no class to match. */
  function MergeRows(points: seq<Point>, rows: seq<SeriesRow>, c: Option<FlowClass>): seq<Point> {
    if rows == [] then points
    else
      var n := |rows| - 1;
      var before := MergeRows(points, rows[..n], c);
      if c.None? || ClassOfName(rows[n].className) == c then MergeBytePoints(before, rows[n]) else before
  }

  /** The samples of the rows that belong to a class, one after another. */
  function SamplesOf(rows: seq<SeriesRow>, c: Option<FlowClass>): seq<Sample> {
    if rows == [] then []
    else
      var n := |rows| - 1;
      SamplesOf(rows[..n], c) + if c.None? || ClassOfName(rows[n].className) == c then rows[n].values.GetOr([]) else []
  }

  lemma {:induction false} AddAllConcat(m: map<int, (real, real)>, a: seq<Sample>, b: seq<Sample>)
    ensures AddAll(m, a + b) == AddAll(AddAll(m, a), b)
    ensures SampleSum(a + b) == SampleSum(a) + SampleSum(b)
  {
    if b == [] {
      assert a + b == a;
    } else {
      assert (a + b)[..|a + b| - 1] == a + b[..|b| - 1];
      AddAllConcat(m, a, b[..|b| - 1]);
    }
  }

  lemma {:induction false} RowsRefine(points: seq<Point>, rows: seq<SeriesRow>, c: Option<FlowClass>)
    requires StrictlySorted(points)
    ensures StrictlySorted(MergeRows(points, rows, c))
    ensures AsMap(MergeRows(points, rows, c)) == AddAll(AsMap(points), SamplesOf(rows, c))
  {
    if rows != [] {
      var n := |rows| - 1;
      RowsRefine(points, rows[..n], c);
      if c.None? || ClassOfName(rows[n].className) == c {
        MergeRefines(MergeRows(points, rows[..n], c), rows[n]);
        AddAllConcat(AsMap(points), SamplesOf(rows[..n], c), rows[n].values.GetOr([]));
      } else {
        assert SamplesOf(rows, c) == SamplesOf(rows[..n], c);
      }
    }
  }

  /**
   * Byte rows leave a strictly sorted series strictly sorted: at every timestamp the flow rate is what it was, or zero
   * for a new timestamp, and the byte rate has grown by exactly the well-formed samples of the class at that time.
   */
  lemma ByteRowsExact(points: seq<Point>, rows: seq<SeriesRow>, c: Option<FlowClass>, t: int)
    requires StrictlySorted(points)
    ensures var was, now := AsMap(points), AsMap(MergeRows(points, rows, c));
      && StrictlySorted(MergeRows(points, rows, c))
      && (t in now <==> t in was || HasTime(SamplesOf(rows, c), t))
      && (t in was ==> now[t] == (was[t].0, was[t].1 + SumAt(SamplesOf(rows, c), t)))
      && (t in now && t !in was ==> now[t] == (0.0, SumAt(SamplesOf(rows, c), t)))
  {
    RowsRefine(points, rows, c);
    AddAllExact(AsMap(points), SamplesOf(rows, c), t);
  }

  /** On any series, sorted or not, total bytes grow by exactly the well-formed samples of the class. */
  lemma {:induction false} BytesConserved(points: seq<Point>, rows: seq<SeriesRow>, c: Option<FlowClass>)
    ensures TotalBytes(MergeRows(points, rows, c)) == TotalBytes(points) + SampleSum(SamplesOf(rows, c))
  {
    if rows != [] {
      var n := |rows| - 1;
      var before := MergeRows(points, rows[..n], c);
      BytesConserved(points, rows[..n], c);
      AddAllConcat(map[], SamplesOf(rows[..n], c), rows[n].values.GetOr([]));
      if rows[n].values.Some? {
        TotalAfterSamples(before, rows[n].values.value);
        TotalAfterSort(AddSamples(before, rows[n].values.value));
      }
      if c.Some? && ClassOfName(rows[n].className) != c {
        assert SamplesOf(rows, c) == SamplesOf(rows[..n], c);
      }
    }
  }

  /** A strictly sorted series is determined by its map. */
  lemma {:induction false} SeriesUnique(a: seq<Point>, b: seq<Point>)
    requires StrictlySorted(a) && StrictlySorted(b) && AsMap(a) == AsMap(b)
    ensures a == b
  {
    RepresentsAsMap(a);
    RepresentsAsMap(b);
    forall p ensures p in a <==> p in b {
      if p in a {
        assert Point(p.t, AsMap(b)[p.t].0, AsMap(b)[p.t].1) in b;
      }
      if p in b {
        assert Point(p.t, AsMap(a)[p.t].0, AsMap(a)[p.t].1) in a;
      }
    }
    SameListInOrder(a, b);
  }

  lemma {:induction false} SameListInOrder(a: seq<Point>, b: seq<Point>)
    requires StrictlySorted(a) && StrictlySorted(b) && forall p :: p in a <==> p in b
    ensures a == b
  {
    assert b != [] ==> b[0] in b;
    if a != [] {
      assert a[0] in b && b != [];
      assert b[0] in a && a[0] == b[0];
      forall p ensures p in a[1..] <==> p in b[1..] {
        assert p in a <==> p == a[0] || p in a[1..];
        assert p in b <==> p == b[0] || p in b[1..];
      }
      SameListInOrder(a[1..], b[1..]);
    }
  }

  // ------------------------------------------------------------ building from flow rows

  function AddFlows(m: map<int, real>, samples: seq<Sample>): map<int, real> {
    if samples == [] then m
    else
      var n := |samples| - 1;
      var before := AddFlows(m, samples[..n]);
      if samples[n].None? then before
      else
        var (t, value) := samples[n].value;
        before[t := (if t in before then before[t] else 0.0) + value]
  }

  predicate FeedsClass(row: SeriesRow, classify: Classify, c: FlowClass) {
    classify(row.destination) == Some(c) && row.values.Some?
  }

  /** The per-timestamp sums of a class; None when no row feeds the class. */
  function Bucket(rows: seq<SeriesRow>, classify: Classify, c: FlowClass): Option<map<int, real>> {
    if rows == [] then None
    else
      var n := |rows| - 1;
      var before := Bucket(rows[..n], classify, c);
      if FeedsClass(rows[n], classify, c) then Some(AddFlows(before.GetOr(map[]), rows[n].values.value)) else before
  }

  function FlowSamples(rows: seq<SeriesRow>, classify: Classify, c: FlowClass): seq<Sample> {
    if rows == [] then []
    else
      var n := |rows| - 1;
      FlowSamples(rows[..n], classify, c) + if FeedsClass(rows[n], classify, c) then rows[n].values.value else []
  }

  /** A bucket walked in time order. */
  function PointsOf(bucket: map<int, real>): (r: seq<Point>)
    ensures |r| == |InOrder(bucket.Keys)|
    ensures forall i | 0 <= i < |r| ::
      r[i].t == InOrder(bucket.Keys)[i] && r[i].t in bucket && r[i] == Point(r[i].t, bucket[r[i].t], 0.0)
  {
    var times := InOrder(bucket.Keys);
    assert forall i | 0 <= i < |times| :: times[i] in times;
    seq(|times|, i requires 0 <= i < |times| => Point(times[i], bucket[times[i]], 0.0))
  }

  /** The series of a class after `absorb_series`: replaced when some row feeds the class, otherwise left alone. */
  function Absorbed(points: seq<Point>, rows: seq<SeriesRow>, classify: Classify, c: FlowClass): seq<Point> {
    match Bucket(rows, classify, c)
    case None => points
    case Some(bucket) => PointsOf(bucket)
  }

  lemma {:induction false} AddFlowsExact(m: map<int, real>, samples: seq<Sample>, t: int)
    ensures t in AddFlows(m, samples) <==> t in m || HasTime(samples, t)
    ensures t in AddFlows(m, samples) ==> AddFlows(m, samples)[t] == (if t in m then m[t] else 0.0) + SumAt(samples, t)
    ensures !HasTime(samples, t) ==> SumAt(samples, t) == 0.0
  {
    if samples != [] {
      var n := |samples| - 1;
      AddFlowsExact(m, samples[..n], t);
      assert forall i | 0 <= i < n :: samples[..n][i] == samples[i];
      assert HasTime(samples, t) <==> HasTime(samples[..n], t) || (samples[n].Some? && samples[n].value.0 == t);
    }
  }

  lemma {:induction false} AddFlowsConcat(m: map<int, real>, a: seq<Sample>, b: seq<Sample>)
    ensures AddFlows(m, a + b) == AddFlows(AddFlows(m, a), b)
  {
    if b == [] {
      assert a + b == a;
    } else {
      assert (a + b)[..|a + b| - 1] == a + b[..|b| - 1];
      AddFlowsConcat(m, a, b[..|b| - 1]);
    }
  }

  lemma {:induction false} BucketAsSamples(rows: seq<SeriesRow>, classify: Classify, c: FlowClass)
    ensures Bucket(rows, classify, c).None? <==> forall row | row in rows :: !FeedsClass(row, classify, c)
    ensures Bucket(rows, classify, c).None? ==> FlowSamples(rows, classify, c) == []
    ensures Bucket(rows, classify, c).Some? ==>
              Bucket(rows, classify, c).value == AddFlows(map[], FlowSamples(rows, classify, c))
  {
    if rows != [] {
      var n := |rows| - 1;
      BucketAsSamples(rows[..n], classify, c);
      assert rows == rows[..n] + [rows[n]];
      if FeedsClass(rows[n], classify, c) {
        AddFlowsConcat(map[], FlowSamples(rows[..n], classify, c), rows[n].values.value);
      } else {
        assert FlowSamples(rows, classify, c) == FlowSamples(rows[..n], classify, c);
      }
    }
  }

  lemma PointsOfExact(bucket: map<int, real>)
    ensures StrictlySorted(PointsOf(bucket))
    ensures AsMap(PointsOf(bucket)) == map t | t in bucket :: (bucket[t], 0.0)
  {
    var points, times := PointsOf(bucket), InOrder(bucket.Keys);
    var m := map t | t in bucket :: (bucket[t], 0.0);
    forall t | t in m ensures Point(t, m[t].0, m[t].1) in points {
      assert t in times;
      var i :| 0 <= i < |times| && times[i] == t;
      assert points[i] == Point(t, m[t].0, m[t].1);
    }
    RepresentedMapUnique(points, m);
  }

  /** Row by row, which samples count for a class: as flows by the destination, as bytes by the row's own class name. */
  lemma SamplesExact(rows: seq<SeriesRow>, row: SeriesRow, classify: Classify, c: FlowClass)
    ensures FlowSamples([], classify, c) == [] == SamplesOf([], None)
    ensures FlowSamples(rows + [row], classify, c) ==
            FlowSamples(rows, classify, c) +
            if classify(row.destination) == Some(c) && row.values.Some? then row.values.value else []
    ensures SamplesOf(rows + [row], Some(c)) ==
            SamplesOf(rows, Some(c)) +
            if row.className == NameOfClass(c) && row.values.Some? then row.values.value else []
    ensures SamplesOf(rows + [row], None) ==
            SamplesOf(rows, None) + if row.values.Some? then row.values.value else []
  {
    assert (rows + [row])[..|rows + [row]| - 1] == rows;
    ClassNamesMeet(row.className, c);
  }

  /**
   * A class that some row feeds becomes strictly sorted, with one point per timestamp of a well-formed sample that
   * carries the sum of that timestamp and no bytes, whatever the series held before; any other class keeps its series.
   */
  lemma AbsorbedExact(points: seq<Point>, rows: seq<SeriesRow>, classify: Classify, c: FlowClass, t: int)
    ensures var r, samples := Absorbed(points, rows, classify, c), FlowSamples(rows, classify, c);
      if exists row | row in rows :: classify(row.destination) == Some(c) && row.values.Some? then
        && StrictlySorted(r)
        && (t in AsMap(r) <==> HasTime(samples, t))
        && (t in AsMap(r) ==> AsMap(r)[t] == (SumAt(samples, t), 0.0))
      else r == points
  {
    BucketAsSamples(rows, classify, c);
    var bucket := Bucket(rows, classify, c);
    if bucket.Some? {
      PointsOfExact(bucket.value);
      AddFlowsExact(map[], FlowSamples(rows, classify, c), t);
    }
  }

  /** Starting from an empty series, absorbing flow rows gives what byte merging relies on. */
  lemma AbsorbedFromEmpty(rows: seq<SeriesRow>, classify: Classify, c: FlowClass)
    ensures StrictlySorted(Absorbed([], rows, classify, c))
  {
    AbsorbedExact([], rows, classify, c, 0);
  }

  /** The samples of the byte rows that carry a class name, one after another. */
  function SamplesNamed(rows: seq<SeriesRow>, name: string): seq<Sample> {
    if rows == [] then []
    else
      var n := |rows| - 1;
      SamplesNamed(rows[..n], name) + if rows[n].className == name then rows[n].values.GetOr([]) else []
  }

  lemma {:induction false} NamedAreOfClass(rows: seq<SeriesRow>, c: FlowClass)
    ensures SamplesNamed(rows, NameOfClass(c)) == SamplesOf(rows, Some(c))
  {
    if rows != [] {
      NamedAreOfClass(rows[..|rows| - 1], c);
      ClassNamesMeet(rows[|rows| - 1].className, c);
    }
  }

  /**
   * Flow rows and byte rows of one class meet in one series, although the first are classified by destination and the
   * second by a name of the exporter's: at each timestamp stand the sum of the class's flow samples and the sum of the
   * byte samples that carry the class's name, and there are points for no other times.
   */
  lemma BytesMeetFlows(flows: seq<SeriesRow>, bytes: seq<SeriesRow>, classify: Classify, c: FlowClass, t: int)
    ensures var r := MergeRows(Absorbed([], flows, classify, c), bytes, Some(c));
      var flowSamples, byteSamples := FlowSamples(flows, classify, c), SamplesNamed(bytes, NameOfClass(c));
      && StrictlySorted(r)
      && (t in AsMap(r) <==> HasTime(flowSamples, t) || HasTime(byteSamples, t))
      && (t in AsMap(r) ==> AsMap(r)[t] == (SumAt(flowSamples, t), SumAt(byteSamples, t)))
  {
    var built := Absorbed([], flows, classify, c);
    AbsorbedExact([], flows, classify, c, t);
    ByteRowsExact(built, bytes, Some(c), t);
    NamedAreOfClass(bytes, c);
    BucketAsSamples(flows, classify, c);
    AddFlowsExact(map[], FlowSamples(flows, classify, c), t);
    if t !in AsMap(built) {
      assert !HasTime(FlowSamples(flows, classify, c), t);
    }
  }

  // ------------------------------------------------------------------ the series object

  method MergePoints(points: seq<Point>, row: SeriesRow) returns (r: seq<Point>)
    ensures r == MergeBytePoints(points, row)
  {
    r := points;
    if row.values.None? {
      return;
    }
    var values := row.values.value;
    for k := 0 to |values|
      invariant r == AddSamples(points, values[..k])
    {
      assert values[..k + 1][..k] == values[..k];
      if values[k].None? {
        continue;
      }
      var (t, value) := values[k].value;
      var found := IndexOfTime(r, t);
      if found.Some? {
        r := r[found.value := r[found.value].(bytes := r[found.value].bytes + value)];
      } else {
        r := r + [Point(t, 0.0, value)];
      }
    }
    assert values[..|values|] == values;
    r := SortByTime(r);
  }

  function CollectedUnder(perClass: map<string, map<int, real>>, name: string): Option<map<int, real>> {
    if name in perClass then Some(perClass[name]) else None
  }

  method AddFlowSamples(bucket: map<int, real>, values: seq<Sample>) returns (r: map<int, real>)
    ensures r == AddFlows(bucket, values)
  {
    r := bucket;
    for k := 0 to |values|
      invariant r == AddFlows(bucket, values[..k])
    {
      assert values[..k + 1][..k] == values[..k];
      if values[k].None? {
        continue;
      }
      var (t, value) := values[k].value;
      if t !in r {
        r := r[t := 0.0];
      }
      r := r[t := r[t] + value];
    }
    assert values[..|values|] == values;
  }

  lemma OneName(c: FlowClass, d: FlowClass)
    ensures NameOfClass(c) == NameOfClass(d) <==> c == d
  {
    ClassNamesMeet(NameOfClass(c), d);
  }

  /** The first loop of `absorb_series`: per-timestamp sums under the names of the classes. */
  method CollectRows(rows: seq<SeriesRow>, classify: Classify) returns (perClass: map<string, map<int, real>>)
    ensures forall c :: Bucket(rows, classify, c) == CollectedUnder(perClass, NameOfClass(c))
  {
    perClass := map[];
    for i := 0 to |rows|
      invariant forall c :: Bucket(rows[..i], classify, c) == CollectedUnder(perClass, NameOfClass(c))
    {
      assert rows[..i + 1][..i] == rows[..i];
      var found := classify(rows[i].destination);
      if found.None? || rows[i].values.None? {
        continue;
      }
      var name := NameOfClass(found.value);
      forall c ensures NameOfClass(c) == name <==> c == found.value {
        OneName(c, found.value);
      }
      var bucket := AddFlowSamples(if name in perClass then perClass[name] else map[], rows[i].values.value);
      perClass := perClass[name := bucket];
    }
    assert rows[..|rows|] == rows;
  }

  class Series {
    var internet: seq<Point>
    var lan: seq<Point>
    var cluster: seq<Point>
    var storage: seq<Point>

    constructor ()
      ensures internet == lan == cluster == storage == []
    {
      internet, lan, cluster, storage := [], [], [], [];
    }

    method AbsorbByteSeries(rows: seq<SeriesRow>)
      modifies this
      ensures internet == MergeRows(old(internet), rows, Some(Internet))
      ensures lan == MergeRows(old(lan), rows, Some(Lan))
      ensures cluster == MergeRows(old(cluster), rows, Some(Cluster))
      ensures storage == old(storage)
    {
      for i := 0 to |rows|
        invariant internet == MergeRows(old(internet), rows[..i], Some(Internet))
        invariant lan == MergeRows(old(lan), rows[..i], Some(Lan))
        invariant cluster == MergeRows(old(cluster), rows[..i], Some(Cluster))
        invariant storage == old(storage)
      {
        assert rows[..i + 1][..i] == rows[..i];
        match ClassOfName(rows[i].className)
        case Some(Internet) => internet := MergePoints(internet, rows[i]);
        case Some(Lan) => lan := MergePoints(lan, rows[i]);
        case Some(Cluster) => cluster := MergePoints(cluster, rows[i]);
        case None =>
      }
      assert rows[..|rows|] == rows;
    }

    method AbsorbStorageSeries(rows: seq<SeriesRow>)
      modifies this`storage
      ensures storage == MergeRows(old(storage), rows, None)
    {
      for i := 0 to |rows|
        invariant storage == MergeRows(old(storage), rows[..i], None)
      {
        assert rows[..i + 1][..i] == rows[..i];
        storage := MergePoints(storage, rows[i]);
      }
      assert rows[..|rows|] == rows;
    }

    method AbsorbSeries(rows: seq<SeriesRow>, classify: Classify)
      modifies this
      ensures internet == Absorbed(old(internet), rows, classify, Internet)
      ensures lan == Absorbed(old(lan), rows, classify, Lan)
      ensures cluster == Absorbed(old(cluster), rows, classify, Cluster)
      ensures storage == old(storage)
    {
      var perClass := CollectRows(rows, classify);
      assert Bucket(rows, classify, Cluster) == CollectedUnder(perClass, "cluster");
      assert Bucket(rows, classify, Internet) == CollectedUnder(perClass, "internet");
      assert Bucket(rows, classify, Lan) == CollectedUnder(perClass, "lan");
      if "cluster" in perClass {
        cluster := PointsOf(perClass["cluster"]);
      }
      if "internet" in perClass {
        internet := PointsOf(perClass["internet"]);
      }
      if "lan" in perClass {
        lan := PointsOf(perClass["lan"]);
      }
    }
  }
}
