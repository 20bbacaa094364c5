/** Merging measured traffic into the edges of the network graph. */
module Topology {
  import opened Common
  import opened Ordering
  import opened FlowTotals

  type Key = (string, string)

  datatype Edge = Edge(
    source: string, target: string, kind: string, port: Option<int>, protocol: Option<string>, text: string,
    flows: Option<real>, bytes: Option<real>, observed: bool)

  function KeyOf(e: Edge): Key {
    (e.source, e.target)
  }

  // ------------------------------------------------------------ observed traffic

  /** `edge_target`: the graph node that a destination label belongs to. */
  function EdgeTarget(destination: string, classify: Classify): Option<string> {
    match classify(destination)
    case None => None
    case Some(Internet) => Some("external")
    case Some(Lan) => Some("lan")
    case Some(Cluster) => if ':' in destination then Some("node") else Some(destination)
  }

  /** Namespace `a` is called like the shared node that `b` belongs to. */
  predicate TakesNodeOf(a: string, b: string, classify: Classify) {
    && classify(a) == Some(Cluster)
    && (|| (a == "external" && classify(b) == Some(Internet))
        || (a == "lan" && classify(b) == Some(Lan))
        || (a == "node" && classify(b) == Some(Cluster) && ':' in b))
  }

  /**
   * Destinations share a node exactly when they are one class other than the cluster, are both cluster identities
   * (with a colon), are the same namespace, or one is a namespace that is called like the other's shared node.
   */
  lemma TargetsApart(a: string, b: string, classify: Classify)
    requires classify(a).Some? && classify(b).Some?
    ensures EdgeTarget(a, classify) == EdgeTarget(b, classify) <==>
            || (classify(a) == classify(b) && (classify(a) != Some(Cluster) || a == b || (':' in a && ':' in b)))
            || TakesNodeOf(a, b, classify) || TakesNodeOf(b, a, classify)
  {
  }

  /** The edge that a row counts for; None for rows that are skipped. */
  function RowKey(row: Row, classify: Classify): Option<Key> {
    match EdgeTarget(row.destination, classify)
    case None => None
    case Some(target) => if row.sample.None? || AppOf(row) == target then None else Some((AppOf(row), target))
  }

  function NewEdge(k: Key): Edge {
    Edge(k.0, k.1, "observed", None, None, "", None, None, false)
  }

  /** Adds a rate to an edge; `show` writes a rate as a label. */
  function AddRate(e: Edge, rate: real, show: real -> string): Edge {
    var total := e.flows.GetOr(0.0) + rate;
    e.(flows := Some(total), observed := true, text := if e.text == "" then show(total) else e.text)
  }

  /** Service edges by their ends; of several edges between the same ends the last one stays. */
  function Keyed(edges: seq<Edge>): map<Key, Edge> {
    if edges == [] then map[]
    else
      var last := edges[|edges| - 1];
      Keyed(edges[..|edges| - 1])[KeyOf(last) := last]
  }

  function EdgeAt(m: map<Key, Edge>, k: Key): Edge {
    if k in m then m[k] else NewEdge(k)
  }

  function AddRows(m: map<Key, Edge>, rows: seq<Row>, classify: Classify, show: real -> string): map<Key, Edge> {
    if rows == [] then m
    else
      var n := |rows| - 1;
      var before := AddRows(m, rows[..n], classify, show);
      match RowKey(rows[n], classify)
      case None => before
      case Some(k) => before[k := AddRate(EdgeAt(before, k), rows[n].sample.value, show)]
  }

  /** The values of a map in key order. */
  function Values(m: map<Key, Edge>): (r: seq<Edge>)
    ensures |r| == |PairOrder(m.Keys)|
    ensures forall i | 0 <= i < |r| :: PairOrder(m.Keys)[i] in m && r[i] == m[PairOrder(m.Keys)[i]]
  {
    var keys := PairOrder(m.Keys);
    assert forall i | 0 <= i < |keys| :: keys[i] in keys;
    seq(|keys|, i requires 0 <= i < |keys| => m[keys[i]])
  }

  function Merged(edges: seq<Edge>, rows: seq<Row>, classify: Classify, show: real -> string): seq<Edge> {
    Values(AddRows(Keyed(edges), rows, classify, show))
  }

  method MergeObservedEdges(edges: seq<Edge>, rows: seq<Row>, classify: Classify, show: real -> string) returns (r: seq<Edge>)
    ensures r == Merged(edges, rows, classify, show)
  {
    var merged: map<Key, Edge> := map[];
    for i := 0 to |edges|
      invariant merged == Keyed(edges[..i])
    {
      assert edges[..i + 1][..i] == edges[..i];
      merged := merged[(edges[i].source, edges[i].target) := edges[i]];
    }
    assert edges[..|edges|] == edges;
    for i := 0 to |rows|
      invariant merged == AddRows(Keyed(edges), rows[..i], classify, show)
    {
      assert rows[..i + 1][..i] == rows[..i];
      var target := EdgeTarget(rows[i].destination, classify);
      if target.None? || rows[i].sample.None? {
        continue;
      }
      var source := if rows[i].source == "" then "host" else rows[i].source;
      if source == target.value {
        continue;
      }
      var k := (source, target.value);
      if k !in merged {
        merged := merged[k := NewEdge(k)];
      }
      merged := merged[k := AddRate(merged[k], rows[i].sample.value, show)];
    }
    assert rows[..|rows|] == rows;
    r := Values(merged);
  }

  // ----------------------------------------------------------- what each edge holds

  /** Some row counts for the edge. */
  predicate Seen(rows: seq<Row>, k: Key, classify: Classify) {
    exists i | 0 <= i < |rows| :: RowKey(rows[i], classify) == Some(k)
  }

  function RowAmount(row: Row, k: Option<Key>, classify: Classify): real {
    var own := RowKey(row, classify);
    if own.Some? && (k.None? || k == own) then row.sample.value else 0.0
  }

  /** The rates of the rows that count for one edge, or for any edge. */
  function RowSum(rows: seq<Row>, k: Option<Key>, classify: Classify): real {
    if rows == [] then 0.0 else RowSum(rows[..|rows| - 1], k, classify) + RowAmount(rows[|rows| - 1], k, classify)
  }

  /** Everything about an edge but its label. */
  function Unlabelled(e: Edge): Edge {
    e.(text := "")
  }

  lemma SeenLast(rows: seq<Row>, k: Key, classify: Classify)
    requires rows != []
    ensures Seen(rows, k, classify) <==> Seen(rows[..|rows| - 1], k, classify) || RowKey(rows[|rows| - 1], classify) == Some(k)
  {
    var n := |rows| - 1;
    assert forall i | 0 <= i < n :: rows[..n][i] == rows[i];
  }

  /** How an edge of `r` comes from `m`: `seen` when rows counted for it, with rates that add up to `sum`. */
  ghost predicate Grown(m: map<Key, Edge>, r: map<Key, Edge>, k: Key, seen: bool, sum: real) {
    && (k in r <==> k in m || seen)
    && (k in r && !seen ==> r[k] == m[k])
    && (k in r && seen ==>
          Unlabelled(r[k]) == Unlabelled(EdgeAt(m, k).(flows := Some(EdgeAt(m, k).flows.GetOr(0.0) + sum), observed := true)))
    && (k in r && EdgeAt(m, k).text != "" ==> r[k].text == EdgeAt(m, k).text)
  }

  lemma GrownByRow(m: map<Key, Edge>, r: map<Key, Edge>, k: Key, seen: bool, sum: real, rate: real, show: real -> string)
    requires Grown(m, r, k, seen, sum) && (!seen ==> sum == 0.0)
    ensures Grown(m, r[k := AddRate(EdgeAt(r, k), rate, show)], k, true, sum + rate)
  {
    var was, now := EdgeAt(r, k), AddRate(EdgeAt(r, k), rate, show);
    assert now.flows.value == was.flows.GetOr(0.0) + rate;
    if !seen {
      assert was == EdgeAt(m, k);
    }
  }

  /**
   * An edge is in the result when a service names it or a row counts for it. Its ends, type, port, protocol and bytes
   * are those of the service edge, its rate has grown by the sum of its rows, it is observed when it was or when a row
   * counts for it, and a label that it had stays.
   */
  lemma {:induction false} EdgeExact(m: map<Key, Edge>, rows: seq<Row>, classify: Classify, show: real -> string, k: Key)
    ensures Grown(m, AddRows(m, rows, classify, show), k, Seen(rows, k, classify), RowSum(rows, Some(k), classify))
    ensures !Seen(rows, k, classify) ==> RowSum(rows, Some(k), classify) == 0.0
  {
    if rows != [] {
      var n := |rows| - 1;
      EdgeExact(m, rows[..n], classify, show, k);
      SeenLast(rows, k, classify);
      if RowKey(rows[n], classify) == Some(k) {
        GrownByRow(m, AddRows(m, rows[..n], classify, show), k, Seen(rows[..n], k, classify),
                   RowSum(rows[..n], Some(k), classify), rows[n].sample.value, show);
      }
    }
  }

  /** A row with a class and a value counts for the edge from its app to its destination's node, unless they are one. */
  ghost predicate CountsFor(row: Row, k: Key, classify: Classify) {
    && row.sample.Some? && k.0 != k.1
    && k.0 == (if row.source == "" then "host" else row.source)
    && match classify(row.destination)
       case None => false
       case Some(Internet) => k.1 == "external"
       case Some(Lan) => k.1 == "lan"
       case Some(Cluster) => k.1 == if ':' in row.destination then "node" else row.destination
  }

  lemma RowKeyExact(row: Row, k: Key, classify: Classify)
    ensures RowKey(row, classify) == Some(k) <==> CountsFor(row, k, classify)
  {
    assert k == (k.0, k.1);
  }

  /** The rates of the rows that count for an edge. */
  ghost function RateFor(rows: seq<Row>, k: Key, classify: Classify): real {
    if rows == [] then 0.0
    else
      var n := |rows| - 1;
      RateFor(rows[..n], k, classify) + if CountsFor(rows[n], k, classify) then rows[n].sample.value else 0.0
  }

  lemma {:induction false} RowsExact(rows: seq<Row>, k: Key, classify: Classify)
    ensures RowSum(rows, Some(k), classify) == RateFor(rows, k, classify)
    ensures Seen(rows, k, classify) <==> exists row | row in rows :: CountsFor(row, k, classify)
  {
    if rows != [] {
      var n := |rows| - 1;
      RowsExact(rows[..n], k, classify);
      RowKeyExact(rows[n], k, classify);
      SeenLast(rows, k, classify);
      assert rows == rows[..n] + [rows[n]];
    }
  }

  /** Edge `i` is the last of the service edges between its ends. */
  ghost predicate LastBetween(edges: seq<Edge>, k: Key, i: int) {
    && 0 <= i < |edges| && edges[i].source == k.0 && edges[i].target == k.1
    && forall j | i < j < |edges| :: !(edges[j].source == k.0 && edges[j].target == k.1)
  }

  lemma {:induction false} KeyedExact(edges: seq<Edge>, k: Key) returns (i: int)
    ensures if i < 0 then k !in Keyed(edges) && forall j | 0 <= j < |edges| :: KeyOf(edges[j]) != k
            else LastBetween(edges, k, i) && k in Keyed(edges) && Keyed(edges)[k] == edges[i]
  {
    assert k == (k.0, k.1);
    if edges == [] {
      i := -1;
    } else {
      var n := |edges| - 1;
      if KeyOf(edges[n]) == k {
        i := n;
      } else {
        i := KeyedExact(edges[..n], k);
        assert forall j | 0 <= j < n :: edges[..n][j] == edges[j];
      }
    }
  }

  /** An edge of the graph between two nodes, as service edges and rows make it. */
  ghost predicate Made(edges: seq<Edge>, rows: seq<Row>, classify: Classify, k: Key, e: Edge) {
    var counted := exists row | row in rows :: CountsFor(row, k, classify);
    if exists i :: LastBetween(edges, k, i) then
      exists i :: LastBetween(edges, k, i) &&
        (if !counted then e == edges[i]
         else e.(text := edges[i].text) ==
              edges[i].(flows := Some(edges[i].flows.GetOr(0.0) + RateFor(rows, k, classify)), observed := true))
    else
      counted && e == Edge(k.0, k.1, "observed", None, None, e.text, Some(RateFor(rows, k, classify)), None, true)
  }

  /**
   * The merged graph, read off its sources: between two nodes there is an edge exactly when a service edge or a counting
   * row connects them; a service edge keeps all it had, and the rates of the rows between its ends are added to its own.
   */
  lemma GraphExact(edges: seq<Edge>, rows: seq<Row>, classify: Classify, show: real -> string, k: Key)
    ensures var r := AddRows(Keyed(edges), rows, classify, show);
      && (k in r <==> (exists i :: LastBetween(edges, k, i)) || exists row | row in rows :: CountsFor(row, k, classify))
      && (k in r ==> Made(edges, rows, classify, k, r[k]))
  {
    var i := KeyedExact(edges, k);
    EdgeExact(Keyed(edges), rows, classify, show, k);
    RowsExact(rows, k, classify);
    assert k == (k.0, k.1);
    if i < 0 {
      assert forall j :: !LastBetween(edges, k, j);
      if k in AddRows(Keyed(edges), rows, classify, show) {
        MadeFromRows(edges, rows, classify, k, AddRows(Keyed(edges), rows, classify, show)[k]);
      }
    } else {
      assert LastBetween(edges, k, i);
      MadeFromService(edges, rows, classify, k, i, AddRows(Keyed(edges), rows, classify, show)[k]);
    }
  }

  lemma MadeFromRows(edges: seq<Edge>, rows: seq<Row>, classify: Classify, k: Key, e: Edge)
    requires (forall j :: !LastBetween(edges, k, j)) && exists row | row in rows :: CountsFor(row, k, classify)
    requires Unlabelled(e) == Unlabelled(NewEdge(k).(flows := Some(0.0 + RateFor(rows, k, classify)), observed := true))
    ensures Made(edges, rows, classify, k, e)
  {
    assert e == Unlabelled(e).(text := e.text);
  }

  lemma MadeFromService(edges: seq<Edge>, rows: seq<Row>, classify: Classify, k: Key, i: int, e: Edge)
    requires LastBetween(edges, k, i)
    requires var counted := exists row | row in rows :: CountsFor(row, k, classify);
      if !counted then e == edges[i]
      else Unlabelled(e) == Unlabelled(
             edges[i].(flows := Some(edges[i].flows.GetOr(0.0) + RateFor(rows, k, classify)), observed := true))
    ensures Made(edges, rows, classify, k, e)
  {
    if exists row | row in rows :: CountsFor(row, k, classify) {
      var grown := edges[i].(flows := Some(edges[i].flows.GetOr(0.0) + RateFor(rows, k, classify)), observed := true);
      assert e.(text := edges[i].text) == Unlabelled(e).(text := edges[i].text);
      assert grown == Unlabelled(grown).(text := edges[i].text);
    }
  }

  lemma FirstLabel(m: map<Key, Edge>, r: map<Key, Edge>, k: Key, rate: real, show: real -> string)
    requires Grown(m, r, k, false, 0.0)
    ensures var was := EdgeAt(m, k);
      AddRate(EdgeAt(r, k), rate, show).text == if was.text != "" then was.text else show(was.flows.GetOr(0.0) + rate)
  {
    assert EdgeAt(r, k) == EdgeAt(m, k);
  }

  lemma LabelStays(m: map<Key, Edge>, rows: seq<Row>, classify: Classify, show: real -> string, k: Key)
    requires rows != []
    requires var before := AddRows(m, rows[..|rows| - 1], classify, show); k in before && before[k].text != ""
    ensures k in AddRows(m, rows, classify, show)
    ensures AddRows(m, rows, classify, show)[k].text == AddRows(m, rows[..|rows| - 1], classify, show)[k].text
  {
  }

  /** An edge without a label gets the rate that it has after its first row, and keeps that. */
  lemma {:induction false} LabelExact(
    m: map<Key, Edge>, rows: seq<Row>, classify: Classify, show: real -> string, k: Key, first: int)
    requires forall rate: real :: show(rate) != ""
    requires 0 <= first < |rows| && CountsFor(rows[first], k, classify)
    requires forall j | 0 <= j < first :: !CountsFor(rows[j], k, classify)
    ensures var r, was := AddRows(m, rows, classify, show), EdgeAt(m, k);
      k in r && r[k].text == if was.text != "" then was.text else show(was.flows.GetOr(0.0) + rows[first].sample.value)
  {
    var n := |rows| - 1;
    var before := AddRows(m, rows[..n], classify, show);
    RowKeyExact(rows[n], k, classify);
    if first < n {
      LabelExact(m, rows[..n], classify, show, k, first);
      LabelStays(m, rows, classify, show, k);
    } else {
      EdgeExact(m, rows[..n], classify, show, k);
      RowsExact(rows[..n], k, classify);
      FirstLabel(m, before, k, rows[n].sample.value, show);
    }
  }

  // -------------------------------------------------------------- result shape

  ghost predicate OwnKeys(m: map<Key, Edge>) {
    forall k | k in m :: KeyOf(m[k]) == k
  }

  lemma {:induction false} KeyedOwnKeys(edges: seq<Edge>)
    ensures OwnKeys(Keyed(edges))
  {
    if edges != [] {
      KeyedOwnKeys(edges[..|edges| - 1]);
    }
  }

  lemma {:induction false} AddRowsOwnKeys(m: map<Key, Edge>, rows: seq<Row>, classify: Classify, show: real -> string)
    requires OwnKeys(m)
    ensures OwnKeys(AddRows(m, rows, classify, show))
  {
    if rows != [] {
      AddRowsOwnKeys(m, rows[..|rows| - 1], classify, show);
    }
  }

  /** The result has one edge per pair of ends, in the order of the ends. */
  lemma MergedSorted(edges: seq<Edge>, rows: seq<Row>, classify: Classify, show: real -> string)
    ensures var r := Merged(edges, rows, classify, show);
      forall i, j | 0 <= i < j < |r| :: PairBefore(KeyOf(r[i]), KeyOf(r[j])) && KeyOf(r[i]) != KeyOf(r[j])
  {
    var m := AddRows(Keyed(edges), rows, classify, show);
    KeyedOwnKeys(edges);
    AddRowsOwnKeys(Keyed(edges), rows, classify, show);
    PairBeforeIsTotal();
    var keys := PairOrder(m.Keys);
    assert forall i | 0 <= i < |keys| :: KeyOf(Values(m)[i]) == keys[i];
  }

  // ---------------------------------------------------------------- conservation

  function FlowAt(m: map<Key, Edge>, k: Key): real {
    if k in m then m[k].flows.GetOr(0.0) else 0.0
  }

  function FlowOver(keys: seq<Key>, m: map<Key, Edge>): real {
    if keys == [] then 0.0 else FlowOver(keys[..|keys| - 1], m) + FlowAt(m, keys[|keys| - 1])
  }

  function TotalFlow(edges: seq<Edge>): real {
    if edges == [] then 0.0 else TotalFlow(edges[..|edges| - 1]) + edges[|edges| - 1].flows.GetOr(0.0)
  }

  lemma {:induction false} FlowOverUpdate(keys: seq<Key>, m: map<Key, Edge>, k: Key, e: Edge)
    requires Distinct(keys)
    ensures FlowOver(keys, m[k := e]) == FlowOver(keys, m) + if k in keys then e.flows.GetOr(0.0) - FlowAt(m, k) else 0.0
  {
    if keys != [] {
      var n := |keys| - 1;
      FlowOverUpdate(keys[..n], m, k, e);
      assert keys == keys[..n] + [keys[n]];
    }
  }

  lemma {:induction false} FlowOverRemove(keys: seq<Key>, m: map<Key, Edge>, k: Key)
    requires Distinct(keys)
    ensures FlowOver(keys, m) == FlowOver(keys, m - {k}) + if k in keys then FlowAt(m, k) else 0.0
  {
    if keys != [] {
      var n := |keys| - 1;
      FlowOverRemove(keys[..n], m, k);
      assert keys == keys[..n] + [keys[n]];
    }
  }

  lemma {:induction false} FlowOverNothing(keys: seq<Key>)
    ensures FlowOver(keys, map[]) == 0.0
  {
    if keys != [] {
      FlowOverNothing(keys[..|keys| - 1]);
    }
  }

  /** Any two lists of distinct keys that cover a map add up to the same flow. */
  lemma {:induction false} FlowOverCover(a: seq<Key>, b: seq<Key>, m: map<Key, Edge>)
    requires Distinct(a) && Distinct(b)
    requires forall k | k in m :: k in a && k in b
    ensures FlowOver(a, m) == FlowOver(b, m)
    decreases |b|
  {
    if b == [] {
      assert m == map[];
      FlowOverNothing(a);
    } else {
      var n := |b| - 1;
      var k := b[n];
      assert b == b[..n] + [k];
      FlowOverRemove(a, m, k);
      FlowOverRemove(b[..n], m, k);
      FlowOverCover(a, b[..n], m - {k});
    }
  }

  lemma {:induction false} FlowAfterRows(
    keys: seq<Key>, m: map<Key, Edge>, rows: seq<Row>, classify: Classify, show: real -> string)
    requires Distinct(keys) && forall k | k in AddRows(m, rows, classify, show) :: k in keys
    ensures FlowOver(keys, AddRows(m, rows, classify, show)) == FlowOver(keys, m) + RowSum(rows, None, classify)
  {
    if rows != [] {
      var n := |rows| - 1;
      var before := AddRows(m, rows[..n], classify, show);
      FlowAfterRows(keys, m, rows[..n], classify, show);
      var k := RowKey(rows[n], classify);
      if k.Some? {
        FlowOverUpdate(keys, before, k.value, AddRate(EdgeAt(before, k.value), rows[n].sample.value, show));
        assert k.value in AddRows(m, rows, classify, show);
      }
    }
  }

  lemma {:induction false} ListFlow(list: seq<Edge>, keys: seq<Key>, m: map<Key, Edge>)
    requires |list| == |keys| && forall i | 0 <= i < |list| :: keys[i] in m && list[i] == m[keys[i]]
    ensures TotalFlow(list) == FlowOver(keys, m)
  {
    if list != [] {
      ListFlow(list[..|list| - 1], keys[..|keys| - 1], m);
    }
  }

  lemma OrderIsDistinct(m: map<Key, Edge>)
    ensures Distinct(PairOrder(m.Keys))
  {
    PairBeforeIsTotal();
    var keys := PairOrder(m.Keys);
    assert forall i, j | 0 <= i < j < |keys| :: PairBefore(keys[i], keys[j]);
  }

  /** No flow is lost or invented: the result carries the service edges' flow plus that of every row that counts. */
  lemma FlowConserved(edges: seq<Edge>, rows: seq<Row>, classify: Classify, show: real -> string)
    ensures TotalFlow(Merged(edges, rows, classify, show)) ==
            TotalFlow(Values(Keyed(edges))) + RowSum(rows, None, classify)
  {
    var start, end := Keyed(edges), AddRows(Keyed(edges), rows, classify, show);
    forall k | k in start ensures k in end {
      EdgeExact(start, rows, classify, show, k);
    }
    OrderIsDistinct(start);
    OrderIsDistinct(end);
    FlowAfterRows(PairOrder(end.Keys), start, rows, classify, show);
    FlowOverCover(PairOrder(end.Keys), PairOrder(start.Keys), start);
    ListFlow(Values(start), PairOrder(start.Keys), start);
    ListFlow(Values(end), PairOrder(end.Keys), end);
  }

  function KeysOf(edges: seq<Edge>): seq<Key> {
    seq(|edges|, i requires 0 <= i < |edges| => KeyOf(edges[i]))
  }

  lemma {:induction false} KeyedDistinct(edges: seq<Edge>)
    requires Distinct(KeysOf(edges))
    ensures forall i | 0 <= i < |edges| :: KeyOf(edges[i]) in Keyed(edges) && Keyed(edges)[KeyOf(edges[i])] == edges[i]
    ensures forall k | k in Keyed(edges) :: k in KeysOf(edges)
  {
    if edges != [] {
      var n := |edges| - 1;
      assert KeysOf(edges)[..n] == KeysOf(edges[..n]) && KeysOf(edges)[n] == KeyOf(edges[n]);
      forall i, j | 0 <= i < j < n ensures KeysOf(edges[..n])[i] != KeysOf(edges[..n])[j] {
        assert KeysOf(edges)[i] != KeysOf(edges)[j];
      }
      KeyedDistinct(edges[..n]);
      forall i | 0 <= i < |edges| ensures KeyOf(edges[i]) in Keyed(edges) && Keyed(edges)[KeyOf(edges[i])] == edges[i] {
        if i < n {
          assert edges[..n][i] == edges[i] && KeysOf(edges)[i] != KeysOf(edges)[n];
        }
      }
      forall k | k in Keyed(edges) ensures k in KeysOf(edges) {
        if k != KeyOf(edges[n]) {
          assert k in KeysOf(edges)[..n];
        }
      }
    }
  }

  /** When no two service edges share both ends, every one of them is counted. */
  lemma DistinctServiceFlow(edges: seq<Edge>)
    requires Distinct(KeysOf(edges))
    ensures TotalFlow(Values(Keyed(edges))) == TotalFlow(edges)
  {
    var m := Keyed(edges);
    KeyedDistinct(edges);
    OrderIsDistinct(m);
    ListFlow(Values(m), PairOrder(m.Keys), m);
    ListFlow(edges, KeysOf(edges), m);
    FlowOverCover(PairOrder(m.Keys), KeysOf(edges), m);
  }

  // ------------------------------------------------------------- order of the rows

  lemma {:induction false} RowSumConcat(a: seq<Row>, b: seq<Row>, k: Option<Key>, classify: Classify)
    ensures RowSum(a + b, k, classify) == RowSum(a, k, classify) + RowSum(b, k, classify)
  {
    if b == [] {
      assert a + b == a;
    } else {
      assert (a + b)[..|a + b| - 1] == a + b[..|b| - 1];
      RowSumConcat(a, b[..|b| - 1], k, classify);
    }
  }

  lemma RowSumWithout(rows: seq<Row>, i: nat, k: Option<Key>, classify: Classify)
    requires i < |rows|
    ensures RowSum(rows, k, classify) == RowSum(Without(rows, i), k, classify) + RowAmount(rows[i], k, classify)
  {
    RowSumConcat(rows[..i], rows[i + 1..], k, classify);
    RowSumConcat(rows[..i + 1], rows[i + 1..], k, classify);
    assert rows == rows[..i + 1] + rows[i + 1..] && rows[..i + 1][..i] == rows[..i];
  }

  lemma {:induction false} RowSumOrderFree(a: seq<Row>, b: seq<Row>, k: Option<Key>, classify: Classify)
    requires multiset(a) == multiset(b)
    ensures RowSum(a, k, classify) == RowSum(b, k, classify)
    decreases |a|
  {
    if a == [] {
      assert |multiset(b)| == 0;
    } else {
      assert a[0] in multiset(b);
      var i :| 0 <= i < |b| && b[i] == a[0];
      WithoutCounts(a, 0);
      WithoutCounts(b, i);
      RowSumOrderFree(Without(a, 0), Without(b, i), k, classify);
      RowSumWithout(a, 0, k, classify);
      RowSumWithout(b, i, k, classify);
    }
  }

  lemma SeenOrderFree(a: seq<Row>, b: seq<Row>, k: Key, classify: Classify)
    requires multiset(a) == multiset(b)
    ensures Seen(a, k, classify) ==> Seen(b, k, classify)
  {
    if Seen(a, k, classify) {
      var i :| 0 <= i < |a| && RowKey(a[i], classify) == Some(k);
      assert a[i] in multiset(b);
      var j :| 0 <= j < |b| && b[j] == a[i];
      assert RowKey(b[j], classify) == Some(k);
    }
  }

  lemma GrownAlike(m: map<Key, Edge>, x: map<Key, Edge>, y: map<Key, Edge>, k: Key, seen: bool, sum: real)
    requires Grown(m, x, k, seen, sum) && Grown(m, y, k, seen, sum)
    ensures (k in x <==> k in y) && (k in x ==> Unlabelled(x[k]) == Unlabelled(y[k]))
  {
  }

  lemma EdgeOrderFree(m: map<Key, Edge>, a: seq<Row>, b: seq<Row>, classify: Classify, show: real -> string, k: Key)
    requires multiset(a) == multiset(b)
    ensures var x, y := AddRows(m, a, classify, show), AddRows(m, b, classify, show);
      (k in x <==> k in y) && (k in x ==> Unlabelled(x[k]) == Unlabelled(y[k]))
  {
    EdgeExact(m, a, classify, show, k);
    EdgeExact(m, b, classify, show, k);
    SeenOrderFree(a, b, k, classify);
    SeenOrderFree(b, a, k, classify);
    RowSumOrderFree(a, b, Some(k), classify);
    GrownAlike(m, AddRows(m, a, classify, show), AddRows(m, b, classify, show), k,
               Seen(a, k, classify), RowSum(a, Some(k), classify));
  }

  /** Permuting the rows changes nothing but labels. */
  lemma MergedOrderFree(edges: seq<Edge>, a: seq<Row>, b: seq<Row>, classify: Classify, show: real -> string)
    requires multiset(a) == multiset(b)
    ensures var x, y := Merged(edges, a, classify, show), Merged(edges, b, classify, show);
      |x| == |y| && forall i | 0 <= i < |x| :: Unlabelled(x[i]) == Unlabelled(y[i])
  {
    var start := Keyed(edges);
    var m, n := AddRows(start, a, classify, show), AddRows(start, b, classify, show);
    forall k: Key ensures (k in m <==> k in n) && (k in m ==> Unlabelled(m[k]) == Unlabelled(n[k])) {
      EdgeOrderFree(start, a, b, classify, show, k);
    }
    PairBeforeIsTotal();
    SortedUnique(PairOrder(m.Keys), PairOrder(n.Keys), PairBefore);
  }

  // ------------------------------------------------------------------- byte rates

  /** `resolve_edge_endpoint`: the graph node behind a reported name or pod address. */
  function Endpoint(name: string, podsByIp: map<string, string>): Option<string> {
    if name == "internet" || name == "lan" then Some("external")
    else if name == "host" then Some("host")
    else if name in podsByIp then Some(podsByIp[name])
    else None
  }

  /** The directed pair of nodes that a row measures; None for rows that are skipped. */
  function PairOf(row: Row, podsByIp: map<string, string>): Option<Key> {
    var source, target := Endpoint(row.source, podsByIp), Endpoint(row.destination, podsByIp);
    if row.sample.None? || source.None? || target.None? || source == target then None
    else Some((source.value, target.value))
  }

  /** The byte sums by directed pair; a pair without rows is absent. */
  function ByPair(rows: seq<Row>, podsByIp: map<string, string>): map<Key, real> {
    if rows == [] then map[]
    else
      var n := |rows| - 1;
      var before := ByPair(rows[..n], podsByIp);
      match PairOf(rows[n], podsByIp)
      case None => before
      case Some(k) => before[k := (if k in before then before[k] else 0.0) + rows[n].sample.value]
  }

  function RateOfPair(m: map<Key, real>, k: Key): real {
    if k in m then m[k] else 0.0
  }

  /** A row measures the link between two nodes, whichever way round. */
  predicate OnLink(row: Row, k: Key, podsByIp: map<string, string>) {
    var pair := PairOf(row, podsByIp);
    pair == Some(k) || pair == Some((k.1, k.0))
  }

  /** The bytes of all rows on a link. */
  function LinkSum(rows: seq<Row>, k: Key, podsByIp: map<string, string>): real {
    if rows == [] then 0.0
    else
      var n := |rows| - 1;
      LinkSum(rows[..n], k, podsByIp) + if OnLink(rows[n], k, podsByIp) then rows[n].sample.value else 0.0
  }

  function Weighted(e: Edge, total: real): Edge {
    if total > 0.0 then e.(bytes := Some(total), observed := true) else e
  }

  lemma {:induction false} PairsMakeLink(rows: seq<Row>, k: Key, podsByIp: map<string, string>)
    ensures var m := ByPair(rows, podsByIp);
      RateOfPair(m, k) + RateOfPair(m, (k.1, k.0)) == LinkSum(rows, k, podsByIp)
    ensures k.0 == k.1 ==> k !in ByPair(rows, podsByIp)
  {
    if rows != [] {
      PairsMakeLink(rows[..|rows| - 1], k, podsByIp);
      assert k == (k.0, k.1);
    }
  }

  /** What a reported name stands for in the graph: the outside, this host, or the namespace of a known pod. */
  ghost predicate StandsFor(name: string, node: string, podsByIp: map<string, string>) {
    if name in {"internet", "lan"} then node == "external"
    else if name == "host" then node == "host"
    else name in podsByIp && podsByIp[name] == node
  }

  lemma EndpointExact(name: string, node: string, podsByIp: map<string, string>)
    ensures Endpoint(name, podsByIp) == Some(node) <==> StandsFor(name, node, podsByIp)
  {
  }

  /** The row has a value, and its two names stand for two different nodes: these, in either order. */
  ghost predicate Between(row: Row, a: string, b: string, podsByIp: map<string, string>) {
    && row.sample.Some? && a != b
    && (|| (StandsFor(row.source, a, podsByIp) && StandsFor(row.destination, b, podsByIp))
        || (StandsFor(row.source, b, podsByIp) && StandsFor(row.destination, a, podsByIp)))
  }

  lemma OnLinkExact(row: Row, k: Key, podsByIp: map<string, string>)
    ensures OnLink(row, k, podsByIp) <==> Between(row, k.0, k.1, podsByIp)
  {
    assert k == (k.0, k.1);
    EndpointExact(row.source, k.0, podsByIp);
    EndpointExact(row.source, k.1, podsByIp);
    EndpointExact(row.destination, k.0, podsByIp);
    EndpointExact(row.destination, k.1, podsByIp);
  }

  /** The bytes of the rows between two nodes. */
  ghost function BytesBetween(rows: seq<Row>, a: string, b: string, podsByIp: map<string, string>): real {
    if rows == [] then 0.0
    else
      var n := |rows| - 1;
      BytesBetween(rows[..n], a, b, podsByIp) + if Between(rows[n], a, b, podsByIp) then rows[n].sample.value else 0.0
  }

  lemma {:induction false} LinkSumExact(rows: seq<Row>, k: Key, podsByIp: map<string, string>)
    ensures LinkSum(rows, k, podsByIp) == BytesBetween(rows, k.0, k.1, podsByIp)
  {
    if rows != [] {
      LinkSumExact(rows[..|rows| - 1], k, podsByIp);
      OnLinkExact(rows[|rows| - 1], k, podsByIp);
    }
  }

  /** The edge weighs the bytes between its ends when there are any; ends, type, port, protocol, label and flows stay. */
  ghost predicate Weighs(was: Edge, now: Edge, total: real) {
    && now.(bytes := was.bytes, observed := was.observed) == was
    && now.bytes == (if total > 0.0 then Some(total) else was.bytes)
    && now.observed == (was.observed || total > 0.0)
  }

  /** The first loop of `merge_edge_bytes`. */
  method SumByPair(rows: seq<Row>, podsByIp: map<string, string>) returns (byPair: map<Key, real>)
    ensures byPair == ByPair(rows, podsByIp)
  {
    byPair := map[];
    for i := 0 to |rows|
      invariant byPair == ByPair(rows[..i], podsByIp)
    {
      assert rows[..i + 1][..i] == rows[..i];
      if rows[i].sample.None? {
        continue;
      }
      var source := Endpoint(rows[i].source, podsByIp);
      if source.None? {
        continue;
      }
      var target := Endpoint(rows[i].destination, podsByIp);
      if target.None? || source == target {
        continue;
      }
      var k := (source.value, target.value);
      if k !in byPair {
        byPair := byPair[k := 0.0];
      }
      byPair := byPair[k := byPair[k] + rows[i].sample.value];
    }
    assert rows[..|rows|] == rows;
  }

  /**
   * Every edge gets exactly the bytes of all rows whose names stand for its two ends when they add up to more than
   * nothing; nothing else changes.
   */
  method MergeEdgeBytes(edges: array<Edge>, rows: seq<Row>, podsByIp: map<string, string>)
    modifies edges
    ensures forall i | 0 <= i < edges.Length ::
      Weighs(old(edges[i]), edges[i], BytesBetween(rows, old(edges[i]).source, old(edges[i]).target, podsByIp))
    ensures forall i | 0 <= i < edges.Length ::
      edges[i] == Weighted(old(edges[i]), LinkSum(rows, KeyOf(old(edges[i])), podsByIp))
  {
    var byPair := SumByPair(rows, podsByIp);
    for i := 0 to edges.Length
      invariant forall j | 0 <= j < i :: edges[j] == Weighted(old(edges[j]), LinkSum(rows, KeyOf(old(edges[j])), podsByIp))
      invariant forall j | i <= j < edges.Length :: edges[j] == old(edges[j])
    {
      var forward := RateOfPair(byPair, (edges[i].source, edges[i].target));
      var reverse := RateOfPair(byPair, (edges[i].target, edges[i].source));
      var total := forward + reverse;
      PairsMakeLink(rows, KeyOf(edges[i]), podsByIp);
      if total > 0.0 {
        edges[i] := edges[i].(bytes := Some(total), observed := true);
      }
    }
    forall i | 0 <= i < edges.Length
      ensures Weighs(old(edges[i]), edges[i], BytesBetween(rows, old(edges[i]).source, old(edges[i]).target, podsByIp))
    {
      LinkSumExact(rows, KeyOf(old(edges[i])), podsByIp);
    }
  }

  function Swapped(rows: seq<Row>): seq<Row> {
    seq(|rows|, i requires 0 <= i < |rows| => rows[i].(source := rows[i].destination, destination := rows[i].source))
  }

  /** Measuring every link the other way round weighs every edge the same. */
  lemma {:induction false} SwapChangesNothing(rows: seq<Row>, k: Key, podsByIp: map<string, string>)
    ensures LinkSum(Swapped(rows), k, podsByIp) == LinkSum(rows, k, podsByIp)
  {
    if rows != [] {
      var n := |rows| - 1;
      assert Swapped(rows)[..n] == Swapped(rows[..n]);
      SwapChangesNothing(rows[..n], k, podsByIp);
      var pair, back := PairOf(rows[n], podsByIp), PairOf(Swapped(rows)[n], podsByIp);
      assert pair.Some? <==> back.Some?;
      assert pair.Some? ==> back.value == (pair.value.1, pair.value.0);
    }
  }

  /** Two edges draw the same link. */
  predicate Twins(a: Edge, b: Edge) {
    KeyOf(a) == KeyOf(b) || KeyOf(a) == (b.target, b.source)
  }

  ghost predicate NoTwins(edges: seq<Edge>) {
    forall i, j | 0 <= i < j < |edges| :: !Twins(edges[i], edges[j])
  }

  /** How often a row is counted over all edges. */
  function TimesCounted(edges: seq<Edge>, row: Row, podsByIp: map<string, string>): nat {
    if edges == [] then 0
    else
      var n := |edges| - 1;
      TimesCounted(edges[..n], row, podsByIp) + if OnLink(row, KeyOf(edges[n]), podsByIp) then 1 else 0
  }

  function Copies(n: nat, v: real): real {
    if n == 0 then 0.0 else Copies(n - 1, v) + v
  }

  function LinkSums(edges: seq<Edge>, rows: seq<Row>, podsByIp: map<string, string>): real {
    if edges == [] then 0.0
    else
      var n := |edges| - 1;
      LinkSums(edges[..n], rows, podsByIp) + LinkSum(rows, KeyOf(edges[n]), podsByIp)
  }

  /** The bytes of the rows that some edge draws, each taken once. */
  function DrawnBytes(edges: seq<Edge>, rows: seq<Row>, podsByIp: map<string, string>): real {
    if rows == [] then 0.0
    else
      var n := |rows| - 1;
      DrawnBytes(edges, rows[..n], podsByIp) +
      if TimesCounted(edges, rows[n], podsByIp) > 0 then rows[n].sample.GetOr(0.0) else 0.0
  }

  lemma {:induction false} CountedAtMostOnce(edges: seq<Edge>, row: Row, podsByIp: map<string, string>)
    requires NoTwins(edges)
    ensures TimesCounted(edges, row, podsByIp) <= 1
    ensures TimesCounted(edges, row, podsByIp) == 1 <==> exists i | 0 <= i < |edges| :: OnLink(row, KeyOf(edges[i]), podsByIp)
  {
    if edges != [] {
      var n := |edges| - 1;
      CountedAtMostOnce(edges[..n], row, podsByIp);
      forall i | 0 <= i < n ensures edges[..n][i] == edges[i] && !Twins(edges[i], edges[n]) {
      }
    }
  }

  lemma {:induction false} RowInLinkSums(edges: seq<Edge>, rows: seq<Row>, podsByIp: map<string, string>)
    requires rows != []
    ensures var n := |rows| - 1;
      LinkSums(edges, rows, podsByIp) == LinkSums(edges, rows[..n], podsByIp) +
        Copies(TimesCounted(edges, rows[n], podsByIp), rows[n].sample.GetOr(0.0))
  {
    if edges != [] {
      RowInLinkSums(edges[..|edges| - 1], rows, podsByIp);
    }
  }

  lemma {:induction false} NoRowsNoLinks(edges: seq<Edge>, podsByIp: map<string, string>)
    ensures LinkSums(edges, [], podsByIp) == 0.0
  {
    if edges != [] {
      NoRowsNoLinks(edges[..|edges| - 1], podsByIp);
    }
  }

  /** While no edge is present together with its reverse, no row's bytes are counted twice over the whole graph. */
  lemma {:induction false} BytesCountedOnce(edges: seq<Edge>, rows: seq<Row>, podsByIp: map<string, string>)
    requires NoTwins(edges)
    ensures LinkSums(edges, rows, podsByIp) == DrawnBytes(edges, rows, podsByIp)
  {
    if rows == [] {
      NoRowsNoLinks(edges, podsByIp);
    } else {
      var n := |rows| - 1;
      BytesCountedOnce(edges, rows[..n], podsByIp);
      RowInLinkSums(edges, rows, podsByIp);
      CountedAtMostOnce(edges, rows[n], podsByIp);
    }
  }

  lemma {:induction false} CountedAtLeast(edges: seq<Edge>, i: nat, row: Row, podsByIp: map<string, string>)
    requires i < |edges| && OnLink(row, KeyOf(edges[i]), podsByIp)
    ensures TimesCounted(edges, row, podsByIp) >= 1
    ensures forall j | i < j < |edges| && Twins(edges[i], edges[j]) :: TimesCounted(edges, row, podsByIp) >= 2
  {
    var n := |edges| - 1;
    if i < n {
      CountedAtLeast(edges[..n], i, row, podsByIp);
      assert Twins(edges[i], edges[n]) ==> OnLink(row, KeyOf(edges[n]), podsByIp);
      forall j | i < j < n ensures edges[..n][j] == edges[j] {
      }
    }
  }

  /** An edge present together with its reverse takes every row on their link twice, so the condition is needed. */
  lemma TwinsCountTwice(edges: seq<Edge>, i: nat, j: nat, row: Row, podsByIp: map<string, string>)
    requires i < j < |edges| && Twins(edges[i], edges[j]) && OnLink(row, KeyOf(edges[i]), podsByIp)
    ensures TimesCounted(edges, row, podsByIp) >= 2
    ensures LinkSums(edges, [row], podsByIp) == Copies(TimesCounted(edges, row, podsByIp), row.sample.value)
  {
    CountedAtLeast(edges, i, row, podsByIp);
    RowInLinkSums(edges, [row], podsByIp);
    NoRowsNoLinks(edges, podsByIp);
    assert [row][..0] == [];
  }

  /** Some service edge or row draws the edge. */
  ghost predicate Drawn(edges: seq<Edge>, rows: seq<Row>, classify: Classify, k: Key) {
    k in Keyed(edges) || Seen(rows, k, classify)
  }

  lemma TwinsAreReversed(edges: seq<Edge>, keys: seq<Key>)
    requires |keys| == |edges| && forall i | 0 <= i < |edges| :: KeyOf(edges[i]) == keys[i]
    requires Distinct(keys)
    ensures NoTwins(edges) <==> forall k | k in keys && k.0 != k.1 :: (k.1, k.0) !in keys
  {
    if !NoTwins(edges) {
      var i, j :| 0 <= i < j < |edges| && Twins(edges[i], edges[j]);
      assert keys[i] != keys[j];
      assert keys[i] in keys && keys[j] == (keys[i].1, keys[i].0) && keys[j] in keys;
    }
    forall k | k in keys && k.0 != k.1 && (k.1, k.0) in keys ensures !NoTwins(edges) {
      var i :| 0 <= i < |keys| && keys[i] == k;
      var j :| 0 <= j < |keys| && keys[j] == (k.1, k.0);
      assert Twins(edges[i], edges[j]) && Twins(edges[j], edges[i]);
    }
  }

  /** The merged graph is free of twins exactly when no edge is drawn together with its reverse. */
  lemma MergedTwinFree(edges: seq<Edge>, rows: seq<Row>, classify: Classify, show: real -> string)
    ensures NoTwins(Merged(edges, rows, classify, show)) <==>
            forall k | Drawn(edges, rows, classify, k) && k.0 != k.1 :: !Drawn(edges, rows, classify, (k.1, k.0))
  {
    var m := AddRows(Keyed(edges), rows, classify, show);
    KeyedOwnKeys(edges);
    AddRowsOwnKeys(Keyed(edges), rows, classify, show);
    OrderIsDistinct(m);
    TwinsAreReversed(Merged(edges, rows, classify, show), PairOrder(m.Keys));
    forall k: Key ensures Drawn(edges, rows, classify, k) <==> k in PairOrder(m.Keys) {
      EdgeExact(Keyed(edges), rows, classify, show, k);
    }
  }

  function Constant(c: FlowClass): Classify {
    _ => Some(c)
  }

  lemma TwoWayDrawn(rows: seq<Row>, classify: Classify, a: string, b: string, k: Key)
    requires |rows| == 2 && RowKey(rows[0], classify) == Some((a, b)) && RowKey(rows[1], classify) == Some((b, a))
    ensures Drawn([], rows, classify, k) <==> k == (a, b) || k == (b, a)
  {
    if k == (a, b) {
      assert RowKey(rows[0], classify) == Some(k);
    } else if k == (b, a) {
      assert RowKey(rows[1], classify) == Some(k);
    }
  }

  lemma OneLinkTwins(graph: seq<Edge>, a: string, b: string, bytes: Row, podsByIp: map<string, string>)
    requires !NoTwins(graph) && forall i | 0 <= i < |graph| :: KeyOf(graph[i]) == (a, b) || KeyOf(graph[i]) == (b, a)
    requires PairOf(bytes, podsByIp) == Some((a, b))
    ensures TimesCounted(graph, bytes, podsByIp) >= 2
  {
    var i, j :| 0 <= i < j < |graph| && Twins(graph[i], graph[j]);
    TwinsCountTwice(graph, i, j, bytes, podsByIp);
  }

  /** Traffic both ways between two nodes makes twins, and a byte row between them counts twice. */
  lemma RepliesTwin(
    rows: seq<Row>, classify: Classify, show: real -> string, a: string, b: string, bytes: Row, podsByIp: map<string, string>)
    requires |rows| == 2 && RowKey(rows[0], classify) == Some((a, b)) && RowKey(rows[1], classify) == Some((b, a)) && a != b
    requires PairOf(bytes, podsByIp) == Some((a, b))
    ensures var graph := Merged([], rows, classify, show);
      !NoTwins(graph) && TimesCounted(graph, bytes, podsByIp) >= 2
  {
    var graph := Merged([], rows, classify, show);
    TwoWayDrawn(rows, classify, a, b, (a, b));
    TwoWayDrawn(rows, classify, a, b, (b, a));
    MergedTwinFree([], rows, classify, show);
    forall i | 0 <= i < |graph| ensures KeyOf(graph[i]) == (a, b) || KeyOf(graph[i]) == (b, a) {
      DrawnKeys([], rows, classify, show, i);
      TwoWayDrawn(rows, classify, a, b, KeyOf(graph[i]));
    }
    OneLinkTwins(graph, a, b, bytes, podsByIp);
  }

  /** Two apps that talk to each other are enough. */
  lemma RepliesMakeTwins(show: real -> string)
    ensures var rows := [Row("web", "db", "", Some(1.0)), Row("db", "web", "", Some(1.0))];
      var bytes, pods := Row("10.0.0.1", "10.0.0.2", "", Some(8.0)), map["10.0.0.1" := "web", "10.0.0.2" := "db"];
      var graph := Merged([], rows, Constant(Cluster), show);
      !NoTwins(graph) && TimesCounted(graph, bytes, pods) >= 2
  {
    var rows := [Row("web", "db", "", Some(1.0)), Row("db", "web", "", Some(1.0))];
    var bytes, pods := Row("10.0.0.1", "10.0.0.2", "", Some(8.0)), map["10.0.0.1" := "web", "10.0.0.2" := "db"];
    RepliesTwin(rows, Constant(Cluster), show, "web", "db", bytes, pods);
  }

  /** Every edge of the merged graph is drawn by a service or by a row. */
  lemma DrawnKeys(edges: seq<Edge>, rows: seq<Row>, classify: Classify, show: real -> string, i: nat)
    requires i < |Merged(edges, rows, classify, show)|
    ensures Drawn(edges, rows, classify, KeyOf(Merged(edges, rows, classify, show)[i]))
  {
    var m := AddRows(Keyed(edges), rows, classify, show);
    KeyedOwnKeys(edges);
    AddRowsOwnKeys(Keyed(edges), rows, classify, show);
    EdgeExact(Keyed(edges), rows, classify, show, PairOrder(m.Keys)[i]);
  }

  // -------------------------------------------------- bytes of the local network

  /** The node that flows use for a reported name: the local network has its own. */
  function FlowEndpoint(name: string, podsByIp: map<string, string>): Option<string> {
    if name == "lan" then Some("lan") else Endpoint(name, podsByIp)
  }

  function FlowPairOf(row: Row, podsByIp: map<string, string>): Option<Key> {
    var source, target := FlowEndpoint(row.source, podsByIp), FlowEndpoint(row.destination, podsByIp);
    if row.sample.None? || source.None? || target.None? || source == target then None
    else Some((source.value, target.value))
  }

  /** The bytes between two nodes if byte rows used the nodes that flows use. */
  function FlowLinkSum(rows: seq<Row>, k: Key, podsByIp: map<string, string>): real {
    if rows == [] then 0.0
    else
      var n := |rows| - 1;
      var pair := FlowPairOf(rows[n], podsByIp);
      FlowLinkSum(rows[..n], k, podsByIp) +
      if pair == Some(k) || pair == Some((k.1, k.0)) then rows[n].sample.value else 0.0
  }

  /** The row measures bytes between a node and the local network. */
  predicate LanRow(row: Row, node: string, podsByIp: map<string, string>) {
    && row.sample.Some?
    && (|| (row.destination == "lan" && row.source != "lan" && Endpoint(row.source, podsByIp) == Some(node))
        || (row.source == "lan" && row.destination != "lan" && Endpoint(row.destination, podsByIp) == Some(node)))
  }

  function LanSum(rows: seq<Row>, node: string, podsByIp: map<string, string>): real {
    if rows == [] then 0.0
    else
      var n := |rows| - 1;
      LanSum(rows[..n], node, podsByIp) + if LanRow(rows[n], node, podsByIp) then rows[n].sample.value else 0.0
  }

  /**
   * Bytes between a node and the local network are missing on the local network's edge and are all drawn on the
   * internet's edge instead.
   */
  lemma {:induction false} LanBytesMoved(rows: seq<Row>, node: string, podsByIp: map<string, string>)
    requires node != "lan" && node != "external"
    ensures LinkSum(rows, (node, "lan"), podsByIp) == FlowLinkSum(rows, (node, "lan"), podsByIp) - LanSum(rows, node, podsByIp)
    ensures LinkSum(rows, (node, "external"), podsByIp) ==
            FlowLinkSum(rows, (node, "external"), podsByIp) + LanSum(rows, node, podsByIp)
  {
    if rows != [] {
      LanBytesMoved(rows[..|rows| - 1], node, podsByIp);
      LanRowMoved(rows[|rows| - 1], node, podsByIp);
    }
  }

  lemma LanRowMoved(row: Row, node: string, podsByIp: map<string, string>)
    requires node != "lan" && node != "external"
    ensures var pair := FlowPairOf(row, podsByIp);
      && (LanRow(row, node, podsByIp) <==>
            (pair == Some((node, "lan")) || pair == Some(("lan", node))) && !OnLink(row, (node, "lan"), podsByIp))
      && (OnLink(row, (node, "lan"), podsByIp) ==> pair == Some((node, "lan")) || pair == Some(("lan", node)))
      && (OnLink(row, (node, "external"), podsByIp) <==>
            LanRow(row, node, podsByIp) || pair == Some((node, "external")) || pair == Some(("external", node)))
      && (LanRow(row, node, podsByIp) ==> pair != Some((node, "external")) && pair != Some(("external", node)))
  {
  }

  /** Either edge weighs what it should exactly when no bytes were exchanged with the local network. */
  lemma LanEdgesRight(rows: seq<Row>, node: string, podsByIp: map<string, string>)
    requires node != "lan" && node != "external"
    ensures LinkSum(rows, (node, "lan"), podsByIp) == FlowLinkSum(rows, (node, "lan"), podsByIp) <==>
            LanSum(rows, node, podsByIp) == 0.0
    ensures LinkSum(rows, (node, "external"), podsByIp) == FlowLinkSum(rows, (node, "external"), podsByIp) <==>
            LanSum(rows, node, podsByIp) == 0.0
  {
    LanBytesMoved(rows, node, podsByIp);
  }

  /** Between the two shared nodes, what the local network sends is lost and what namespace "lan" sends it is drawn. */
  lemma {:induction false} LanAndInternet(rows: seq<Row>, podsByIp: map<string, string>)
    ensures LinkSum(rows, ("external", "lan"), podsByIp) ==
            FlowLinkSum(rows, ("external", "lan"), podsByIp) - LanSum(rows, "external", podsByIp) + LanSum(rows, "lan", podsByIp)
  {
    if rows != [] {
      LanAndInternet(rows[..|rows| - 1], podsByIp);
      LanInternetRow(rows[|rows| - 1], podsByIp);
    }
  }

  lemma LanInternetRow(row: Row, podsByIp: map<string, string>)
    ensures var pair := FlowPairOf(row, podsByIp);
      var between := pair == Some(("external", "lan")) || pair == Some(("lan", "external"));
      && (LanRow(row, "external", podsByIp) ==> between) && (LanRow(row, "lan", podsByIp) ==> !between)
      && (OnLink(row, ("external", "lan"), podsByIp) <==>
            (between && !LanRow(row, "external", podsByIp)) || LanRow(row, "lan", podsByIp))
  {
  }

  /** Unless some pod's namespace is called "lan", the edges to the local network get no bytes at all. */
  lemma {:induction false} LanEdgesGetNoBytes(rows: seq<Row>, source: string, podsByIp: map<string, string>)
    requires forall ip | ip in podsByIp :: podsByIp[ip] != "lan"
    ensures LinkSum(rows, (source, "lan"), podsByIp) == 0.0
  {
    if rows != [] {
      LanEdgesGetNoBytes(rows[..|rows| - 1], source, podsByIp);
    }
  }

  /** One pod and one printer: the flow draws the edge to the local network, the bytes go to the internet's edge. */
  lemma LanBytesOnInternetEdge(show: real -> string)
    ensures var flows, bytes := [Row("app", "printer", "", Some(1.0))], [Row("10.0.0.1", "lan", "", Some(8.0))];
      var pods := map["10.0.0.1" := "app"];
      && Drawn([], flows, Constant(Lan), ("app", "lan"))
      && LinkSum(bytes, ("app", "lan"), pods) == 0.0 && LinkSum(bytes, ("app", "external"), pods) == 8.0
      && LanSum(bytes, "app", pods) == 8.0
  {
    var flows, bytes := [Row("app", "printer", "", Some(1.0))], [Row("10.0.0.1", "lan", "", Some(8.0))];
    var pods := map["10.0.0.1" := "app"];
    assert RowKey(flows[0], Constant(Lan)) == Some(("app", "lan"));
    assert bytes[..0] == [];
    assert PairOf(bytes[0], pods) == Some(("app", "external"));
    assert OnLink(bytes[0], ("app", "external"), pods) && !OnLink(bytes[0], ("app", "lan"), pods);
  }
}
