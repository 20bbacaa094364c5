/** Flow rates per destination class, in total and per app. */
module FlowTotals {
  import opened Common
  import opened Ordering

  datatype FlowClass = Internet | Lan | Cluster

  /** Which class a destination label belongs to; any total function will do. */
  type Classify = string -> Option<FlowClass>

  /** One VictoriaMetrics row; `sample` is None when its value is missing or malformed. */
  datatype Row = Row(source: string, destination: string, className: string, sample: Option<real>)

  datatype Kind = Flows | Drops | Bytes

  datatype Rates = Rates(flows: real, drops: real, bytes: real)

  datatype ClassTotals = ClassTotals(internet: Rates, lan: Rates, cluster: Rates, storage: Rates)

  datatype AppRates = AppRates(app: string, totals: ClassTotals)

  const NO_RATES := Rates(0.0, 0.0, 0.0)
  const NO_TOTALS := ClassTotals(NO_RATES, NO_RATES, NO_RATES, NO_RATES)

  function RatesFor(t: ClassTotals, c: FlowClass): Rates {
    match c
    case Internet => t.internet
    case Lan => t.lan
    case Cluster => t.cluster
  }

  function WithRates(t: ClassTotals, c: FlowClass, r: Rates): ClassTotals {
    match c
    case Internet => t.(internet := r)
    case Lan => t.(lan := r)
    case Cluster => t.(cluster := r)
  }

  function RateOf(r: Rates, k: Kind): real {
    match k
    case Flows => r.flows
    case Drops => r.drops
    case Bytes => r.bytes
  }

  function Plus(r: Rates, k: Kind, v: real): Rates {
    match k
    case Flows => r.(flows := r.flows + v)
    case Drops => r.(drops := r.drops + v)
    case Bytes => r.(bytes := r.bytes + v)
  }

  // ------------------------------------------------------------ what rows add up to

  function AppOf(row: Row): string {
    if row.source == "" then "host" else row.source
  }

  /** What a row contributes to a class, for one app or for all of them. */
  function Amount(row: Row, classify: Classify, c: FlowClass, app: Option<string>): real {
    if classify(row.destination) == Some(c) && row.sample.Some? && (app.None? || app.value == AppOf(row)) then row.sample.value
    else 0.0
  }

  function Sum(rows: seq<Row>, classify: Classify, c: FlowClass, app: Option<string>): real {
    if rows == [] then 0.0
    else
      var n := |rows| - 1;
      Sum(rows[..n], classify, c, app) + Amount(rows[n], classify, c, app)
  }

  function ClassOfName(name: string): Option<FlowClass> {
    if name == "internet" then Some(Internet)
    else if name == "lan" then Some(Lan)
    else if name == "cluster" then Some(Cluster)
    else None
  }

  /** The name under which the flow series collects a class. */
  function NameOfClass(c: FlowClass): string {
    match c
    case Internet => "internet"
    case Lan => "lan"
    case Cluster => "cluster"
  }

  /** The two tables of class names are each other's inverses. */
  lemma ClassNamesMeet(name: string, c: FlowClass)
    ensures ClassOfName(name) == Some(c) <==> name == NameOfClass(c)
  {
  }

  /** The bytes that rows report under a class name of their own. */
  function NamedSum(rows: seq<Row>, c: FlowClass): real {
    if rows == [] then 0.0
    else
      var n := |rows| - 1;
      NamedSum(rows[..n], c) +
      if ClassOfName(rows[n].className) == Some(c) && rows[n].sample.Some? then rows[n].sample.value else 0.0
  }

  /** A row's own name for a class. */
  ghost predicate NamesClass(row: Row, c: FlowClass) {
    || (row.className == "internet" && c == Internet)
    || (row.className == "lan" && c == Lan)
    || (row.className == "cluster" && c == Cluster)
  }

  /** Row by row, what the sums add: a value counts for the class that is named, and once per app or for all apps. */
  lemma SumsExact(rows: seq<Row>, row: Row, classify: Classify, c: FlowClass, app: Option<string>)
    ensures Sum([], classify, c, app) == 0.0 == NamedSum([], c)
    ensures Sum(rows + [row], classify, c, app) ==
            Sum(rows, classify, c, app) +
            if classify(row.destination) == Some(c) && row.sample.Some?
               && (app.None? || app.value == row.source != "" || (app.value == "host" && row.source == ""))
            then row.sample.value else 0.0
    ensures NamedSum(rows + [row], c) ==
            NamedSum(rows, c) + if NamesClass(row, c) && row.sample.Some? then row.sample.value else 0.0
  {
    assert (rows + [row])[..|rows + [row]| - 1] == rows;
  }

  /** `u` is `r` with `v` on one of its three rates. */
  ghost predicate Grows(r: Rates, u: Rates, k: Kind, v: real) {
    && u.flows == r.flows + (if k == Flows then v else 0.0)
    && u.drops == r.drops + (if k == Drops then v else 0.0)
    && u.bytes == r.bytes + (if k == Bytes then v else 0.0)
  }

  /** `u` is `t` with `added(c)` on the `k` rate of every class and nothing else. */
  ghost predicate Added(t: ClassTotals, u: ClassTotals, k: Kind, added: FlowClass -> real) {
    && u.storage == t.storage
    && Grows(t.internet, u.internet, k, added(Internet))
    && Grows(t.lan, u.lan, k, added(Lan))
    && Grows(t.cluster, u.cluster, k, added(Cluster))
  }

  class Totals {
    var totals: ClassTotals

    constructor ()
      ensures totals == NO_TOTALS
    {
      totals := NO_TOTALS;
    }

    method AbsorbTotals(rows: seq<Row>, drops: bool, classify: Classify)
      modifies this
      ensures Added(old(totals), totals, if drops then Drops else Flows, c => Sum(rows, classify, c, None))
    {
      var kind := if drops then Drops else Flows;
      for i := 0 to |rows|
        invariant Added(old(totals), totals, kind, c => Sum(rows[..i], classify, c, None))
      {
        assert rows[..i + 1][..i] == rows[..i];
        var bucket := classify(rows[i].destination);
        if bucket.Some? && rows[i].sample.Some? {
          totals := WithRates(totals, bucket.value, Plus(RatesFor(totals, bucket.value), kind, rows[i].sample.value));
        }
      }
      assert rows[..|rows|] == rows;
    }

    method AbsorbClassBytes(rows: seq<Row>)
      modifies this
      ensures Added(old(totals), totals, Bytes, c => NamedSum(rows, c))
    {
      for i := 0 to |rows|
        invariant Added(old(totals), totals, Bytes, c => NamedSum(rows[..i], c))
      {
        assert rows[..i + 1][..i] == rows[..i];
        var bucket := ClassOfName(rows[i].className);
        if rows[i].sample.Some? && bucket.Some? {
          totals := WithRates(totals, bucket.value, Plus(RatesFor(totals, bucket.value), Bytes, rows[i].sample.value));
        }
      }
      assert rows[..|rows|] == rows;
    }
  }

  // --------------------------------------------------------------------- per app

  predicate WellFormed(row: Row, classify: Classify) {
    classify(row.destination).Some? && row.sample.Some?
  }

  /** The apps that some well-formed row names. */
  function AppsIn(rows: seq<Row>, classify: Classify): set<string> {
    if rows == [] then {}
    else
      var n := |rows| - 1;
      AppsIn(rows[..n], classify) + if WellFormed(rows[n], classify) then {AppOf(rows[n])} else {}
  }

  /** An app is named by a row with a class and a value; a row without a source belongs to this host. */
  lemma {:induction false} AppsInExact(rows: seq<Row>, classify: Classify, app: string)
    ensures app in AppsIn(rows, classify) <==>
            exists row | row in rows ::
              && classify(row.destination).Some? && row.sample.Some?
              && (row.source == app != "" || (row.source == "" && app == "host"))
  {
    if rows != [] {
      var n := |rows| - 1;
      AppsInExact(rows[..n], classify, app);
      assert rows == rows[..n] + [rows[n]];
    }
  }

  function AppTotals(forwarded: seq<Row>, dropped: seq<Row>, classify: Classify, app: string): ClassTotals {
    ClassTotals(
      Rates(Sum(forwarded, classify, Internet, Some(app)), Sum(dropped, classify, Internet, Some(app)), 0.0),
      Rates(Sum(forwarded, classify, Lan, Some(app)), Sum(dropped, classify, Lan, Some(app)), 0.0),
      Rates(Sum(forwarded, classify, Cluster, Some(app)), Sum(dropped, classify, Cluster, Some(app)), 0.0),
      NO_RATES)
  }

  lemma {:induction false} AbsentAppSumsToZero(rows: seq<Row>, classify: Classify, c: FlowClass, app: string)
    requires app !in AppsIn(rows, classify)
    ensures Sum(rows, classify, c, Some(app)) == 0.0
  {
    if rows != [] {
      AbsentAppSumsToZero(rows[..|rows| - 1], classify, c, app);
    }
  }

  lemma AbsentAppHasNoTotals(forwarded: seq<Row>, dropped: seq<Row>, classify: Classify, app: string)
    requires app !in AppsIn(forwarded, classify) && app !in AppsIn(dropped, classify)
    ensures AppTotals(forwarded, dropped, classify, app) == NO_TOTALS
  {
    forall c
      ensures Sum(forwarded, classify, c, Some(app)) == 0.0 && Sum(dropped, classify, c, Some(app)) == 0.0
    {
      AbsentAppSumsToZero(forwarded, classify, c, app);
      AbsentAppSumsToZero(dropped, classify, c, app);
    }
  }

  /** The map that the two loops of `apps_from_vm` have built. */
  ghost predicate Built(byApp: map<string, ClassTotals>, forwarded: seq<Row>, dropped: seq<Row>, classify: Classify) {
    && byApp.Keys == AppsIn(forwarded, classify) + AppsIn(dropped, classify)
    && forall app | app in byApp :: byApp[app] == AppTotals(forwarded, dropped, classify, app)
  }

  /** One row of `apps_from_vm`. */
  method AbsorbRow(byApp: map<string, ClassTotals>, row: Row, drops: bool, classify: Classify)
    returns (r: map<string, ClassTotals>)
    ensures !WellFormed(row, classify) ==> r == byApp
    ensures WellFormed(row, classify) ==> r.Keys == byApp.Keys + {AppOf(row)}
    ensures forall a | a in byApp && a != AppOf(row) :: r[a] == byApp[a]
    ensures WellFormed(row, classify) ==>
              var c, k := classify(row.destination).value, if drops then Drops else Flows;
              var was := if AppOf(row) in byApp then byApp[AppOf(row)] else NO_TOTALS;
              r[AppOf(row)] == WithRates(was, c, Plus(RatesFor(was, c), k, row.sample.value))
    ensures WellFormed(row, classify) ==>
              var c, k := classify(row.destination).value, if drops then Drops else Flows;
              var app := if row.source == "" then "host" else row.source;
              var was := if app in byApp then byApp[app] else NO_TOTALS;
              app in r && Added(was, r[app], k, d => if d == c then row.sample.value else 0.0)
  {
    r := byApp;
    var bucket := classify(row.destination);
    if bucket.None? || row.sample.None? {
      return;
    }
    var app := if row.source == "" then "host" else row.source;
    if app !in r {
      r := r[app := NO_TOTALS];
    }
    var kind := if drops then Drops else Flows;
    r := r[app := WithRates(r[app], bucket.value, Plus(RatesFor(r[app], bucket.value), kind, row.sample.value))];
  }

  lemma BuiltForward(
    before: map<string, ClassTotals>, after: map<string, ClassTotals>, forwarded: seq<Row>, n: nat, classify: Classify)
    requires n < |forwarded| && Built(before, forwarded[..n], [], classify)
    requires var row := forwarded[n];
      if !WellFormed(row, classify) then after == before
      else
        var c, app := classify(row.destination).value, AppOf(row);
        var was := if app in before then before[app] else NO_TOTALS;
        && after.Keys == before.Keys + {app}
        && (forall a | a in before && a != app :: after[a] == before[a])
        && after[app] == WithRates(was, c, Plus(RatesFor(was, c), Flows, row.sample.value))
    ensures Built(after, forwarded[..n + 1], [], classify)
  {
    var rows, row := forwarded[..n + 1], forwarded[n];
    assert rows[..n] == forwarded[..n];
    if WellFormed(row, classify) && AppOf(row) !in before {
      AbsentAppHasNoTotals(forwarded[..n], [], classify, AppOf(row));
    }
    forall a | a in after ensures after[a] == AppTotals(rows, [], classify, a) {
      assert forall c ::
        Sum(rows, classify, c, Some(a)) == Sum(forwarded[..n], classify, c, Some(a)) + Amount(row, classify, c, Some(a));
    }
  }

  lemma BuiltDropped(
    before: map<string, ClassTotals>, after: map<string, ClassTotals>, forwarded: seq<Row>, dropped: seq<Row>, n: nat,
    classify: Classify)
    requires n < |dropped| && Built(before, forwarded, dropped[..n], classify)
    requires var row := dropped[n];
      if !WellFormed(row, classify) then after == before
      else
        var c, app := classify(row.destination).value, AppOf(row);
        var was := if app in before then before[app] else NO_TOTALS;
        && after.Keys == before.Keys + {app}
        && (forall a | a in before && a != app :: after[a] == before[a])
        && after[app] == WithRates(was, c, Plus(RatesFor(was, c), Drops, row.sample.value))
    ensures Built(after, forwarded, dropped[..n + 1], classify)
  {
    var rows, row := dropped[..n + 1], dropped[n];
    assert rows[..n] == dropped[..n];
    if WellFormed(row, classify) && AppOf(row) !in before {
      AbsentAppHasNoTotals(forwarded, dropped[..n], classify, AppOf(row));
    }
    forall a | a in after ensures after[a] == AppTotals(forwarded, rows, classify, a) {
      assert forall c ::
        Sum(rows, classify, c, Some(a)) == Sum(dropped[..n], classify, c, Some(a)) + Amount(row, classify, c, Some(a));
    }
  }

  /** What `apps_from_vm` returns: one entry per app with a well-formed row, in name order, with the sums of its own rows. */
  function AppBreakdown(forwarded: seq<Row>, dropped: seq<Row>, classify: Classify): seq<AppRates> {
    BeforeIsTotal();
    var apps := Ascending(AppsIn(forwarded, classify) + AppsIn(dropped, classify), Before);
    seq(|apps|, i requires 0 <= i < |apps| => AppRates(apps[i], AppTotals(forwarded, dropped, classify, apps[i])))
  }

  method AppsFromVm(forwarded: seq<Row>, dropped: seq<Row>, classify: Classify) returns (r: seq<AppRates>)
    ensures r == AppBreakdown(forwarded, dropped, classify)
  {
    var byApp: map<string, ClassTotals> := map[];
    for i := 0 to |forwarded|
      invariant Built(byApp, forwarded[..i], [], classify)
    {
      ghost var before := byApp;
      byApp := AbsorbRow(byApp, forwarded[i], false, classify);
      BuiltForward(before, byApp, forwarded, i, classify);
    }
    assert forwarded[..|forwarded|] == forwarded;
    for i := 0 to |dropped|
      invariant Built(byApp, forwarded, dropped[..i], classify)
    {
      ghost var before := byApp;
      byApp := AbsorbRow(byApp, dropped[i], true, classify);
      BuiltDropped(before, byApp, forwarded, dropped, i, classify);
    }
    assert dropped[..|dropped|] == dropped;
    BeforeIsTotal();
    var apps := Ascending(byApp.Keys, Before);
    assert forall i | 0 <= i < |apps| :: apps[i] in apps;
    r := seq(|apps|, i requires 0 <= i < |apps| => AppRates(apps[i], byApp[apps[i]]));
  }

  // ----------------------------------------------------------------- conservation

  function BreakdownSum(apps: seq<AppRates>, c: FlowClass, k: Kind): real {
    if apps == [] then 0.0
    else BreakdownSum(apps[..|apps| - 1], c, k) + RateOf(RatesFor(apps[|apps| - 1].totals, c), k)
  }

  function SumOverApps(apps: seq<string>, rows: seq<Row>, classify: Classify, c: FlowClass): real {
    if apps == [] then 0.0
    else SumOverApps(apps[..|apps| - 1], rows, classify, c) + Sum(rows, classify, c, Some(apps[|apps| - 1]))
  }

  /** A row is counted for the one app it belongs to. */
  lemma {:induction false} RowCountedOnce(apps: seq<string>, rows: seq<Row>, classify: Classify, c: FlowClass)
    requires rows != [] && Distinct(apps)
    ensures var n := |rows| - 1;
      SumOverApps(apps, rows, classify, c) == SumOverApps(apps, rows[..n], classify, c) +
        if AppOf(rows[n]) in apps then Amount(rows[n], classify, c, None) else 0.0
  {
    if apps != [] {
      RowCountedOnce(apps[..|apps| - 1], rows, classify, c);
      assert apps == apps[..|apps| - 1] + [apps[|apps| - 1]];
    }
  }

  lemma {:induction false} NoRowsNoSum(apps: seq<string>, classify: Classify, c: FlowClass)
    ensures SumOverApps(apps, [], classify, c) == 0.0
  {
    if apps != [] {
      NoRowsNoSum(apps[..|apps| - 1], classify, c);
    }
  }

  lemma {:induction false} AppsSplitTheSum(apps: seq<string>, rows: seq<Row>, classify: Classify, c: FlowClass)
    requires Distinct(apps) && forall a | a in AppsIn(rows, classify) :: a in apps
    ensures SumOverApps(apps, rows, classify, c) == Sum(rows, classify, c, None)
  {
    if rows == [] {
      NoRowsNoSum(apps, classify, c);
    } else {
      AppsSplitTheSum(apps, rows[..|rows| - 1], classify, c);
      RowCountedOnce(apps, rows, classify, c);
    }
  }

  lemma {:induction false} BreakdownIsSumOverApps(
    apps: seq<string>, list: seq<AppRates>, forwarded: seq<Row>, dropped: seq<Row>, classify: Classify, c: FlowClass)
    requires |list| == |apps|
    requires forall i | 0 <= i < |apps| :: list[i] == AppRates(apps[i], AppTotals(forwarded, dropped, classify, apps[i]))
    ensures BreakdownSum(list, c, Flows) == SumOverApps(apps, forwarded, classify, c)
    ensures BreakdownSum(list, c, Drops) == SumOverApps(apps, dropped, classify, c)
  {
    if apps != [] {
      var n := |apps| - 1;
      BreakdownIsSumOverApps(apps[..n], list[..n], forwarded, dropped, classify, c);
    }
  }

  /** Summed over apps, the breakdown equals the class totals of the same rows, for flows and for drops. */
  lemma BreakdownConservesFlow(forwarded: seq<Row>, dropped: seq<Row>, classify: Classify, c: FlowClass)
    ensures BreakdownSum(AppBreakdown(forwarded, dropped, classify), c, Flows) == Sum(forwarded, classify, c, None)
    ensures BreakdownSum(AppBreakdown(forwarded, dropped, classify), c, Drops) == Sum(dropped, classify, c, None)
  {
    BeforeIsTotal();
    var apps := Ascending(AppsIn(forwarded, classify) + AppsIn(dropped, classify), Before);
    assert Distinct(apps) by {
      assert forall i, j | 0 <= i < j < |apps| :: Before(apps[i], apps[j]);
    }
    BreakdownIsSumOverApps(apps, AppBreakdown(forwarded, dropped, classify), forwarded, dropped, classify, c);
    AppsSplitTheSum(apps, forwarded, classify, c);
    AppsSplitTheSum(apps, dropped, classify, c);
  }

  lemma {:induction false} SumConcat(a: seq<Row>, b: seq<Row>, classify: Classify, c: FlowClass, app: Option<string>)
    ensures Sum(a + b, classify, c, app) == Sum(a, classify, c, app) + Sum(b, classify, c, app)
  {
    if b == [] {
      assert a + b == a;
    } else {
      var n := |b| - 1;
      assert (a + b)[..|a + b| - 1] == a + b[..n];
      SumConcat(a, b[..n], classify, c, app);
    }
  }

  lemma SumWithout(rows: seq<Row>, i: nat, classify: Classify, c: FlowClass, app: Option<string>)
    requires i < |rows|
    ensures Sum(rows, classify, c, app) == Sum(Without(rows, i), classify, c, app) + Amount(rows[i], classify, c, app)
  {
    SumConcat(rows[..i], rows[i + 1..], classify, c, app);
    SumConcat(rows[..i + 1], rows[i + 1..], classify, c, app);
    assert rows == rows[..i + 1] + rows[i + 1..] && rows[..i + 1][..i] == rows[..i];
  }

  /** The order in which rows arrive does not matter. */
  lemma {:induction false} SumOrderFree(a: seq<Row>, b: seq<Row>, classify: Classify, c: FlowClass, app: Option<string>)
    requires multiset(a) == multiset(b)
    ensures Sum(a, classify, c, app) == Sum(b, classify, c, app)
    decreases |a|
  {
    if a == [] {
      assert |multiset(b)| == 0;
    } else {
      assert a[0] in multiset(b);
      var i :| 0 <= i < |b| && b[i] == a[0];
      WithoutCounts(a, 0);
      WithoutCounts(b, i);
      SumOrderFree(Without(a, 0), Without(b, i), classify, c, app);
      SumWithout(a, 0, classify, c, app);
      SumWithout(b, i, classify, c, app);
    }
  }
}
