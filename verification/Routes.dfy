/** App routes: the host a ticket is issued for, and the gateway lookup that must agree with it. */
module Routes {
  import opened Common
  import opened Strings
  import opened TransferCodec

  datatype RouteMode = ExactHost | Subdomain | PathRoute | OtherMode

  datatype Assignment = Assignment(
    app: string, domainId: int, mode: RouteMode, hostname: Option<string>,
    pathPrefix: Option<string>, primary: bool, enabled: bool)

  datatype Domain = Domain(name: string, enabled: bool)

  datatype Route = Route(app: string, mode: RouteMode, targetPath: string)

  /**
   * Rust's `to_lowercase` maps all of Unicode; `to_ascii_lowercase` maps ASCII only.
   * The gateway uses the first and ticket targets the second, so the first is a parameter
   * of which only its agreement on ASCII text is known.
   */
  ghost predicate LowersAscii(lower: string -> string) {
    forall s | IsAscii(s) :: lower(s) == AsciiLower(s)
  }

  function BareDomain(domain: Domain): string {
    TrimStartMatches(domain.name, "*.")
  }

  /** `transfer_target`. */
  function TransferTarget(a: Assignment, d: Domain): Option<string> {
    if !a.enabled || !d.enabled || a.mode !in {ExactHost, Subdomain} || a.hostname.None? then None else
    var hostname := AsciiLower(Trim(a.hostname.value));
    var target :=
      if a.mode == ExactHost || '.' in hostname then hostname else hostname + "." + BareDomain(d);
    if ValidHostname(target) then Some(target) else None
  }

  /** `assignment_host`. */
  function AssignmentHost(a: Assignment, d: Domain, lower: string -> string): Option<string> {
    if a.hostname.None? then None else
    var host := lower(Trim(a.hostname.value));
    if host == "" then None
    else if a.mode == ExactHost || '.' in host then Some(host)
    else Some(host + "." + BareDomain(d))
  }

  /** `normalize_host`. */
  function NormalizeHost(raw: string, lower: string -> string): string {
    lower(Trim(Split(raw, ':')[0]))
  }

  lemma {:induction false} LowerPreservesAscii(s: string)
    ensures IsAscii(AsciiLower(s)) ==> IsAscii(s)
  {
    if IsAscii(AsciiLower(s)) {
      forall i | 0 <= i < |s| ensures s[i] as int < 128 {
        assert AsciiLower(s)[i] in AsciiLower(s);
      }
    }
  }

  lemma HostnameIsPlain(host: string)
    requires ValidHostname(host)
    ensures IsAscii(host) && ':' !in host && Bare(host, IsSpace)
  {
    HostnameCharset(host);
    assert host[0] in host && host[|host| - 1] in host;
  }

  /** The host a ticket is issued for is the host the gateway compares requests with. */
  lemma TargetIsAssignmentHost(a: Assignment, d: Domain, lower: string -> string)
    requires LowersAscii(lower) && TransferTarget(a, d).Some?
    ensures AssignmentHost(a, d, lower) == TransferTarget(a, d)
  {
    var raw := Trim(a.hostname.value);
    var target := TransferTarget(a, d).value;
    HostnameIsPlain(target);
    assert AsciiLower(raw) <= target;
    assert IsAscii(AsciiLower(raw)) by {
      forall i | 0 <= i < |raw| ensures AsciiLower(raw)[i] as int < 128 {
        assert target[i] in target;
      }
    }
    LowerPreservesAscii(raw);
    LeadingDotInvalid(BareDomain(d));
  }

  lemma LeadingDotInvalid(rest: string)
    ensures !ValidHostname("." + rest)
  {
    assert "." + rest == "" + ['.'] + rest;
    SplitConcat("", '.', rest);
    assert Split("." + rest, '.')[0] == "";
    assert "" in Split("." + rest, '.');
  }

  /** A request for `host`, with any port, is looked up under its lower-case form. */
  lemma NormalizeHostExact(host: string, port: string, lower: string -> string)
    requires LowersAscii(lower) && ValidHostname(host)
    requires port == "" || port[0] == ':'
    ensures NormalizeHost(host + port, lower) == AsciiLower(host)
  {
    HostnameIsPlain(host);
    SplitWhole(host, ':');
    if port == "" {
      assert host + port == host;
    } else {
      assert host + port == host + [':'] + port[1..];
      SplitConcat(host, ':', port[1..]);
    }
    TrimBare(host, IsSpace);
  }

  // ------------------------------------------------------------ path matching

  predicate IsSlash(c: char) { c == '/' }

  /** `normalize_request_path`. */
  function NormalizePath(path: string): (r: string)
    ensures StartsWith(r, "/")
  {
    var p := Trim(Split(path, '?')[0]);
    if p == "" then "/" else if StartsWith(p, "/") then p else "/" + p
  }

  function Slashless(prefix: string): string {
    TrimEndBy(prefix, IsSlash)
  }

  /** `path_matches_prefix`. */
  predicate PathMatches(path: string, prefix: string) {
    path == prefix || StartsWith(path, Slashless(prefix) + "/")
  }

  /** `strip_path_prefix`. */
  function StripPath(path: string, prefix: string): string {
    var trimmed := Slashless(prefix);
    var stripped := if trimmed <= path then path[|trimmed|..] else path;
    if stripped == "" then "/" else if StartsWith(stripped, "/") then stripped else "/" + stripped
  }

  /** `host_matches_domain`. */
  predicate HostMatches(host: string, domain: Domain) {
    host == BareDomain(domain) || EndsWith(host, "." + BareDomain(domain))
  }

  lemma {:induction false} JoinConcat(a: seq<string>, b: seq<string>, sep: string)
    requires a != [] && b != []
    ensures Join(a + b, sep) == Join(a, sep) + sep + Join(b, sep)
  {
    if |a| == 1 {
      assert (a + b)[1..] == b;
    } else {
      assert (a + b)[1..] == a[1..] + b;
      JoinConcat(a[1..], b, sep);
    }
  }

  /** Extending a text by the separator is extending its pieces. */
  lemma SegmentPrefix(t: string, s: string, sep: char)
    ensures t + [sep] <= s <==> Split(t, sep) < Split(s, sep)
  {
    if t + [sep] <= s {
      var rest := s[|t| + 1..];
      assert s == t + [sep] + rest;
      SplitConcat(t, sep, rest);
    }
    if Split(t, sep) < Split(s, sep) {
      var rest := Split(s, sep)[|Split(t, sep)|..];
      assert Split(s, sep) == Split(t, sep) + rest;
      JoinConcat(Split(t, sep), rest, [sep]);
      SplitJoin(t, sep);
      SplitJoin(s, sep);
      assert s == t + [sep] + Join(rest, [sep]);
    }
  }

  ghost predicate IsSuffix<T>(a: seq<T>, b: seq<T>) {
    |a| <= |b| && b[|b| - |a|..] == a
  }

  lemma SuffixSplits(t: string, s: string, sep: char)
    requires EndsWith(s, [sep] + t)
    ensures |Split(t, sep)| < |Split(s, sep)| && IsSuffix(Split(t, sep), Split(s, sep))
  {
    var front := s[..|s| - |t| - 1];
    assert s == front + ([sep] + t) == front + [sep] + t;
    SplitConcat(front, sep, t);
  }

  lemma SplitsSuffix(t: string, s: string, sep: char)
    requires |Split(t, sep)| < |Split(s, sep)| && IsSuffix(Split(t, sep), Split(s, sep))
    ensures EndsWith(s, [sep] + t)
  {
    var ts, ss := Split(t, sep), Split(s, sep);
    var front := ss[..|ss| - |ts|];
    assert ss == front + ts;
    JoinConcat(front, ts, [sep]);
    SplitJoin(t, sep);
    SplitJoin(s, sep);
    assert s == Join(front, [sep]) + ([sep] + t);
  }

  /** A prefix matches on whole path segments only. */
  lemma PathMatchesSegments(path: string, prefix: string)
    ensures PathMatches(path, prefix)
       <==> path == prefix || Split(Slashless(prefix), '/') < Split(path, '/')
    ensures Slashless(prefix) == prefix ==>
      (PathMatches(path, prefix) <==> Split(prefix, '/') <= Split(path, '/'))
  {
    SegmentPrefix(Slashless(prefix), path, '/');
    if Split(prefix, '/') <= Split(path, '/') && |Split(prefix, '/')| == |Split(path, '/')| {
      SplitInjective(prefix, path, '/');
    }
  }

  /** A host belongs to a domain on whole name labels only. */
  lemma HostMatchesLabels(host: string, domain: Domain)
    ensures HostMatches(host, domain) <==> IsSuffix(Split(BareDomain(domain), '.'), Split(host, '.'))
  {
    var ds, hs := Split(BareDomain(domain), '.'), Split(host, '.');
    if EndsWith(host, ['.'] + BareDomain(domain)) {
      SuffixSplits(BareDomain(domain), host, '.');
    }
    if IsSuffix(ds, hs) {
      if |ds| == |hs| {
        assert hs[0..] == hs;
        SplitInjective(host, BareDomain(domain), '.');
      } else {
        SplitsSuffix(BareDomain(domain), host, '.');
      }
    }
  }

  /** The trimmed prefix followed by the target path is the request path, unless the target stands for "". */
  lemma StripPathRebuilds(path: string, prefix: string)
    requires StartsWith(path, "/") && PathMatches(path, prefix)
    ensures var target := StripPath(path, prefix);
      && StartsWith(target, "/")
      && (path == Slashless(prefix) + target || (path == Slashless(prefix) && target == "/"))
  {
    var trimmed := Slashless(prefix);
    var slashes := TrimEndShape(prefix, IsSlash);
    if path == prefix {
      assert path[|trimmed|..] == slashes;
      if slashes != "" {
        assert slashes[0] in slashes;
      }
    } else {
      assert path[|trimmed|] == (trimmed + "/")[|trimmed|];
    }
    assert path == trimmed + path[|trimmed|..];
  }

  // ------------------------------------------------------------------ lookup

  function EnabledRows(rows: seq<Assignment>): (r: seq<Assignment>)
    ensures forall a :: a in r <==> a in rows && a.enabled
  {
    if rows == [] then []
    else
      assert rows == [rows[0]] + rows[1..];
      (if rows[0].enabled then [rows[0]] else []) + EnabledRows(rows[1..])
  }

  /** What one row of the lookup contributes for a normalised host and path. */
  function RouteOf(
    a: Assignment, domains: map<int, Domain>, host: string, path: string, lower: string -> string): Option<Route>
  {
    if a.domainId !in domains || !domains[a.domainId].enabled then None else
    var d := domains[a.domainId];
    match a.mode
    case ExactHost => if AssignmentHost(a, d, lower) == Some(host) then Some(Route(a.app, a.mode, path)) else None
    case Subdomain => if AssignmentHost(a, d, lower) == Some(host) then Some(Route(a.app, a.mode, path)) else None
    case PathRoute =>
      if a.pathPrefix.None? then None else
      var prefix := NormalizePath(a.pathPrefix.value);
      if HostMatches(host, d) && PathMatches(path, prefix) then Some(Route(a.app, a.mode, StripPath(path, prefix)))
      else None
    case OtherMode => None
  }

  /** `found` is the route of the first enabled row that has one. */
  ghost predicate IsFirstRoute(rows: seq<Assignment>, domains: map<int, Domain>, rawHost: string, rawPath: string,
                               lower: string -> string, found: Option<Route>)
  {
    var live := EnabledRows(rows);
    var host, path := NormalizeHost(rawHost, lower), NormalizePath(rawPath);
    match found
    case None => forall a | a in live :: RouteOf(a, domains, host, path, lower).None?
    case Some(_) =>
      exists i | 0 <= i < |live| ::
        && RouteOf(live[i], domains, host, path, lower) == found
        && forall a | a in live[..i] :: RouteOf(a, domains, host, path, lower).None?
  }

  lemma FirstRouteAt(rows: seq<Assignment>, domains: map<int, Domain>, rawHost: string, rawPath: string,
                     lower: string -> string, i: nat)
    requires i < |EnabledRows(rows)|
    requires forall a | a in EnabledRows(rows)[..i] ::
      RouteOf(a, domains, NormalizeHost(rawHost, lower), NormalizePath(rawPath), lower).None?
    requires RouteOf(EnabledRows(rows)[i], domains, NormalizeHost(rawHost, lower), NormalizePath(rawPath), lower).Some?
    ensures IsFirstRoute(rows, domains, rawHost, rawPath, lower,
      RouteOf(EnabledRows(rows)[i], domains, NormalizeHost(rawHost, lower), NormalizePath(rawPath), lower))
  {
  }

  lemma NoRouteAt(rows: seq<Assignment>, domains: map<int, Domain>, rawHost: string, rawPath: string, lower: string -> string)
    requires forall a | a in EnabledRows(rows) ::
      RouteOf(a, domains, NormalizeHost(rawHost, lower), NormalizePath(rawPath), lower).None?
    ensures IsFirstRoute(rows, domains, rawHost, rawPath, lower, None)
  {
  }

  /** The body of the lookup loop. */
  method TryRow(a: Assignment, domains: map<int, Domain>, host: string, path: string, lower: string -> string)
    returns (found: Option<Route>)
    ensures found == RouteOf(a, domains, host, path, lower)
  {
    if a.domainId !in domains || !domains[a.domainId].enabled {
      return None;
    }
    var d := domains[a.domainId];
    match a.mode {
      case ExactHost | Subdomain =>
        var expected := AssignmentHost(a, d, lower);
        if expected == Some(host) {
          return Some(Route(a.app, a.mode, path));
        }
        return None;
      case PathRoute =>
        if a.pathPrefix.None? {
          return None;
        }
        var prefix := NormalizePath(a.pathPrefix.value);
        if HostMatches(host, d) && PathMatches(path, prefix) {
          return Some(Route(a.app, a.mode, StripPath(path, prefix)));
        }
        return None;
      case OtherMode =>
        return None;
    }
  }

  /** The loop of `resolve_app_assignment`; `at` is the row that it stopped at. */
  method FirstMatch(live: seq<Assignment>, domains: map<int, Domain>, host: string, path: string, lower: string -> string)
    returns (found: Option<Route>, at: nat)
    ensures found.None? ==> forall a | a in live :: RouteOf(a, domains, host, path, lower).None?
    ensures found.Some? ==> at < |live| && RouteOf(live[at], domains, host, path, lower) == found
    ensures found.Some? ==> forall a | a in live[..at] :: RouteOf(a, domains, host, path, lower).None?
  {
    at := 0;
    while at < |live|
      invariant at <= |live|
      invariant forall a | a in live[..at] :: RouteOf(a, domains, host, path, lower).None?
    {
      found := TryRow(live[at], domains, host, path, lower);
      if found.Some? {
        return;
      }
      assert live[..at + 1] == live[..at] + [live[at]];
      at := at + 1;
    }
    assert live[..|live|] == live;
    found := None;
  }

  /** `resolve_app_assignment`. */
  method Resolve(rows: seq<Assignment>, domains: map<int, Domain>, rawHost: string, rawPath: string, lower: string -> string)
    returns (found: Option<Route>)
    ensures IsFirstRoute(rows, domains, rawHost, rawPath, lower, found)
  {
    var at;
    found, at := FirstMatch(
      EnabledRows(rows), domains, NormalizeHost(rawHost, lower), NormalizePath(rawPath), lower);
    if found.None? {
      NoRouteAt(rows, domains, rawHost, rawPath, lower);
    } else {
      FirstRouteAt(rows, domains, rawHost, rawPath, lower, at);
    }
  }

  // -------------------------------------------------- the lookup in terms of the rows

  /** The host that a host row answers for: the typed name, or that name as a label before the domain's own. */
  ghost predicate AnswersFor(a: Assignment, d: Domain, lower: string -> string, host: string) {
    && a.hostname.Some? && lower(Trim(a.hostname.value)) != ""
    && var typed := lower(Trim(a.hostname.value));
    if a.mode == ExactHost || '.' in typed then host == typed
    else Split(host, '.') == [typed] + Split(TrimStartMatches(d.name, "*."), '.')
  }

  /** The prefix opens the path: it is the path, or its segments come first in it, trailing slashes apart. */
  ghost predicate OpensPath(prefix: string, path: string) {
    path == prefix || Split(TrimEndBy(prefix, IsSlash), '/') < Split(path, '/')
  }

  /** Enabled domain aside, what a row asks of host and path, and the target that it gives. */
  ghost predicate Serves(a: Assignment, d: Domain, lower: string -> string, host: string, path: string, r: Route) {
    && r.app == a.app && r.mode == a.mode
    && match a.mode
       case OtherMode => false
       case PathRoute =>
         && a.pathPrefix.Some?
         && var prefix := NormalizePath(a.pathPrefix.value);
         && IsSuffix(Split(TrimStartMatches(d.name, "*."), '.'), Split(host, '.'))
         && OpensPath(prefix, path)
         && StartsWith(r.targetPath, "/")
         && var trimmed := TrimEndBy(prefix, IsSlash);
         (path == trimmed + r.targetPath || (path == trimmed && r.targetPath == "/"))
       case _ => AnswersFor(a, d, lower, host) && r.targetPath == path
  }

  lemma HostLabels(typed: string, d: Domain, host: string)
    requires '.' !in typed
    ensures host == typed + "." + BareDomain(d) <==>
            Split(host, '.') == [typed] + Split(TrimStartMatches(d.name, "*."), '.')
  {
    var bare := BareDomain(d);
    assert typed + "." + bare == typed + ['.'] + bare;
    SplitWhole(typed, '.');
    SplitConcat(typed, '.', bare);
    if Split(host, '.') == [typed] + Split(bare, '.') {
      SplitInjective(host, typed + "." + bare, '.');
    }
  }

  /**
   * A ticket can be issued for a host exactly when a host row and its domain are enabled, the host is the typed name or
   * has it as a label before the domain's own labels, and the host is a valid name.
   */
  lemma TargetExact(a: Assignment, d: Domain, host: string)
    ensures TransferTarget(a, d) == Some(host) <==>
            && a.enabled && d.enabled && (a.mode == ExactHost || a.mode == Subdomain) && a.hostname.Some?
            && ValidHostname(host)
            && var typed := AsciiLower(Trim(a.hostname.value));
            (if a.mode == ExactHost || '.' in typed then host == typed
             else Split(host, '.') == [typed] + Split(TrimStartMatches(d.name, "*."), '.'))
  {
    if a.hostname.Some? && '.' !in AsciiLower(Trim(a.hostname.value)) {
      HostLabels(AsciiLower(Trim(a.hostname.value)), d, host);
    }
  }

  /** The query is cut off, spaces around the path go, and a slash is put in front when there is none. */
  lemma NormalizePathExact(before: string, path: string, after: string, query: string)
    requires AllOf(before, IsSpace) && AllOf(after, IsSpace) && Bare(path, IsSpace)
    requires '?' !in before + path + after && (query == "" || query[0] == '?')
    ensures NormalizePath(before + path + after + query) == if path != "" && path[0] == '/' then path else "/" + path
  {
    var whole := before + path + after;
    SplitWhole(whole, '?');
    if query == "" {
      assert whole + query == whole;
    } else {
      assert whole + query == whole + ['?'] + query[1..];
      SplitConcat(whole, '?', query[1..]);
    }
    TrimPadded(before, path, after, IsSpace);
  }

  lemma HostRowExact(a: Assignment, d: Domain, lower: string -> string, host: string)
    ensures AssignmentHost(a, d, lower) == Some(host) <==> AnswersFor(a, d, lower, host)
  {
    if a.hostname.Some? && '.' !in lower(Trim(a.hostname.value)) {
      HostLabels(lower(Trim(a.hostname.value)), d, host);
    }
  }

  lemma PathTargetExact(path: string, prefix: string, target: string)
    requires StartsWith(path, "/") && PathMatches(path, prefix)
    ensures target == StripPath(path, prefix) <==>
            && StartsWith(target, "/")
            && var trimmed := TrimEndBy(prefix, IsSlash);
               (path == trimmed + target || (path == trimmed && target == "/"))
  {
    var trimmed := Slashless(prefix);
    StripPathRebuilds(path, prefix);
    if path == trimmed + target {
      assert path[|trimmed|..] == target;
    }
  }

  /** A row answers with a route exactly when its domain is enabled and it serves host and path. */
  lemma RouteExact(
    a: Assignment, domains: map<int, Domain>, host: string, path: string, lower: string -> string, r: Route)
    requires StartsWith(path, "/")
    ensures RouteOf(a, domains, host, path, lower) == Some(r) <==>
            a.domainId in domains && domains[a.domainId].enabled && Serves(a, domains[a.domainId], lower, host, path, r)
  {
    if a.domainId in domains {
      var d := domains[a.domainId];
      HostRowExact(a, d, lower, host);
      if a.mode == PathRoute && a.pathPrefix.Some? {
        var prefix := NormalizePath(a.pathPrefix.value);
        HostMatchesLabels(host, d);
        PathMatchesSegments(path, prefix);
        if PathMatches(path, prefix) {
          PathTargetExact(path, prefix, r.targetPath);
        }
      }
    }
  }

  ghost predicate RowServes(
    a: Assignment, domains: map<int, Domain>, host: string, path: string, lower: string -> string, r: Route)
  {
    a.enabled && a.domainId in domains && domains[a.domainId].enabled && Serves(a, domains[a.domainId], lower, host, path, r)
  }

  /** Row `i` is the first row of the table that serves host and path, and `r` is where it leads. */
  ghost predicate FirstServes(
    rows: seq<Assignment>, domains: map<int, Domain>, host: string, path: string, lower: string -> string, i: int, r: Route)
  {
    && 0 <= i < |rows| && RowServes(rows[i], domains, host, path, lower, r)
    && forall j, other | 0 <= j < i :: !RowServes(rows[j], domains, host, path, lower, other)
  }

  lemma {:induction false} EnabledRowsConcat(a: seq<Assignment>, b: seq<Assignment>)
    ensures EnabledRows(a + b) == EnabledRows(a) + EnabledRows(b)
  {
    if a == [] {
      assert a + b == b;
    } else {
      assert (a + b)[0] == a[0] && (a + b)[1..] == a[1..] + b;
      EnabledRowsConcat(a[1..], b);
    }
  }

  /** Row `i` of the table is its `n`-th enabled row, and the enabled rows before it are those before the `n`-th. */
  ghost predicate StandsAt(rows: seq<Assignment>, n: int, i: int) {
    && 0 <= n < |EnabledRows(rows)| && 0 <= i < |rows| && rows[i] == EnabledRows(rows)[n] && rows[i].enabled
    && forall j | 0 <= j < i && rows[j].enabled :: rows[j] in EnabledRows(rows)[..n]
  }

  lemma StandsAfter(first: Assignment, rest: seq<Assignment>, n: int, i: int)
    requires StandsAt(rest, n, i)
    ensures StandsAt([first] + rest, if first.enabled then n + 1 else n, i + 1)
  {
    var rows := [first] + rest;
    assert rows[1..] == rest;
    if first.enabled {
      assert EnabledRows(rows) == [first] + EnabledRows(rest);
      assert EnabledRows(rows)[..n + 1] == [first] + EnabledRows(rest)[..n];
    } else {
      assert EnabledRows(rows) == EnabledRows(rest);
    }
  }

  lemma {:induction false} EnabledAt(rows: seq<Assignment>, n: int) returns (i: int)
    requires 0 <= n < |EnabledRows(rows)|
    ensures StandsAt(rows, n, i)
  {
    assert rows == [rows[0]] + rows[1..];
    if rows[0].enabled && n == 0 {
      i := 0;
    } else {
      var k := EnabledAt(rows[1..], if rows[0].enabled then n - 1 else n);
      StandsAfter(rows[0], rows[1..], if rows[0].enabled then n - 1 else n, k);
      i := k + 1;
    }
  }

  lemma FirstServesUnique(
    rows: seq<Assignment>, domains: map<int, Domain>, host: string, path: string, lower: string -> string,
    i: int, r: Route, j: int, q: Route)
    requires StartsWith(path, "/")
    requires FirstServes(rows, domains, host, path, lower, i, r) && FirstServes(rows, domains, host, path, lower, j, q)
    ensures i == j && r == q
  {
    RouteExact(rows[i], domains, host, path, lower, r);
    RouteExact(rows[j], domains, host, path, lower, q);
  }

  /**
   * The answer of the lookup, read off the rows: the route of the first enabled row on an enabled domain that serves the
   * request's host and path, and none exactly when no row serves them.
   */
  lemma ResolveExact(
    rows: seq<Assignment>, domains: map<int, Domain>, rawHost: string, rawPath: string, lower: string -> string,
    found: Option<Route>)
    requires IsFirstRoute(rows, domains, rawHost, rawPath, lower, found)
    ensures var host, path := NormalizeHost(rawHost, lower), NormalizePath(rawPath);
      && (found.None? <==> forall a, r | a in rows :: !RowServes(a, domains, host, path, lower, r))
      && (forall r: Route :: found == Some(r) <==> exists i :: FirstServes(rows, domains, host, path, lower, i, r))
  {
    var live := EnabledRows(rows);
    var host, path := NormalizeHost(rawHost, lower), NormalizePath(rawPath);
    if found.None? {
      forall a, r | a in rows ensures !RowServes(a, domains, host, path, lower, r) {
        RouteExact(a, domains, host, path, lower, r);
        assert a.enabled ==> a in live;
      }
      forall i, r ensures !FirstServes(rows, domains, host, path, lower, i, r) {
        if 0 <= i < |rows| {
          assert rows[i] in rows;
        }
      }
    } else {
      var n :| 0 <= n < |live| && RouteOf(live[n], domains, host, path, lower) == found
        && forall a | a in live[..n] :: RouteOf(a, domains, host, path, lower).None?;
      var i := EnabledAt(rows, n);
      RouteExact(rows[i], domains, host, path, lower, found.value);
      forall j, other | 0 <= j < i ensures !RowServes(rows[j], domains, host, path, lower, other) {
        RouteExact(rows[j], domains, host, path, lower, other);
      }
      assert FirstServes(rows, domains, host, path, lower, i, found.value);
      forall k, q | FirstServes(rows, domains, host, path, lower, k, q) ensures q == found.value {
        FirstServesUnique(rows, domains, host, path, lower, i, found.value, k, q);
      }
    }
  }

  /** The first route is unique: the lookup is deterministic. */
  lemma FirstRouteUnique(rows: seq<Assignment>, domains: map<int, Domain>, rawHost: string, rawPath: string,
                         lower: string -> string, x: Option<Route>, y: Option<Route>)
    requires IsFirstRoute(rows, domains, rawHost, rawPath, lower, x)
    requires IsFirstRoute(rows, domains, rawHost, rawPath, lower, y)
    ensures x == y
  {
    var live := EnabledRows(rows);
    var host, path := NormalizeHost(rawHost, lower), NormalizePath(rawPath);
    if x.Some? && y.Some? {
      var i :| 0 <= i < |live| && RouteOf(live[i], domains, host, path, lower) == x
        && forall a | a in live[..i] :: RouteOf(a, domains, host, path, lower).None?;
      var j :| 0 <= j < |live| && RouteOf(live[j], domains, host, path, lower) == y
        && forall a | a in live[..j] :: RouteOf(a, domains, host, path, lower).None?;
      if i < j {
        assert live[i] in live[..j];
      } else if j < i {
        assert live[j] in live[..i];
      }
    }
  }

  /** A row serves the host it issues tickets for exactly when that host is lower case. */
  lemma ServedByOwnRow(domains: map<int, Domain>, a: Assignment, port: string, path: string, lower: string -> string)
    requires LowersAscii(lower)
    requires a.domainId in domains && TransferTarget(a, domains[a.domainId]).Some?
    requires port == "" || port[0] == ':'
    ensures var target := TransferTarget(a, domains[a.domainId]).value;
      RouteOf(a, domains, NormalizeHost(target + port, lower), path, lower)
      == if AsciiLower(target) == target then Some(Route(a.app, a.mode, path)) else None
  {
    var d := domains[a.domainId];
    TargetIsAssignmentHost(a, d, lower);
    NormalizeHostExact(TransferTarget(a, d).value, port, lower);
  }

  /**
   * Every host a ticket can be issued for is served by the gateway, on any port and path,
   * as long as the stored domain name is lower case.
   */
  lemma TransferTargetIsServed(rows: seq<Assignment>, domains: map<int, Domain>, a: Assignment, port: string,
                               rawPath: string, lower: string -> string, found: Option<Route>)
    requires LowersAscii(lower)
    requires a in rows && a.domainId in domains
    requires TransferTarget(a, domains[a.domainId]).Some?
    requires AsciiLower(domains[a.domainId].name) == domains[a.domainId].name
    requires port == "" || port[0] == ':'
    requires IsFirstRoute(rows, domains, TransferTarget(a, domains[a.domainId]).value + port, rawPath, lower, found)
    ensures found.Some?
  {
    var d := domains[a.domainId];
    TargetIsLower(a, d);
    ServedByOwnRow(domains, a, port, NormalizePath(rawPath), lower);
    assert a in EnabledRows(rows);
  }

  lemma {:induction false} TrimStartMatchesTail(s: string, pat: string)
    requires pat != ""
    ensures exists k | 0 <= k <= |s| :: TrimStartMatches(s, pat) == s[k..]
  {
    if pat <= s {
      TrimStartMatchesTail(s[|pat|..], pat);
      var k :| 0 <= k <= |s[|pat|..]| && TrimStartMatches(s[|pat|..], pat) == s[|pat|..][k..];
      assert s[|pat|..][k..] == s[|pat| + k..];
    } else {
      assert s == s[0..];
    }
  }

  lemma TargetIsLower(a: Assignment, d: Domain)
    requires TransferTarget(a, d).Some? && AsciiLower(d.name) == d.name
    ensures AsciiLower(TransferTarget(a, d).value) == TransferTarget(a, d).value
  {
    TrimStartMatchesTail(d.name, "*.");
    LowerFixed(d.name);
    LowerFixed(Trim(a.hostname.value));
    LowerFixed(TransferTarget(a, d).value);
    assert NoUpper(BareDomain(d));
    assert NoUpper(".");
  }
}
