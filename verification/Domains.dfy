/** Domains, certificate profiles, dynamic DNS profiles and app assignments, and the references between them. */
module Domains {
  import opened Common
  import opened Strings
  import opened Routes

  datatype Challenge = Http01 | Dns01

  datatype DnsMode = ManualDns | DynamicDns

  datatype TlsMode = NoTls | ManualTls | LetsEncrypt

  datatype Ddns = Ddns(txtRecords: bool)

  datatype Profile = Profile(challenge: Challenge, ddns: Option<int>)

  /** A domain row, and equally a domain request, whose name is then as it was typed. */
  datatype DomainRow = DomainRow(
    name: string, wildcard: bool, primary: bool, enabled: bool, dnsMode: DnsMode, ddns: Option<int>, tls: TlsMode,
    profile: Option<int>)

  datatype Db = Db(
    ddns: map<int, Ddns>, profiles: map<int, Profile>, domains: map<int, DomainRow>, assignments: map<int, Assignment>)

  /** `hit` is the row that the hostname query returns, when there are any. */
  datatype Op =
    | CreateDdns(id: int, ddnsRow: Ddns)
    | UpdateDdns(id: int, ddnsRow: Ddns)
    | DeleteDdns(id: int)
    | CreateProfile(id: int, profileRow: Profile)
    | UpdateProfile(id: int, profileRow: Profile)
    | DeleteProfile(id: int)
    | CreateDomain(id: int, domainRow: DomainRow)
    | UpdateDomain(id: int, domainRow: DomainRow)
    | DeleteDomain(id: int)
    | CreateAssignment(id: int, request: Assignment, hit: Option<int>)
    | UpdateAssignment(id: int, request: Assignment, hit: Option<int>)
    | DeleteAssignment(id: int)

  // ------------------------------------------------------------------ checks

  predicate Known<V>(table: map<int, V>, ref: Option<int>) {
    ref.None? || ref.value in table
  }

  predicate Blank(s: string) { Trim(s) == "" }

  /** `validate_letsencrypt`. */
  predicate ValidProfile(s: Db, p: Profile) {
    p.challenge == Dns01 ==> p.ddns.Some? && p.ddns.value in s.ddns && s.ddns[p.ddns.value].txtRecords
  }

  /** `normalize_domain`. */
  function NormalizeDomain(input: string, lower: string -> string): string {
    Split(TrimStartMatches(TrimStartMatches(lower(Trim(input)), "http://"), "https://"), '/')[0]
  }

  function Normalized(d: DomainRow, lower: string -> string): DomainRow {
    d.(name := NormalizeDomain(d.name, lower))
  }

  /** `validate_domain` on the normalised name: `current` is the row being updated. */
  predicate ValidDomain(s: Db, d: DomainRow, current: Option<int>) {
    && !Blank(d.name)
    && (d.wildcard ==> StartsWith(d.name, "*."))
    && (d.dnsMode == DynamicDns ==> d.ddns.Some?)
    && (d.tls == LetsEncrypt ==>
          && d.profile.Some? && d.profile.value in s.profiles
          && (d.wildcard ==> s.profiles[d.profile.value].challenge == Dns01))
    && (forall id | id in s.domains && s.domains[id].name == d.name :: current == Some(id))
  }

  function NormalizePrefix(path: string): string {
    var trimmed := TrimBy(Trim(path), IsSlash);
    if trimmed == "" then "" else "/" + trimmed
  }

  const RESERVED: set<string> := {
    "api", "auth", "assets", "login", "account", "settings", "users", "storage",
    "resources", "apps", "monitoring", "logs", "networking", "security", "app-error"
  }

  predicate ReservedPath(path: string) {
    Split(TrimStartBy(path, IsSlash), '/')[0] in RESERVED
  }

  function Stored(a: Assignment, lower: string -> string): Assignment {
    var host := if a.hostname.Some? then lower(Trim(a.hostname.value)) else "";
    var prefix := if a.pathPrefix.Some? then NormalizePrefix(a.pathPrefix.value) else "";
    a.(app := Trim(a.app),
       hostname := if host == "" then None else Some(host),
       pathPrefix := if prefix == "" then None else Some(prefix))
  }

  /** `validate_assignment`: `hit` is what the hostname query returned. */
  predicate ValidAssignment(s: Db, a: Assignment, current: Option<int>, hit: Option<int>, lower: string -> string) {
    && !Blank(a.app)
    && a.mode != OtherMode
    && a.domainId in s.domains
    && var row := Stored(a, lower);
    if a.mode == PathRoute then row.pathPrefix.Some? && !Blank(row.pathPrefix.value) && !ReservedPath(row.pathPrefix.value)
    else
      && row.hostname.Some? && !Blank(row.hostname.value)
      && (hit.Some? ==> hit.value in s.assignments && s.assignments[hit.value].hostname == row.hostname && hit == current)
      && (hit.None? ==> forall id | id in s.assignments :: s.assignments[id].hostname != row.hostname)
  }

  // ----------------------------------------------------------------- effects

  function AllDemoted(domains: map<int, DomainRow>): map<int, DomainRow> {
    map id | id in domains :: domains[id].(primary := false)
  }

  /** `clear_primary_domain`. */
  function NoPrimaryDomain(s: Db): Db {
    s.(domains := AllDemoted(s.domains))
  }

  function Demoted(a: Assignment, app: string): Assignment {
    if a.app == app then a.(primary := false) else a
  }

  function DemotedFor(assignments: map<int, Assignment>, app: string): map<int, Assignment> {
    map id | id in assignments :: Demoted(assignments[id], app)
  }

  /** `clear_primary_assignment`. */
  function NoPrimaryFor(s: Db, app: string): Db {
    s.(assignments := DemotedFor(s.assignments, app))
  }

  /** Every reference of the row leads to a row, as the database insists. */
  predicate Writable(s: Db, d: DomainRow) {
    Known(s.ddns, d.ddns) && Known(s.profiles, d.profile)
  }

  /** The row is written after other primaries were cleared; a dangling reference makes only the write fail. */
  function WriteDomain(s: Db, id: int, d: DomainRow): Db {
    var cleared := if d.primary then NoPrimaryDomain(s) else s;
    if Writable(s, d) then cleared.(domains := cleared.domains[id := d]) else cleared
  }

  function WriteAssignment(s: Db, id: int, row: Assignment): Db {
    var cleared := if row.primary then NoPrimaryFor(s, row.app) else s;
    cleared.(assignments := cleared.assignments[id := row])
  }

  function WriteProfile(s: Db, id: int, p: Profile): Db {
    if Known(s.ddns, p.ddns) then s.(profiles := s.profiles[id := p]) else s
  }

  /** A handler's effect; new rows get unused ids. */
  function Apply(s: Db, op: Op, lower: string -> string): Db {
    match op
    case CreateDdns(id, row) => if id in s.ddns then s else s.(ddns := s.ddns[id := row])
    case UpdateDdns(id, row) => if id in s.ddns then s.(ddns := s.ddns[id := row]) else s
    case DeleteDdns(id) =>
      if exists p | p in s.profiles :: s.profiles[p].ddns == Some(id) then s
      else s.(ddns := s.ddns - {id},
              domains := map d | d in s.domains ::
                if s.domains[d].ddns == Some(id) then s.domains[d].(ddns := None) else s.domains[d])
    case CreateProfile(id, p) => if id in s.profiles || !ValidProfile(s, p) then s else WriteProfile(s, id, p)
    case UpdateProfile(id, p) => if id in s.profiles && ValidProfile(s, p) then WriteProfile(s, id, p) else s
    case DeleteProfile(id) =>
      if exists d | d in s.domains :: s.domains[d].profile == Some(id) then s else s.(profiles := s.profiles - {id})
    case CreateDomain(id, request) =>
      var d := Normalized(request, lower);
      if id in s.domains || !ValidDomain(s, d, None) then s else WriteDomain(s, id, d)
    case UpdateDomain(id, request) =>
      var d := Normalized(request, lower);
      if id in s.domains && ValidDomain(s, d, Some(id)) then WriteDomain(s, id, d) else s
    case DeleteDomain(id) =>
      s.(domains := s.domains - {id},
         assignments := map a | a in s.assignments && s.assignments[a].domainId != id :: s.assignments[a])
    case CreateAssignment(id, a, hit) =>
      if id in s.assignments || !ValidAssignment(s, a, None, hit, lower) then s else WriteAssignment(s, id, Stored(a, lower))
    case UpdateAssignment(id, a, hit) =>
      if id in s.assignments && ValidAssignment(s, a, Some(id), hit, lower) then WriteAssignment(s, id, Stored(a, lower)) else s
    case DeleteAssignment(id) => s.(assignments := s.assignments - {id})
  }

  /** The handler answers with success. */
  predicate Accepted(s: Db, op: Op, lower: string -> string) {
    match op
    case CreateDdns(id, _) => id !in s.ddns
    case UpdateDdns(id, _) => id in s.ddns
    case DeleteDdns(id) => forall p | p in s.profiles :: s.profiles[p].ddns != Some(id)
    case CreateProfile(id, p) => id !in s.profiles && ValidProfile(s, p) && Known(s.ddns, p.ddns)
    case UpdateProfile(id, p) => id in s.profiles && ValidProfile(s, p) && Known(s.ddns, p.ddns)
    case DeleteProfile(id) => forall d | d in s.domains :: s.domains[d].profile != Some(id)
    case CreateDomain(id, request) =>
      id !in s.domains && ValidDomain(s, Normalized(request, lower), None) && Writable(s, request)
    case UpdateDomain(id, request) =>
      id in s.domains && ValidDomain(s, Normalized(request, lower), Some(id)) && Writable(s, request)
    case DeleteDomain(_) => true
    case CreateAssignment(id, a, hit) => id !in s.assignments && ValidAssignment(s, a, None, hit, lower)
    case UpdateAssignment(id, a, hit) => id in s.assignments && ValidAssignment(s, a, Some(id), hit, lower)
    case DeleteAssignment(_) => true
  }

  function RunAll(s: Db, ops: seq<Op>, lower: string -> string): Db {
    if ops == [] then s else Apply(RunAll(s, ops[..|ops| - 1], lower), ops[|ops| - 1], lower)
  }

  // --------------------------------------------------------------- invariants

  /** Every reference leads to a row, Let's Encrypt domains have a profile and dns01 profiles a DDNS profile. */
  ghost predicate References(s: Db) {
    && (forall p | p in s.profiles :: Known(s.ddns, s.profiles[p].ddns)
          && (s.profiles[p].challenge == Dns01 ==> s.profiles[p].ddns.Some?))
    && (forall d | d in s.domains :: Known(s.ddns, s.domains[d].ddns) && Known(s.profiles, s.domains[d].profile)
          && (s.domains[d].tls == LetsEncrypt ==> s.domains[d].profile.Some?))
    && (forall a | a in s.assignments :: s.assignments[a].domainId in s.domains)
  }

  ghost predicate DomainFlags(s: Db) {
    && (forall d, e | d in s.domains && e in s.domains && d != e :: s.domains[d].name != s.domains[e].name)
    && (forall d, e | d in s.domains && e in s.domains && d != e :: !(s.domains[d].primary && s.domains[e].primary))
  }

  ghost predicate AssignmentFlags(s: Db) {
    forall a, b | a in s.assignments && b in s.assignments && a != b && s.assignments[a].app == s.assignments[b].app ::
      !(s.assignments[a].primary && s.assignments[b].primary)
  }

  /** Path routes have an unreserved prefix; host routes have a host name. */
  ghost predicate Routable(s: Db) {
    forall a | a in s.assignments ::
      match s.assignments[a].mode
      case PathRoute => s.assignments[a].pathPrefix.Some? && !ReservedPath(s.assignments[a].pathPrefix.value)
      case OtherMode => false
      case _ => s.assignments[a].hostname.Some?
  }

  ghost predicate Inv(s: Db) {
    References(s) && DomainFlags(s) && AssignmentFlags(s) && Routable(s)
  }

  lemma DomainWritten(s: Db, id: int, d: DomainRow)
    requires Inv(s) && ValidDomain(s, d, Some(id))
    ensures Inv(WriteDomain(s, id, d))
  {
  }

  lemma ClearedFlags(s: Db, app: string)
    requires Inv(s)
    ensures var t := NoPrimaryFor(s, app);
      Inv(t) && forall a | a in t.assignments && t.assignments[a].app == app :: !t.assignments[a].primary
  {
  }

  lemma RowAdded(s: Db, id: int, row: Assignment)
    requires Inv(s) && row.domainId in s.domains
    requires row.primary ==> forall a | a in s.assignments && s.assignments[a].app == row.app :: !s.assignments[a].primary
    requires match row.mode
             case PathRoute => row.pathPrefix.Some? && !ReservedPath(row.pathPrefix.value)
             case OtherMode => false
             case _ => row.hostname.Some?
    ensures Inv(s.(assignments := s.assignments[id := row]))
  {
  }

  lemma AssignmentWritten(s: Db, id: int, a: Assignment, hit: Option<int>, current: Option<int>, lower: string -> string)
    requires Inv(s) && ValidAssignment(s, a, current, hit, lower)
    ensures Inv(WriteAssignment(s, id, Stored(a, lower)))
  {
    var row := Stored(a, lower);
    if row.primary {
      ClearedFlags(s, row.app);
      RowAdded(NoPrimaryFor(s, row.app), id, row);
    } else {
      RowAdded(s, id, row);
    }
  }

  lemma DdnsKept(s: Db, op: Op, lower: string -> string)
    requires Inv(s) && (op.CreateDdns? || op.UpdateDdns? || op.DeleteDdns?)
    ensures Inv(Apply(s, op, lower))
  {
  }

  lemma ProfilesKept(s: Db, op: Op, lower: string -> string)
    requires Inv(s) && (op.CreateProfile? || op.UpdateProfile? || op.DeleteProfile?)
    ensures Inv(Apply(s, op, lower))
  {
  }

  lemma InvKept(s: Db, op: Op, lower: string -> string)
    requires Inv(s)
    ensures Inv(Apply(s, op, lower))
  {
    match op
    case CreateDomain(id, request) =>
      if id !in s.domains && ValidDomain(s, Normalized(request, lower), None) {
        DomainWritten(s, id, Normalized(request, lower));
      }
    case UpdateDomain(id, request) =>
      if id in s.domains && ValidDomain(s, Normalized(request, lower), Some(id)) {
        DomainWritten(s, id, Normalized(request, lower));
      }
    case CreateAssignment(id, a, hit) =>
      if id !in s.assignments && ValidAssignment(s, a, None, hit, lower) {
        AssignmentWritten(s, id, a, hit, None, lower);
      }
    case UpdateAssignment(id, a, hit) =>
      if id in s.assignments && ValidAssignment(s, a, Some(id), hit, lower) {
        AssignmentWritten(s, id, a, hit, Some(id), lower);
      }
    case DeleteDomain(_) =>
    case DeleteAssignment(_) =>
    case CreateDdns(_, _) => DdnsKept(s, op, lower);
    case UpdateDdns(_, _) => DdnsKept(s, op, lower);
    case DeleteDdns(_) => DdnsKept(s, op, lower);
    case _ => ProfilesKept(s, op, lower);
  }

  /** In every state that handlers can reach: no dangling reference, unique names, single primaries, routable assignments. */
  lemma {:induction false} InvHolds(s0: Db, ops: seq<Op>, lower: string -> string)
    requires Inv(s0)
    ensures Inv(RunAll(s0, ops, lower))
  {
    if ops != [] {
      InvHolds(s0, ops[..|ops| - 1], lower);
      InvKept(RunAll(s0, ops[..|ops| - 1], lower), ops[|ops| - 1], lower);
    }
  }

  // ------------------------------------------------------------- routes stay served

  /** What lower-casing is known to do: it is the plain one on ASCII text and never leaves an ASCII capital. */
  ghost predicate Lowers(lower: string -> string) {
    LowersAscii(lower) && forall s :: NoUpper(lower(s))
  }

  ghost predicate NamesLower(s: Db) {
    forall d | d in s.domains :: NoUpper(s.domains[d].name)
  }

  lemma TailNoUpper(s: string, pat: string)
    requires pat != "" && NoUpper(s)
    ensures NoUpper(TrimStartMatches(s, pat))
  {
    TrimStartMatchesTail(s, pat);
  }

  /** A stored name holds no capital and no slash, whatever was typed. */
  lemma NormalizedName(input: string, lower: string -> string)
    requires Lowers(lower)
    ensures NoUpper(NormalizeDomain(input, lower)) && '/' !in NormalizeDomain(input, lower)
  {
    var text := lower(Trim(input));
    TailNoUpper(text, "http://");
    TailNoUpper(TrimStartMatches(text, "http://"), "https://");
    SplitPieces(TrimStartMatches(TrimStartMatches(text, "http://"), "https://"), '/');
  }

  lemma NamesLowerWritten(s: Db, id: int, d: DomainRow)
    requires NamesLower(s) && NoUpper(d.name)
    ensures NamesLower(WriteDomain(s, id, d))
  {
  }

  /** One case for each operation that touches domains. */
  lemma NamesLowerKept(s: Db, op: Op, lower: string -> string)
    requires Lowers(lower) && NamesLower(s)
    ensures NamesLower(Apply(s, op, lower))
  {
    match op
    case CreateDomain(id, request) =>
      NormalizedName(request.name, lower);
      NamesLowerWritten(s, id, Normalized(request, lower));
    case UpdateDomain(id, request) =>
      NormalizedName(request.name, lower);
      NamesLowerWritten(s, id, Normalized(request, lower));
    case DeleteDomain(_) =>
    case DeleteDdns(_) =>
    case _ =>
  }

  lemma {:induction false} NamesStayLower(s0: Db, ops: seq<Op>, lower: string -> string)
    requires Lowers(lower) && NamesLower(s0)
    ensures NamesLower(RunAll(s0, ops, lower))
  {
    if ops != [] {
      NamesStayLower(s0, ops[..|ops| - 1], lower);
      NamesLowerKept(RunAll(s0, ops[..|ops| - 1], lower), ops[|ops| - 1], lower);
    }
  }

  /** The domains as the gateway and the ticket code read them. */
  function GatewayDomains(s: Db): map<int, Domain> {
    map d | d in s.domains :: Domain(s.domains[d].name, s.domains[d].enabled)
  }

  /**
   * In every state that handlers can reach, a request for any host that a ticket can be issued for, on any port and
   * path, finds a route, in whatever order the gateway reads the assignments.
   */
  lemma TicketHostsStayServed(
    s0: Db, ops: seq<Op>, lower: string -> string, id: int, rows: seq<Assignment>, port: string, path: string,
    found: Option<Route>)
    requires Lowers(lower) && Inv(s0) && NamesLower(s0)
    requires id in RunAll(s0, ops, lower).assignments && RunAll(s0, ops, lower).assignments[id] in rows
    requires port == "" || port[0] == ':'
    ensures var s := RunAll(s0, ops, lower);
      var a := s.assignments[id];
      && a.domainId in GatewayDomains(s)
      && var target := TransferTarget(a, GatewayDomains(s)[a.domainId]);
      (target.Some? && IsFirstRoute(rows, GatewayDomains(s), target.value + port, path, lower, found) ==> found.Some?)
  {
    var s := RunAll(s0, ops, lower);
    var a := s.assignments[id];
    InvHolds(s0, ops, lower);
    NamesStayLower(s0, ops, lower);
    var target := TransferTarget(a, GatewayDomains(s)[a.domainId]);
    if target.Some? && IsFirstRoute(rows, GatewayDomains(s), target.value + port, path, lower, found) {
      LowerFixed(s.domains[a.domainId].name);
      TransferTargetIsServed(rows, GatewayDomains(s), a, port, path, lower, found);
    }
  }

  // ------------------------------------------------- a promise that deletion breaks

  /** What validation asks of a dynamic DNS domain when it is written. */
  ghost predicate DynamicHaveProfile(s: Db) {
    forall d | d in s.domains && s.domains[d].dnsMode == DynamicDns :: s.domains[d].ddns.Some?
  }

  predicate DeletesUsedDdns(s: Db, op: Op) {
    && op.DeleteDdns?
    && (forall p | p in s.profiles :: s.profiles[p].ddns != Some(op.id))
    && (exists d | d in s.domains :: s.domains[d].dnsMode == DynamicDns && s.domains[d].ddns == Some(op.id))
  }

  lemma DynamicWritten(s: Db, id: int, d: DomainRow)
    requires DynamicHaveProfile(s) && (d.dnsMode == DynamicDns ==> d.ddns.Some?)
    ensures DynamicHaveProfile(WriteDomain(s, id, d))
  {
  }

  /** Dynamic DNS domains keep their profile through every handler except the deletion of a profile that only domains use. */
  lemma DynamicProfileExact(s: Db, op: Op, lower: string -> string)
    requires DynamicHaveProfile(s)
    ensures DynamicHaveProfile(Apply(s, op, lower)) <==> !DeletesUsedDdns(s, op)
  {
    if DeletesUsedDdns(s, op) {
      var d :| d in s.domains && s.domains[d].dnsMode == DynamicDns && s.domains[d].ddns == Some(op.id);
      assert d in Apply(s, op, lower).domains && Apply(s, op, lower).domains[d].ddns.None?;
    } else {
      match op
      case CreateDomain(id, request) =>
        if ValidDomain(s, Normalized(request, lower), None) {
          DynamicWritten(s, id, Normalized(request, lower));
        }
      case UpdateDomain(id, request) =>
        if ValidDomain(s, Normalized(request, lower), Some(id)) {
          DynamicWritten(s, id, Normalized(request, lower));
        }
      case _ =>
    }
  }

  lemma UsedDdnsCanBeDeleted()
    ensures var s := Db(map[1 := Ddns(true)], map[],
                        map[7 := DomainRow("ex.io", false, false, true, DynamicDns, Some(1), NoTls, None)], map[]);
      Inv(s) && DynamicHaveProfile(s) && !DynamicHaveProfile(Apply(s, DeleteDdns(1), s => s))
  {
    var s := Db(map[1 := Ddns(true)], map[],
                map[7 := DomainRow("ex.io", false, false, true, DynamicDns, Some(1), NoTls, None)], map[]);
    DynamicProfileExact(s, DeleteDdns(1), s => s);
    assert s.domains[7].ddns == Some(1);
  }

  // ------------------------------------------------- a refusal that changes something

  ghost predicate HasPrimary(s: Db) {
    exists d | d in s.domains :: s.domains[d].primary
  }

  /** A primary domain request that validation lets pass and a dangling reference keeps from being written. */
  predicate Dangles(s: Db, op: Op, lower: string -> string) {
    match op
    case CreateDomain(id, request) =>
      id !in s.domains && ValidDomain(s, Normalized(request, lower), None) && request.primary && !Writable(s, request)
    case UpdateDomain(id, request) =>
      id in s.domains && ValidDomain(s, Normalized(request, lower), Some(id)) && request.primary && !Writable(s, request)
    case _ => false
  }

  lemma DemotedSame(domains: map<int, DomainRow>)
    ensures AllDemoted(domains) == domains <==> forall d | d in domains :: !domains[d].primary
  {
    assert AllDemoted(domains).Keys == domains.Keys;
    forall d | d in domains ensures AllDemoted(domains)[d] == domains[d] <==> !domains[d].primary {
    }
    if d :| d in domains && domains[d].primary {
      assert AllDemoted(domains)[d] != domains[d];
    } else {
      assert forall d | d in domains :: AllDemoted(domains)[d] == domains[d];
    }
  }

  /**
   * A refused operation leaves everything as it was, except a primary domain request with a dangling reference while some
   * domain is primary: then no domain is primary any more, and nothing else has changed.
   */
  lemma RefusedChanges(s: Db, op: Op, lower: string -> string)
    requires !Accepted(s, op, lower)
    ensures var t := Apply(s, op, lower);
      && (t != s <==> Dangles(s, op, lower) && HasPrimary(s))
      && (t != s ==> !HasPrimary(t) && t == NoPrimaryDomain(s))
  {
    DemotedSame(s.domains);
    if Dangles(s, op, lower) {
      assert Apply(s, op, lower) == NoPrimaryDomain(s);
    }
  }

  lemma ShortName()
    ensures NormalizeDomain("x", s => s) == "x" && !Blank("x")
  {
    TrimBare("x", IsSpace);
    assert Split("x", '/') == [["x"[0]] + Split("x"[1..], '/')[0]] + Split("x"[1..], '/')[1..];
    assert ["x"[0]] + "" == "x";
  }

  /** A primary domain, updated to name a DDNS profile that does not exist. */
  lemma PrimaryCanBeLost()
    ensures var s := Db(map[], map[], map[7 := DomainRow("x", false, true, true, ManualDns, None, NoTls, None)], map[]);
      var op := UpdateDomain(7, DomainRow("x", false, true, true, ManualDns, Some(1), NoTls, None));
      Inv(s) && HasPrimary(s) && !Accepted(s, op, s => s) && !HasPrimary(Apply(s, op, s => s))
  {
    var s := Db(map[], map[], map[7 := DomainRow("x", false, true, true, ManualDns, None, NoTls, None)], map[]);
    var row := DomainRow("x", false, true, true, ManualDns, Some(1), NoTls, None);
    var lower: string -> string := s => s;
    ShortName();
    assert Normalized(row, lower) == row && s.domains[7].primary;
    assert ValidDomain(s, row, Some(7)) && Dangles(s, UpdateDomain(7, row), lower);
    RefusedChanges(s, UpdateDomain(7, row), lower);
  }

  // ------------------------------------------------------ what each operation decides

  lemma BlankExact(s: string)
    ensures Blank(s) <==> AllOf(s, IsSpace)
  {
    var a, b := TrimShape(s, IsSpace);
    var core := Trim(s);
    if core != "" {
      assert s[|a|] == core[0] && core[0] in s;
    }
  }

  /** The name is not blank, wildcards start with "*.", and DNS and certificate settings have what they need. */
  ghost predicate Fits(s: Db, d: DomainRow, name: string, id: int) {
    && (exists c | c in name :: !IsSpace(c))
    && (d.wildcard ==> |name| >= 2 && name[0] == '*' && name[1] == '.')
    && (d.dnsMode == DynamicDns ==> d.ddns.Some?)
    && (d.tls == LetsEncrypt ==>
          && d.profile.Some? && d.profile.value in s.profiles
          && (d.wildcard ==> s.profiles[d.profile.value].challenge == Dns01))
    && (forall other | other in s.domains && other != id :: s.domains[other].name != name)
  }

  /** The operation gets as far as writing a domain. */
  ghost predicate ReachesDomain(s: Db, op: Op, lower: string -> string) {
    && (op.CreateDomain? || op.UpdateDomain?)
    && (op.id in s.domains <==> op.UpdateDomain?)
    && Fits(s, op.domainRow, NormalizeDomain(op.domainRow.name, lower), op.id)
  }

  ghost predicate WritesDomain(s: Db, op: Op, lower: string -> string, id: int) {
    && ReachesDomain(s, op, lower) && op.id == id
    && (op.domainRow.ddns.Some? ==> op.domainRow.ddns.value in s.ddns)
    && (op.domainRow.profile.Some? ==> op.domainRow.profile.value in s.profiles)
  }

  /** A dynamic DNS profile goes when no certificate profile names it. */
  ghost predicate DropsDdns(s: Db, op: Op, id: int) {
    op == DeleteDdns(id) && forall p | p in s.profiles :: s.profiles[p].ddns != Some(id)
  }

  lemma ReachesExact(s: Db, op: Op, lower: string -> string)
    requires op.CreateDomain? || op.UpdateDomain?
    ensures var d := Normalized(op.domainRow, lower);
      ReachesDomain(s, op, lower) <==>
      (op.id in s.domains <==> op.UpdateDomain?) &&
      ValidDomain(s, d, if op.UpdateDomain? then Some(op.id) else None)
  {
    BlankExact(NormalizeDomain(op.domainRow.name, lower));
  }

  /**
   * How domain `id` stands after an operation: as it was typed, with its name normalised, when the operation writes it;
   * otherwise as it was, but for a primary flag that another one takes and a dynamic DNS profile that goes.
   */
  ghost predicate DomainAfter(s: Db, op: Op, lower: string -> string, id: int, t: Db) {
    && (id in t.domains <==> (id in s.domains && op != DeleteDomain(id)) || WritesDomain(s, op, lower, id))
    && (id in t.domains ==>
          var taken := ReachesDomain(s, op, lower) && op.domainRow.primary;
          t.domains[id] ==
            if WritesDomain(s, op, lower, id) then op.domainRow.(name := NormalizeDomain(op.domainRow.name, lower))
            else s.domains[id].(
                   primary := s.domains[id].primary && !taken,
                   ddns := if s.domains[id].ddns.Some? && DropsDdns(s, op, s.domains[id].ddns.value) then None
                           else s.domains[id].ddns))
  }

  lemma DomainAfterCreate(s: Db, op: Op, lower: string -> string, id: int)
    requires op.CreateDomain?
    ensures DomainAfter(s, op, lower, id, Apply(s, op, lower))
  {
    ReachesExact(s, op, lower);
  }

  lemma DomainAfterUpdate(s: Db, op: Op, lower: string -> string, id: int)
    requires op.UpdateDomain?
    ensures DomainAfter(s, op, lower, id, Apply(s, op, lower))
  {
    ReachesExact(s, op, lower);
  }

  lemma DomainAfterDdns(s: Db, op: Op, lower: string -> string, id: int)
    requires op.DeleteDdns?
    ensures DomainAfter(s, op, lower, id, Apply(s, op, lower))
  {
  }

  /** Every domain stands like that after every operation. */
  lemma DomainExactly(s: Db, op: Op, lower: string -> string, id: int)
    ensures DomainAfter(s, op, lower, id, Apply(s, op, lower))
  {
    match op
    case CreateDomain(_, _) => DomainAfterCreate(s, op, lower, id);
    case UpdateDomain(_, _) => DomainAfterUpdate(s, op, lower, id);
    case DeleteDdns(_) => DomainAfterDdns(s, op, lower, id);
    case _ =>
  }

  /** A certificate profile can be stored: its DDNS profile exists, and takes TXT records when the challenge needs them. */
  ghost predicate ProfileFits(s: Db, p: Profile) {
    && (p.ddns.Some? ==> p.ddns.value in s.ddns)
    && (p.challenge == Dns01 ==> p.ddns.Some? && s.ddns[p.ddns.value].txtRecords)
  }

  /** Exactly which certificate profiles there are after an operation, and their rows. */
  lemma ProfileExactly(s: Db, op: Op, lower: string -> string, id: int)
    ensures var t := Apply(s, op, lower);
      var written := (op.CreateProfile? && op.id == id && id !in s.profiles && ProfileFits(s, op.profileRow))
                     || (op.UpdateProfile? && op.id == id && id in s.profiles && ProfileFits(s, op.profileRow));
      var dropped := op == DeleteProfile(id) && forall d | d in s.domains :: s.domains[d].profile != Some(id);
      && (id in t.profiles <==> written || (id in s.profiles && !dropped))
      && (id in t.profiles ==> t.profiles[id] == if written then op.profileRow else s.profiles[id])
  {
  }

  /** Exactly which dynamic DNS profiles there are after an operation, and their rows. */
  lemma DdnsExactly(s: Db, op: Op, lower: string -> string, id: int)
    ensures var t := Apply(s, op, lower);
      var written := (op.CreateDdns? && op.id == id && id !in s.ddns) || (op.UpdateDdns? && op.id == id && id in s.ddns);
      && (id in t.ddns <==> written || (id in s.ddns && !DropsDdns(s, op, id)))
      && (id in t.ddns ==> t.ddns[id] == if written then op.ddnsRow else s.ddns[id])
  {
  }

  /** What is stored of a typed text: nothing when nothing is left of it. */
  ghost predicate Keeps(stored: Option<string>, rest: string) {
    if rest == "" then stored.None? else stored == Some(rest)
  }

  /** The stored form of an assignment: trimmed app, lower-case host, prefix with one slash in front. */
  ghost predicate StoredAs(row: Assignment, a: Assignment, lower: string -> string) {
    && row == a.(app := Trim(a.app), hostname := row.hostname, pathPrefix := row.pathPrefix)
    && Keeps(row.hostname, if a.hostname.Some? then lower(Trim(a.hostname.value)) else "")
    && Keeps(row.pathPrefix, if a.pathPrefix.Some? then NormalizePrefix(a.pathPrefix.value) else "")
  }

  lemma StoredExact(a: Assignment, lower: string -> string, row: Assignment)
    ensures row == Stored(a, lower) <==> StoredAs(row, a, lower)
  {
  }

  /** The first segment of a path is one of the dashboard's own. */
  ghost predicate TakesDashboard(path: string) {
    Split(TrimStartBy(path, IsSlash), '/')[0] in [
      "api", "auth", "assets", "login", "account", "settings", "users", "storage",
      "resources", "apps", "monitoring", "logs", "networking", "security", "app-error"
    ]
  }

  /** The assignment names an app, a domain, and a free host or a path that is not the dashboard's. */
  ghost predicate AssignmentFits(s: Db, a: Assignment, row: Assignment, current: Option<int>, hit: Option<int>) {
    && (exists c | c in a.app :: !IsSpace(c)) && a.domainId in s.domains
    && match a.mode
       case OtherMode => false
       case PathRoute =>
         row.pathPrefix.Some? && (exists c | c in row.pathPrefix.value :: !IsSpace(c)) && !TakesDashboard(row.pathPrefix.value)
       case _ =>
         && row.hostname.Some? && (exists c | c in row.hostname.value :: !IsSpace(c))
         && match hit
            case None => forall id | id in s.assignments :: s.assignments[id].hostname != row.hostname
            case Some(id) => id in s.assignments && s.assignments[id].hostname == row.hostname && current == Some(id)
  }

  lemma AssignmentFitsExact(s: Db, a: Assignment, current: Option<int>, hit: Option<int>, lower: string -> string)
    ensures ValidAssignment(s, a, current, hit, lower) <==> AssignmentFits(s, a, Stored(a, lower), current, hit)
  {
    var row := Stored(a, lower);
    BlankExact(a.app);
    if row.pathPrefix.Some? {
      BlankExact(row.pathPrefix.value);
      assert TakesDashboard(row.pathPrefix.value) <==> ReservedPath(row.pathPrefix.value);
    }
    if row.hostname.Some? {
      BlankExact(row.hostname.value);
    }
  }

  ghost predicate WritesAssignment(s: Db, op: Op, lower: string -> string, id: int) {
    && (op.CreateAssignment? || op.UpdateAssignment?) && op.id == id
    && (id in s.assignments <==> op.UpdateAssignment?)
    && AssignmentFits(s, op.request, Stored(op.request, lower), if op.UpdateAssignment? then Some(id) else None, op.hit)
  }

  /**
   * How assignment `id` stands after an operation: in the stored form of the request when it is accepted; otherwise as it
   * was, but for a primary flag that another row of the app takes. It goes with its domain.
   */
  ghost predicate AssignmentAfter(s: Db, op: Op, lower: string -> string, id: int, t: Db) {
    && (id in t.assignments <==>
          || (id in s.assignments && op != DeleteAssignment(id) && op != DeleteDomain(s.assignments[id].domainId))
          || WritesAssignment(s, op, lower, id))
    && (id in t.assignments ==>
          if WritesAssignment(s, op, lower, id) then t.assignments[id] == Stored(op.request, lower)
          else
            var was := s.assignments[id];
            t.assignments[id] == was.(primary := was.primary && !TakesPrimary(s, op, lower, was.app)))
  }

  ghost predicate TakesPrimary(s: Db, op: Op, lower: string -> string, app: string) {
    && (op.CreateAssignment? || op.UpdateAssignment?) && WritesAssignment(s, op, lower, op.id)
    && op.request.primary && Trim(op.request.app) == app
  }

  lemma AssignmentAfterWrite(s: Db, op: Op, lower: string -> string, id: int)
    requires op.CreateAssignment? || op.UpdateAssignment?
    ensures AssignmentAfter(s, op, lower, id, Apply(s, op, lower))
  {
    AssignmentFitsExact(s, op.request, if op.UpdateAssignment? then Some(op.id) else None, op.hit, lower);
  }

  /** Every assignment stands like that after every operation. */
  lemma AssignmentExactly(s: Db, op: Op, lower: string -> string, id: int)
    ensures AssignmentAfter(s, op, lower, id, Apply(s, op, lower))
  {
    if op.CreateAssignment? || op.UpdateAssignment? {
      AssignmentAfterWrite(s, op, lower, id);
    }
  }

  /** A handler answers with success exactly when its row is written, or its row is free to go. */
  lemma AcceptedExactly(s: Db, op: Op, lower: string -> string)
    ensures Accepted(s, op, lower) <==>
            match op
            case CreateDdns(id, _) => id !in s.ddns
            case UpdateDdns(id, _) => id in s.ddns
            case DeleteDdns(id) => DropsDdns(s, op, id)
            case CreateProfile(id, p) => id !in s.profiles && ProfileFits(s, p)
            case UpdateProfile(id, p) => id in s.profiles && ProfileFits(s, p)
            case DeleteProfile(id) => forall d | d in s.domains :: s.domains[d].profile != Some(id)
            case CreateDomain(id, _) => WritesDomain(s, op, lower, id)
            case UpdateDomain(id, _) => WritesDomain(s, op, lower, id)
            case CreateAssignment(id, _, _) => WritesAssignment(s, op, lower, id)
            case UpdateAssignment(id, _, _) => WritesAssignment(s, op, lower, id)
            case _ => true
  {
    if op.CreateDomain? || op.UpdateDomain? {
      ReachesExact(s, op, lower);
    }
    if op.CreateAssignment? || op.UpdateAssignment? {
      AssignmentFitsExact(s, op.request, if op.UpdateAssignment? then Some(op.id) else None, op.hit, lower);
    }
  }

  /** Spaces, slashes around the path, and nothing else are dropped; one slash is put in front of what is left. */
  lemma PrefixExact(before: string, slashes: string, core: string, more: string, after: string)
    requires AllOf(before, IsSpace) && AllOf(after, IsSpace) && Bare(slashes + core + more, IsSpace)
    requires AllOf(slashes, IsSlash) && AllOf(more, IsSlash) && Bare(core, IsSlash)
    ensures NormalizePrefix(before + (slashes + core + more) + after) == if core == "" then "" else "/" + core
  {
    TrimPadded(before, slashes + core + more, after, IsSpace);
    TrimPadded(slashes, core, more, IsSlash);
  }

  /** A typed domain loses spaces, an http or https scheme and everything from the first slash, and is put in lower case. */
  lemma DomainNameExact(before: string, scheme: string, host: string, tail: string, after: string, lower: string -> string)
    requires LowersAscii(lower) && IsAscii(scheme + host + tail)
    requires AllOf(before, IsSpace) && AllOf(after, IsSpace) && Bare(scheme + host + tail, IsSpace)
    requires AsciiLower(scheme) in {"", "http://", "https://"}
    requires '/' !in host && AsciiLower(host) != "http:" && AsciiLower(host) != "https:" && (tail == "" || tail[0] == '/')
    ensures NormalizeDomain(before + (scheme + host + tail) + after, lower) == AsciiLower(host)
  {
    TrimPadded(before, scheme + host + tail, after, IsSpace);
    LowerInThree(scheme, host, tail);
    NoSlashLower(host);
    HostCut(AsciiLower(scheme), AsciiLower(host), AsciiLower(tail));
  }

  lemma LowerInThree(a: string, b: string, c: string)
    ensures AsciiLower(a + b + c) == AsciiLower(a) + (AsciiLower(b) + AsciiLower(c))
    ensures c == "" || c[0] == '/' ==> AsciiLower(c) == "" || AsciiLower(c)[0] == '/'
  {
    LowerConcat(a + b, c);
    LowerConcat(a, b);
  }

  lemma NoSlashLower(host: string)
    requires '/' !in host
    ensures '/' !in AsciiLower(host)
  {
    var h := AsciiLower(host);
    forall i | 0 <= i < |h| ensures h[i] != '/' {
      assert host[i] in host;
    }
  }

  lemma LowerConcat(a: string, b: string)
    ensures AsciiLower(a + b) == AsciiLower(a) + AsciiLower(b)
  {
  }

  lemma HostCut(s: string, h: string, t: string)
    requires s in {"", "http://", "https://"} && '/' !in h && h != "http:" && h != "https:" && (t == "" || t[0] == '/')
    ensures Split(TrimStartMatches(TrimStartMatches(s + (h + t), "http://"), "https://"), '/')[0] == h
  {
    NoScheme(h, t, "http:");
    NoScheme(h, t, "https:");
    SchemeGone(s, h + t);
    SplitWhole(h, '/');
    if t == "" {
      assert h + t == h;
    } else {
      assert h + t == h + ['/'] + t[1..];
      SplitConcat(h, '/', t[1..]);
    }
  }

  lemma NoScheme(h: string, t: string, scheme: string)
    requires '/' !in h && '/' !in scheme && h != scheme && (t == "" || t[0] == '/')
    ensures !(scheme + "//" <= h + t)
  {
    var n := |scheme|;
    if |h| > n {
      assert (h + t)[n] == h[n] && h[n] in h;
      assert (scheme + "//")[n] == '/';
    } else if |h| < n {
      assert (scheme + "//")[|h|] == scheme[|h|] && scheme[|h|] in scheme;
      if t != "" {
        assert (h + t)[|h|] == '/';
      }
    } else {
      assert (h + t)[..n] == h && (scheme + "//")[..n] == scheme;
    }
  }

  lemma SchemeGone(s: string, rest: string)
    requires s in {"", "http://", "https://"} && !("http://" <= rest) && !("https://" <= rest)
    ensures TrimStartMatches(TrimStartMatches(s + rest, "http://"), "https://") == rest
  {
    if s == "" {
      assert s + rest == rest;
    } else {
      assert (s + rest)[|s|..] == rest;
      if s == "https://" {
        assert (s + rest)[4] == 's';
      }
    }
  }

  lemma {:induction false} RunsCompose(s: Db, a: seq<Op>, b: seq<Op>, lower: string -> string)
    ensures RunAll(s, a + b, lower) == RunAll(RunAll(s, a, lower), b, lower)
  {
    if b == [] {
      assert a + b == a;
    } else {
      assert (a + b)[..|a + b| - 1] == a + b[..|b| - 1];
      RunsCompose(s, a, b[..|b| - 1], lower);
    }
  }

  lemma RunOne(s: Db, op: Op, lower: string -> string)
    ensures RunAll(s, [op], lower) == Apply(s, op, lower)
  {
    assert [op][..0] == [];
  }

  // ---------------------------------------------------------------- the handlers

  class DomainStore {
    var ddns: map<int, Ddns>
    var profiles: map<int, Profile>
    var domains: map<int, DomainRow>
    var assignments: map<int, Assignment>

    constructor (s: Db)
      ensures Contents() == s
    {
      ddns, profiles, domains, assignments := s.ddns, s.profiles, s.domains, s.assignments;
    }

    function Contents(): Db
      reads this
    {
      Db(ddns, profiles, domains, assignments)
    }

    method ClearPrimaryDomain()
      modifies this`domains
      ensures Contents() == NoPrimaryDomain(old(Contents()))
    {
      var todo := set id | id in domains && domains[id].primary;
      while todo != {}
        invariant domains.Keys == old(domains).Keys
        invariant forall id | id in todo :: id in domains && domains[id] == old(domains)[id]
        invariant forall id | id in domains && id !in todo :: domains[id] == old(domains)[id].(primary := false)
        decreases |todo|
      {
        ghost var x := SomeMember(todo);
        var id :| id in todo;
        domains := domains[id := domains[id].(primary := false)];
        todo := todo - {id};
      }
      assert domains.Keys == AllDemoted(old(domains)).Keys;
      forall id | id in domains ensures domains[id] == AllDemoted(old(domains))[id] {
        assert id !in todo;
      }
      assert domains == AllDemoted(old(domains));
    }

    method ClearPrimaryAssignment(app: string)
      modifies this`assignments
      ensures Contents() == NoPrimaryFor(old(Contents()), app)
    {
      var todo := set id | id in assignments && assignments[id].app == app && assignments[id].primary;
      while todo != {}
        invariant assignments.Keys == old(assignments).Keys
        invariant forall id | id in todo ::
          id in assignments && assignments[id] == old(assignments)[id] && assignments[id].app == app
        invariant forall id | id in assignments && id !in todo :: assignments[id] == Demoted(old(assignments)[id], app)
        decreases |todo|
      {
        ghost var x := SomeMember(todo);
        var id :| id in todo;
        assignments := assignments[id := assignments[id].(primary := false)];
        todo := todo - {id};
      }
      assert assignments.Keys == DemotedFor(old(assignments), app).Keys;
      forall id | id in assignments ensures assignments[id] == DemotedFor(old(assignments), app)[id] {
        assert id !in todo;
      }
      assert assignments == DemotedFor(old(assignments), app);
    }

    method PutDomain(id: int, d: DomainRow) returns (ok: bool)
      modifies this`domains
      ensures ok <==> Writable(old(Contents()), d)
      ensures Contents() == WriteDomain(old(Contents()), id, d)
    {
      if d.primary {
        ClearPrimaryDomain();
      }
      ok := Writable(Contents(), d);
      if ok {
        domains := domains[id := d];
      }
    }

    method AddDomain(id: int, request: DomainRow, lower: string -> string) returns (ok: bool)
      modifies this`domains
      ensures ok <==> Accepted(old(Contents()), CreateDomain(id, request), lower)
      ensures Contents() == Apply(old(Contents()), CreateDomain(id, request), lower)
    {
      var d := Normalized(request, lower);
      if id in domains || !ValidDomain(Contents(), d, None) {
        return false;
      }
      ok := PutDomain(id, d);
    }

    method ReplaceDomain(id: int, request: DomainRow, lower: string -> string) returns (ok: bool)
      modifies this`domains
      ensures ok <==> Accepted(old(Contents()), UpdateDomain(id, request), lower)
      ensures Contents() == Apply(old(Contents()), UpdateDomain(id, request), lower)
    {
      var d := Normalized(request, lower);
      if !ValidDomain(Contents(), d, Some(id)) || id !in domains {
        return false;
      }
      ok := PutDomain(id, d);
    }

    method RemoveDomain(id: int)
      modifies this`domains, this`assignments
      ensures forall lower :: Contents() == Apply(old(Contents()), DeleteDomain(id), lower)
    {
      domains := domains - {id};
      assignments := map a | a in assignments && assignments[a].domainId != id :: assignments[a];
    }

    method AddProfile(id: int, p: Profile) returns (ok: bool)
      modifies this`profiles
      ensures forall lower :: ok <==> Accepted(old(Contents()), CreateProfile(id, p), lower)
      ensures forall lower :: Contents() == Apply(old(Contents()), CreateProfile(id, p), lower)
    {
      ok := id !in profiles && ValidProfile(Contents(), p) && Known(ddns, p.ddns);
      if ok {
        profiles := profiles[id := p];
      }
    }

    method ReplaceProfile(id: int, p: Profile) returns (ok: bool)
      modifies this`profiles
      ensures forall lower :: ok <==> Accepted(old(Contents()), UpdateProfile(id, p), lower)
      ensures forall lower :: Contents() == Apply(old(Contents()), UpdateProfile(id, p), lower)
    {
      ok := ValidProfile(Contents(), p) && id in profiles && Known(ddns, p.ddns);
      if ok {
        profiles := profiles[id := p];
      }
    }

    method RemoveDdns(id: int) returns (ok: bool)
      modifies this`ddns, this`domains
      ensures forall lower :: ok <==> Accepted(old(Contents()), DeleteDdns(id), lower)
      ensures forall lower :: Contents() == Apply(old(Contents()), DeleteDdns(id), lower)
    {
      if exists p | p in profiles :: profiles[p].ddns == Some(id) {
        return false;
      }
      ddns := ddns - {id};
      domains := map d | d in domains :: if domains[d].ddns == Some(id) then domains[d].(ddns := None) else domains[d];
      return true;
    }

    method RemoveProfile(id: int) returns (ok: bool)
      modifies this`profiles
      ensures forall lower :: ok <==> Accepted(old(Contents()), DeleteProfile(id), lower)
      ensures forall lower :: Contents() == Apply(old(Contents()), DeleteProfile(id), lower)
    {
      if exists d | d in domains :: domains[d].profile == Some(id) {
        return false;
      }
      profiles := profiles - {id};
      return true;
    }

    method PutAssignment(id: int, request: Assignment, current: Option<int>, hit: Option<int>, lower: string -> string)
      returns (ok: bool)
      modifies this`assignments
      ensures ok <==> ValidAssignment(old(Contents()), request, current, hit, lower)
      ensures Contents() == if ok then WriteAssignment(old(Contents()), id, Stored(request, lower)) else old(Contents())
    {
      if !ValidAssignment(Contents(), request, current, hit, lower) {
        return false;
      }
      var row := Stored(request, lower);
      if request.primary {
        ClearPrimaryAssignment(row.app);
      }
      assignments := assignments[id := row];
      return true;
    }

    method AddAssignment(id: int, request: Assignment, hit: Option<int>, lower: string -> string) returns (ok: bool)
      modifies this`assignments
      ensures ok <==> Accepted(old(Contents()), CreateAssignment(id, request, hit), lower)
      ensures Contents() == Apply(old(Contents()), CreateAssignment(id, request, hit), lower)
    {
      if id in assignments {
        return false;
      }
      ok := PutAssignment(id, request, None, hit, lower);
    }

    method ReplaceAssignment(id: int, request: Assignment, hit: Option<int>, lower: string -> string) returns (ok: bool)
      modifies this`assignments
      ensures ok <==> Accepted(old(Contents()), UpdateAssignment(id, request, hit), lower)
      ensures Contents() == Apply(old(Contents()), UpdateAssignment(id, request, hit), lower)
    {
      if id !in assignments {
        return false;
      }
      ok := PutAssignment(id, request, Some(id), hit, lower);
    }
  }
}
