/** Moving a signed-in session to an app's own host: one ticket row, written once and spent once. */
module HostTransfer {
  import opened Common
  import opened Strings
  import opened TransferCodec
  import opened Routes
  import RolePermissions

  /** A row of `sessions`: a sign-in, or a ticket whose agent column holds the transfer text. */
  datatype Session = Session(userId: int, agent: Option<string>, expiresAt: int, revoked: bool)

  datatype User = User(active: bool, approved: bool)

  datatype World = World(
    sessions: map<string, Session>, users: map<int, User>,
    rows: seq<Assignment>, domains: map<int, Domain>, grants: RolePermissions.Store)

  const TICKET_LIFETIME: int := 45

  function Lookup<K, V>(m: map<K, V>, k: K): Option<V> {
    if k in m then Some(m[k]) else None
  }

  /** A row of `role_permissions` or of `role_app_permissions`. */
  datatype Grant = RegularRow(role: int, permission: string) | AppRow(role: int, app: string)

  function PermissionOf(g: Grant): string {
    match g
    case RegularRow(_, permission) => permission
    case AppRow(_, app) => "app." + app
  }

  predicate Opens(g: Grant, app: string) {
    PermissionOf(g) == "app.*" || PermissionOf(g) == "app." + app
  }

  /** A row opens the apps that it names, or all of them under the wildcard, in whichever table it stands. */
  lemma OpensExact(g: Grant, app: string)
    ensures Opens(g, app) <==>
            match g
            case RegularRow(_, permission) => permission == "app.*" || permission == "app." + app
            case AppRow(_, own) => own == "*" || own == app
  {
    if g.AppRow? {
      assert ("app." + g.app)[4..] == g.app && ("app." + app)[4..] == app;
      assert "app.*"[4..] == "*" && "app." + "*" == "app.*";
    }
  }

  predicate Permits(granted: set<Grant>, app: string) {
    exists g | g in granted :: Opens(g, app)
  }

  predicate InTables(grants: RolePermissions.Store, g: Grant) {
    match g
    case RegularRow(role, permission) => role in grants.regular && permission in grants.regular[role]
    case AppRow(role, app) => role in grants.apps && app in grants.apps[role]
  }

  function RegularRows(grants: RolePermissions.Store, roles: set<int>): (r: set<Grant>)
    ensures forall g :: g in r <==> g.RegularRow? && g.role in roles && InTables(grants, g)
  {
    set role, p | role in roles && role in grants.regular && p in grants.regular[role] :: RegularRow(role, p)
  }

  function AppRows(grants: RolePermissions.Store, roles: set<int>): (r: set<Grant>)
    ensures forall g :: g in r <==> g.AppRow? && g.role in roles && InTables(grants, g)
  {
    set role, a | role in roles && role in grants.apps && a in grants.apps[role] :: AppRow(role, a)
  }

  function RowsOf(grants: RolePermissions.Store, roles: set<int>): set<Grant> {
    RegularRows(grants, roles) + AppRows(grants, roles)
  }

  predicate Allows(w: World, user: int, app: string) {
    Permits(RowsOf(w.grants, RolePermissions.RolesOf(w.grants, user)), app)
  }

  /** The rows open an app exactly when the user's permission list would. */
  lemma AllowsIsPermission(w: World, user: int, app: string)
    ensures Allows(w, user, app) <==>
            RolePermissions.Holds(w.grants, user, "app.*") || RolePermissions.Holds(w.grants, user, "app." + app)
  {
    PermissionHeld(w, user, "app.*");
    PermissionHeld(w, user, "app." + app);
  }

  lemma PermissionHeld(w: World, user: int, p: string)
    ensures RolePermissions.Holds(w.grants, user, p) <==>
            exists g | g in RowsOf(w.grants, RolePermissions.RolesOf(w.grants, user)) :: PermissionOf(g) == p
  {
    var roles := RolePermissions.RolesOf(w.grants, user);
    if RolePermissions.Holds(w.grants, user, p) {
      var r :| r in roles && ((r in w.grants.regular && p in w.grants.regular[r]) ||
        (r in w.grants.apps && p in RolePermissions.Prefixed(w.grants.apps[r])));
      if r in w.grants.regular && p in w.grants.regular[r] {
        assert RegularRow(r, p) in RowsOf(w.grants, roles);
      } else {
        var names := w.grants.apps[r];
        var i :| 0 <= i < |names| && RolePermissions.Prefixed(names)[i] == p;
        assert AppRow(r, names[i]) in RowsOf(w.grants, roles);
      }
    }
    forall g | g in RowsOf(w.grants, roles) && PermissionOf(g) == p ensures RolePermissions.Holds(w.grants, user, p) {
      if g.AppRow? {
        var names := w.grants.apps[g.role];
        var i :| 0 <= i < |names| && names[i] == g.app;
        assert RolePermissions.Prefixed(names)[i] == p;
      }
    }
  }

  // ------------------------------------------------------------ choosing a host

  /** The enabled rows of an app. */
  function LiveRows(rows: seq<Assignment>, app: string): (r: seq<Assignment>)
    ensures forall a :: a in r <==> a in rows && a.app == app && a.enabled
  {
    if rows == [] then []
    else
      assert rows == [rows[0]] + rows[1..];
      (if rows[0].app == app && rows[0].enabled then [rows[0]] else []) + LiveRows(rows[1..], app)
  }

  /** The enabled rows of an app keep their order. */
  lemma {:induction false} LiveRowsConcat(a: seq<Assignment>, b: seq<Assignment>, app: string)
    ensures LiveRows(a + b, app) == LiveRows(a, app) + LiveRows(b, app)
  {
    if a == [] {
      assert a + b == b;
    } else {
      assert (a + b)[0] == a[0] && (a + b)[1..] == a[1..] + b;
      LiveRowsConcat(a[1..], b, app);
    }
  }

  lemma LiveRowsOne(a: Assignment, app: string)
    ensures LiveRows([a], app) == if a.app == app && a.enabled then [a] else []
  {
    assert [a][1..] == [];
  }

  function LiveFor(w: World, app: string): seq<Assignment> {
    LiveRows(w.rows, app)
  }

  function HostOf(a: Assignment, domains: map<int, Domain>): Option<string> {
    if a.domainId in domains then TransferTarget(a, domains[a.domainId]) else None
  }

  /** The host of the first row that has one, looking at primary rows only or at all rows. */
  function FirstHost(live: seq<Assignment>, domains: map<int, Domain>, primaryOnly: bool): Option<string> {
    if live == [] then None
    else if (live[0].primary || !primaryOnly) && HostOf(live[0], domains).Some? then HostOf(live[0], domains)
    else FirstHost(live[1..], domains, primaryOnly)
  }

  /** A primary assignment with a host of its own wins; failing that, any assignment with a host. */
  function ChosenHost(live: seq<Assignment>, domains: map<int, Domain>): Option<string> {
    if FirstHost(live, domains, true).Some? then FirstHost(live, domains, true) else FirstHost(live, domains, false)
  }

  lemma {:induction false} FirstHostConcat(s: seq<Assignment>, t: seq<Assignment>, domains: map<int, Domain>, primaryOnly: bool)
    ensures FirstHost(s + t, domains, primaryOnly)
         == if FirstHost(s, domains, primaryOnly).Some? then FirstHost(s, domains, primaryOnly)
            else FirstHost(t, domains, primaryOnly)
  {
    if s == [] {
      assert s + t == t;
    } else {
      assert (s + t)[1..] == s[1..] + t;
      FirstHostConcat(s[1..], t, domains, primaryOnly);
    }
  }

  /** The loop of `start_host_transfer`. */
  method ChooseHost(live: seq<Assignment>, domains: map<int, Domain>) returns (target: Option<string>)
    ensures target == ChosenHost(live, domains)
  {
    target := None;
    for i := 0 to |live|
      invariant FirstHost(live[..i], domains, true).None?
      invariant target == FirstHost(live[..i], domains, false)
    {
      var a := live[i];
      assert live[..i + 1] == live[..i] + [a] && [a][1..] == [];
      FirstHostConcat(live[..i], [a], domains, true);
      FirstHostConcat(live[..i], [a], domains, false);
      var host := HostOf(a, domains);
      if host.Some? {
        if a.primary || target.None? {
          target := host;
        }
        if a.primary {
          FirstHostConcat(live[..i + 1], live[i + 1..], domains, true);
          assert live == live[..i + 1] + live[i + 1..];
          return;
        }
      }
    }
    assert live[..|live|] == live;
  }

  /** Row `i` is the first that has a host of its own, among the primary rows or among all of them. */
  ghost predicate FirstWithHost(live: seq<Assignment>, domains: map<int, Domain>, primaryOnly: bool, i: int) {
    && 0 <= i < |live| && (live[i].primary || !primaryOnly) && HostOf(live[i], domains).Some?
    && forall j | 0 <= j < i :: (live[j].primary || !primaryOnly) ==> HostOf(live[j], domains).None?
  }

  lemma {:induction false} FirstHostExact(live: seq<Assignment>, domains: map<int, Domain>, primaryOnly: bool)
    ensures FirstHost(live, domains, primaryOnly).None?
       <==> forall a | a in live :: (a.primary || !primaryOnly) ==> HostOf(a, domains).None?
  {
    if live != [] {
      assert live == [live[0]] + live[1..];
      FirstHostExact(live[1..], domains, primaryOnly);
    }
  }

  lemma {:induction false} FirstHostAt(live: seq<Assignment>, domains: map<int, Domain>, primaryOnly: bool) returns (i: int)
    requires FirstHost(live, domains, primaryOnly).Some?
    ensures FirstWithHost(live, domains, primaryOnly, i) && HostOf(live[i], domains) == FirstHost(live, domains, primaryOnly)
  {
    if (live[0].primary || !primaryOnly) && HostOf(live[0], domains).Some? {
      i := 0;
    } else {
      var k := FirstHostAt(live[1..], domains, primaryOnly);
      i := k + 1;
    }
  }

  /** Row `i` decides the host: the first primary row with a host, or the first row with one when no primary row has any. */
  ghost predicate Decides(live: seq<Assignment>, domains: map<int, Domain>, i: int) {
    || FirstWithHost(live, domains, true, i)
    || (FirstWithHost(live, domains, false, i) && forall b | b in live :: b.primary ==> HostOf(b, domains).None?)
  }

  lemma DeciderUnique(live: seq<Assignment>, domains: map<int, Domain>, i: int, j: int)
    requires Decides(live, domains, i) && Decides(live, domains, j)
    ensures i == j
  {
    assert live[i] in live && live[j] in live;
  }

  /** A host is chosen exactly when some live row has one, and then one row decides it. */
  lemma ChosenHostExact(live: seq<Assignment>, domains: map<int, Domain>, host: string)
    ensures ChosenHost(live, domains).None? <==> forall a | a in live :: HostOf(a, domains).None?
    ensures ChosenHost(live, domains) == Some(host) <==>
            exists i :: Decides(live, domains, i) && HostOf(live[i], domains) == Some(host)
  {
    FirstHostExact(live, domains, true);
    FirstHostExact(live, domains, false);
    if ChosenHost(live, domains).Some? {
      var i := FirstHostAt(live, domains, FirstHost(live, domains, true).Some?);
      assert Decides(live, domains, i);
      forall j | Decides(live, domains, j) ensures i == j {
        DeciderUnique(live, domains, i, j);
      }
    } else {
      assert forall j | Decides(live, domains, j) :: live[j] in live;
    }
  }

  // ------------------------------------------------------------------ starting

  datatype StartOutcome = StartRefused | StayOnHost | SentTo(host: string)

  predicate SignedIn(w: World, sid: string, now: int) {
    && sid in w.sessions && !w.sessions[sid].revoked && w.sessions[sid].expiresAt >= now
    && w.sessions[sid].userId in w.users
    && w.users[w.sessions[sid].userId].active && w.users[w.sessions[sid].userId].approved
  }

  /** `start_host_transfer`, for a request with session `sid` and Host header `raw`. */
  function Start(w: World, raw: string, app: string, sid: string, ticket: string, now: int): (World, StartOutcome) {
    if RequestHost(raw).None? || !ValidAppName(app) || !SignedIn(w, sid, now) then (w, StartRefused) else
    var user := w.sessions[sid].userId;
    if !Allows(w, user, app) then (w, StartRefused) else
    match ChosenHost(LiveFor(w, app), w.domains)
    case None => (w, StayOnHost)
    case Some(target) =>
      if target == RequestHost(raw).value.0 then (w, StayOnHost) else
      match Metadata(target, app, sid)
      case None => (w, StartRefused)
      case Some(text) =>
        var row := Session(user, Some(text), now + TICKET_LIFETIME, false);
        (w.(sessions := w.sessions[ticket := row]), SentTo(target))
  }

  // ---------------------------------------------------------------- completing

  /** What a ticket row says: the app, the session to carry over, and the ticket's user. */
  datatype Claim = Claim(app: string, sid: string, owner: int)

  datatype Outcome = Issued(sid: string) | Refused(spent: bool)

  function CheckTicket(row: Option<Session>, ticket: string, host: string, now: int): Option<Claim> {
    if row.None? then None else
    match Source(row.value.agent, host)
    case None => None
    case Some((app, sid)) =>
      if sid == ticket then None
      else if row.value.revoked || row.value.expiresAt <= now then None
      else Some(Claim(app, sid, row.value.userId))
  }

  predicate SourceLive(w: World, claim: Claim, now: int) {
    && claim.sid in w.sessions
    && w.sessions[claim.sid].userId == claim.owner
    && !w.sessions[claim.sid].revoked
    && w.sessions[claim.sid].expiresAt > now
  }

  predicate UserLive(w: World, claim: Claim) {
    claim.owner in w.users && w.users[claim.owner].active && w.users[claim.owner].approved
  }

  predicate Authorized(w: World, claim: Claim, host: string) {
    && Allows(w, claim.owner, claim.app)
    && exists a | a in LiveFor(w, claim.app) :: HostOf(a, w.domains) == Some(host)
  }

  function Spend(w: World, ticket: string): World
    requires ticket in w.sessions
  {
    w.(sessions := w.sessions[ticket := w.sessions[ticket].(revoked := true)])
  }

  /** `complete_host_transfer` without interference. */
  function Complete(w: World, host: string, ticket: string, now: int): (World, Outcome) {
    match CheckTicket(Lookup(w.sessions, ticket), ticket, host, now)
    case None => (w, Refused(false))
    case Some(claim) =>
      if !SourceLive(w, claim, now) || !UserLive(w, claim) then (w, Refused(false))
      else if !Authorized(w, claim, host) then (Spend(w, ticket), Refused(true))
      else (Spend(w, ticket), Issued(claim.sid))
  }

  lemma SpendKeepsChecks(w: World, ticket: string, claim: Claim, host: string, now: int)
    requires ticket in w.sessions && claim.sid != ticket
    ensures var w1 := Spend(w, ticket);
      && SourceLive(w1, claim, now) == SourceLive(w, claim, now)
      && UserLive(w1, claim) == UserLive(w, claim)
      && Authorized(w1, claim, host) == Authorized(w, claim, host)
  {
    assert LiveFor(Spend(w, ticket), claim.app) == LiveFor(w, claim.app);
  }

  /** A row is taken for a ticket exactly when it carries the printed text for this host and is unspent and in time. */
  lemma CheckTicketExact(row: Session, ticket: string, host: string, now: int, claim: Claim)
    ensures CheckTicket(Some(row), ticket, host, now) == Some(claim) <==>
      && ValidHostname(host) && ValidAppName(claim.app) && CanonicalUuid(claim.sid)
      && row.agent == Some(Text(host, claim.app, claim.sid))
      && claim.sid != ticket && claim.owner == row.userId
      && !row.revoked && row.expiresAt > now
  {
    if row.agent.Some? && Source(row.agent, host).Some? {
      MetadataOfSource(row.agent.value, host);
    }
    if ValidHostname(host) && ValidAppName(claim.app) && CanonicalUuid(claim.sid)
       && row.agent == Some(Text(host, claim.app, claim.sid)) {
      SourceOfText(host, claim.app, claim.sid, host);
    }
  }

  lemma CheckTextTicket(row: Session, target: string, app: string, sid: string, ticket: string, host: string, now: int)
    requires ValidHostname(target) && ValidAppName(app) && CanonicalUuid(sid)
    requires row.agent == Some(Text(target, app, sid))
    ensures CheckTicket(Some(row), ticket, host, now)
         == if host == target && sid != ticket && !row.revoked && row.expiresAt > now
            then Some(Claim(app, sid, row.userId)) else None
  {
    SourceOfText(target, app, sid, host);
  }

  /** What a successful start leaves behind: one fresh ticket row, and an authorised claim on the target host. */
  lemma StartedRow(w: World, raw: string, app: string, sid: string, ticket: string, now: int)
    requires Start(w, raw, app, sid, ticket, now).1.SentTo?
    ensures var (w1, sent) := Start(w, raw, app, sid, ticket, now);
      && SignedIn(w, sid, now) && ValidAppName(app) && ValidHostname(sent.host)
      && var user := w.sessions[sid].userId;
      && var row := Session(user, Some(Text(sent.host, app, sid)), now + TICKET_LIFETIME, false);
      && w1 == w.(sessions := w.sessions[ticket := row])
      && UserLive(w1, Claim(app, sid, user)) && Authorized(w1, Claim(app, sid, user), sent.host)
  {
    var (w1, sent) := Start(w, raw, app, sid, ticket, now);
    var live := LiveFor(w, app);
    ChosenHostExact(live, w.domains, sent.host);
    var i :| Decides(live, w.domains, i) && HostOf(live[i], w.domains) == Some(sent.host);
    assert live[i] in live;
    assert LiveFor(w1, app) == live;
  }

  /**
   * A ticket that was issued and presented with nothing changed in between is accepted exactly at its
   * target host, within its lifetime, while the session it carries is unexpired; everywhere else it is
   * refused and stays unspent.
   */
  lemma StartedTicketAccepted(w: World, raw: string, app: string, sid: string, ticket: string, now: int,
                              host: string, later: int)
    requires CanonicalUuid(sid) && ticket !in w.sessions
    requires Start(w, raw, app, sid, ticket, now).1.SentTo?
    ensures var (w1, sent) := Start(w, raw, app, sid, ticket, now);
      var (w2, outcome) := Complete(w1, host, ticket, later);
      if host == sent.host && later < now + TICKET_LIFETIME && later < w.sessions[sid].expiresAt
      then outcome == Issued(sid) && w2 == Spend(w1, ticket)
      else outcome == Refused(false) && w2 == w1
  {
    var (w1, sent) := Start(w, raw, app, sid, ticket, now);
    StartedRow(w, raw, app, sid, ticket, now);
    CheckTextTicket(w1.sessions[ticket], sent.host, app, sid, ticket, host, later);
  }

  /** A spent ticket is refused at every host from then on. */
  lemma SpentTicketRefused(w: World, host: string, ticket: string, now: int, other: string, later: int)
    requires Complete(w, host, ticket, now).1 != Refused(false)
    ensures var w1 := Complete(w, host, ticket, now).0;
      Complete(w1, other, ticket, later) == (w1, Refused(false))
  {
  }

  // ------------------------------------------------- both handlers in terms of the rows

  /** The account's row is active and approved. */
  ghost predicate AccountOpen(users: map<int, User>, user: int) {
    user in users && users[user].active && users[user].approved
  }

  /** Some role of the user holds the wildcard or the app. */
  ghost predicate MayOpen(w: World, user: int, app: string) {
    RolePermissions.Holds(w.grants, user, "app.*") || RolePermissions.Holds(w.grants, user, "app." + app)
  }

  /** An enabled assignment of the app has the host. */
  ghost predicate AppHasHost(w: World, app: string, host: string) {
    exists a :: a in w.rows && a.enabled && a.app == app && a.domainId in w.domains &&
      TransferTarget(a, w.domains[a.domainId]) == Some(host)
  }

  lemma LiveHost(w: World, app: string, host: string)
    ensures AppHasHost(w, app, host) <==> exists a | a in LiveFor(w, app) :: HostOf(a, w.domains) == Some(host)
  {
    if AppHasHost(w, app, host) {
      var a :| a in w.rows && a.enabled && a.app == app && a.domainId in w.domains &&
        TransferTarget(a, w.domains[a.domainId]) == Some(host);
      assert a in LiveFor(w, app) && HostOf(a, w.domains) == Some(host);
    }
  }

  /** The ticket row carries the printed text for this host, app and session, and is unspent and in time. */
  ghost predicate TicketOpen(w: World, host: string, ticket: string, now: int, app: string, sid: string) {
    && ticket in w.sessions && sid != ticket
    && w.sessions[ticket].agent == Some("host-transfer|" + host + "|" + app + "|" + sid)
    && !w.sessions[ticket].revoked && now < w.sessions[ticket].expiresAt
    && ValidHostname(host) && ValidAppName(app) && CanonicalUuid(sid)
  }

  /** The ticket's user owns the session that it carries, which is live, and has an open account. */
  ghost predicate OwnerLive(w: World, ticket: string, now: int, sid: string)
    requires ticket in w.sessions
  {
    && sid in w.sessions && w.sessions[sid].userId == w.sessions[ticket].userId
    && !w.sessions[sid].revoked && now < w.sessions[sid].expiresAt
    && AccountOpen(w.users, w.sessions[ticket].userId)
  }

  lemma TicketOpenExact(w: World, host: string, ticket: string, now: int, claim: Claim)
    ensures CheckTicket(Lookup(w.sessions, ticket), ticket, host, now) == Some(claim) <==>
            TicketOpen(w, host, ticket, now, claim.app, claim.sid) && claim.owner == w.sessions[ticket].userId
  {
    assert "host-transfer|" + host + "|" + claim.app + "|" + claim.sid == Text(host, claim.app, claim.sid);
    if ticket in w.sessions {
      CheckTicketExact(w.sessions[ticket], ticket, host, now, claim);
    }
  }

  /** The request is let through for this app and session. */
  ghost predicate LetsThrough(w: World, host: string, ticket: string, now: int, app: string, sid: string) {
    && TicketOpen(w, host, ticket, now, app, sid) && OwnerLive(w, ticket, now, sid)
    && MayOpen(w, w.sessions[ticket].userId, app) && AppHasHost(w, app, host)
  }

  /** The ticket is spent although the app or the host is no longer granted. */
  ghost predicate Wasted(w: World, host: string, ticket: string, now: int, app: string, sid: string) {
    && TicketOpen(w, host, ticket, now, app, sid) && OwnerLive(w, ticket, now, sid)
    && !(MayOpen(w, w.sessions[ticket].userId, app) && AppHasHost(w, app, host))
  }

  lemma AuthorizedExact(w: World, claim: Claim, host: string)
    ensures Authorized(w, claim, host) <==> MayOpen(w, claim.owner, claim.app) && AppHasHost(w, claim.app, host)
  {
    AllowsIsPermission(w, claim.owner, claim.app);
    LiveHost(w, claim.app, host);
  }

  lemma OwnerLiveExact(w: World, ticket: string, now: int, claim: Claim)
    requires ticket in w.sessions && claim.owner == w.sessions[ticket].userId
    ensures OwnerLive(w, ticket, now, claim.sid) <==> SourceLive(w, claim, now) && UserLive(w, claim)
  {
  }

  lemma CompleteOf(w: World, host: string, ticket: string, now: int, claim: Claim)
    requires CheckTicket(Lookup(w.sessions, ticket), ticket, host, now) == Some(claim)
    ensures Complete(w, host, ticket, now).1 ==
            if !(SourceLive(w, claim, now) && UserLive(w, claim)) then Refused(false)
            else if Authorized(w, claim, host) then Issued(claim.sid)
            else Refused(true)
  {
  }

  lemma OutcomeOfClaim(w: World, host: string, ticket: string, now: int, claim: Claim)
    requires TicketOpen(w, host, ticket, now, claim.app, claim.sid) && claim.owner == w.sessions[ticket].userId
    ensures var outcome := Complete(w, host, ticket, now).1;
      && (outcome == Issued(claim.sid) <==> LetsThrough(w, host, ticket, now, claim.app, claim.sid))
      && (outcome == Refused(true) <==> Wasted(w, host, ticket, now, claim.app, claim.sid))
      && (outcome.Issued? ==> outcome == Issued(claim.sid))
  {
    TicketOpenExact(w, host, ticket, now, claim);
    AuthorizedExact(w, claim, host);
    OwnerLiveExact(w, ticket, now, claim);
    CompleteOf(w, host, ticket, now, claim);
  }

  lemma OneClaim(w: World, host: string, ticket: string, now: int, claim: Claim, app: string, sid: string)
    requires TicketOpen(w, host, ticket, now, claim.app, claim.sid) && claim.owner == w.sessions[ticket].userId
    requires TicketOpen(w, host, ticket, now, app, sid)
    ensures claim == Claim(app, sid, w.sessions[ticket].userId)
  {
    TicketOpenExact(w, host, ticket, now, claim);
    TicketOpenExact(w, host, ticket, now, Claim(app, sid, w.sessions[ticket].userId));
  }

  lemma CompleteWrites(w: World, host: string, ticket: string, now: int)
    ensures var (after, outcome) := Complete(w, host, ticket, now);
      if outcome == Refused(false) then after == w
      else ticket in w.sessions &&
           after == w.(sessions := w.sessions[ticket := w.sessions[ticket].(revoked := true)])
  {
  }

  /**
   * Every outcome of a completion, read off the rows: the session is carried over exactly when ticket, session, account,
   * permission and host are all in order; the ticket is wasted exactly when only permission or host is missing; in all
   * other cases nothing changes, and whenever something changes it is that the ticket's row is revoked.
   */
  lemma CompleteExact(w: World, host: string, ticket: string, now: int, sid: string)
    ensures var (after, outcome) := Complete(w, host, ticket, now);
      && (outcome == Issued(sid) <==> exists app :: LetsThrough(w, host, ticket, now, app, sid))
      && (outcome == Refused(true) <==> exists app, any :: Wasted(w, host, ticket, now, app, any))
      && (if outcome == Refused(false) then after == w
          else ticket in w.sessions &&
               after == w.(sessions := w.sessions[ticket := w.sessions[ticket].(revoked := true)]))
  {
    var claimed := CheckTicket(Lookup(w.sessions, ticket), ticket, host, now);
    CompleteWrites(w, host, ticket, now);
    if claimed.Some? {
      TicketOpenExact(w, host, ticket, now, claimed.value);
      OutcomeOfClaim(w, host, ticket, now, claimed.value);
      forall app, any | TicketOpen(w, host, ticket, now, app, any)
        ensures app == claimed.value.app && any == claimed.value.sid
      {
        OneClaim(w, host, ticket, now, claimed.value, app, any);
      }
    } else {
      forall app, any ensures !TicketOpen(w, host, ticket, now, app, any) {
        if ticket in w.sessions {
          TicketOpenExact(w, host, ticket, now, Claim(app, any, w.sessions[ticket].userId));
        }
      }
    }
  }

  /** A request that may be sent to an app: its header parses, and its session, account and permission are in order. */
  ghost predicate MayStart(w: World, raw: string, app: string, sid: string, now: int) {
    && RequestHost(raw).Some? && ValidAppName(app)
    && sid in w.sessions && !w.sessions[sid].revoked && now <= w.sessions[sid].expiresAt
    && AccountOpen(w.users, w.sessions[sid].userId) && MayOpen(w, w.sessions[sid].userId, app)
  }

  /** The host that the app's enabled assignments decide, in the order of the table. */
  ghost predicate AppGoesTo(w: World, app: string, host: string) {
    exists i :: Decides(LiveFor(w, app), w.domains, i) && HostOf(LiveFor(w, app)[i], w.domains) == Some(host)
  }

  lemma MayStartExact(w: World, raw: string, app: string, sid: string, now: int)
    ensures MayStart(w, raw, app, sid, now) <==>
            && RequestHost(raw).Some? && ValidAppName(app) && SignedIn(w, sid, now) && Allows(w, w.sessions[sid].userId, app)
  {
    if sid in w.sessions {
      AllowsIsPermission(w, w.sessions[sid].userId, app);
    }
  }

  lemma TextFits(host: string, app: string, sid: string)
    ensures Metadata(host, app, sid) ==
            if |host| + |app| + |sid| <= 239 then Some("host-transfer|" + host + "|" + app + "|" + sid) else None
  {
    assert |MARKER| == 14;
    assert "host-transfer|" + host + "|" + app + "|" + sid == Text(host, app, sid);
  }

  /**
   * Every outcome of a start, read off the rows: a ticket for a host is written exactly when the app goes there, it is
   * not where the request came from, and the text fits the column; the request stays exactly when the app has no host or
   * has the one it came from; anything else is refused, and only a ticket changes the tables, by its one row.
   */
  lemma StartExact(w: World, raw: string, app: string, sid: string, ticket: string, now: int, host: string)
    ensures var (after, outcome) := Start(w, raw, app, sid, ticket, now);
      && (outcome == SentTo(host) <==>
            && MayStart(w, raw, app, sid, now) && AppGoesTo(w, app, host)
            && host != RequestHost(raw).value.0 && |host| + |app| + |sid| <= 239)
      && (outcome == SentTo(host) ==>
            var text := "host-transfer|" + host + "|" + app + "|" + sid;
            var row := Session(w.sessions[sid].userId, Some(text), now + 45, false);
            after == w.(sessions := w.sessions[ticket := row]))
      && (!outcome.SentTo? ==> after == w)
  {
    ChosenHostExact(LiveFor(w, app), w.domains, host);
    MayStartExact(w, raw, app, sid, now);
    TextFits(host, app, sid);
  }

  lemma StayExact(w: World, raw: string, app: string, sid: string, ticket: string, now: int)
    ensures Start(w, raw, app, sid, ticket, now).1 == StayOnHost <==>
            && MayStart(w, raw, app, sid, now)
            && (AppGoesTo(w, app, RequestHost(raw).value.0) || forall host: string :: !AppHasHost(w, app, host))
  {
    MayStartExact(w, raw, app, sid, now);
    if MayStart(w, raw, app, sid, now) {
      ChosenHostExact(LiveFor(w, app), w.domains, RequestHost(raw).value.0);
      NoHostChosen(w, app);
    }
  }

  lemma NoHostChosen(w: World, app: string)
    ensures ChosenHost(LiveFor(w, app), w.domains).None? <==> forall host: string :: !AppHasHost(w, app, host)
  {
    ChosenHostExact(LiveFor(w, app), w.domains, "");
    forall host: string
      ensures AppHasHost(w, app, host) <==> exists a | a in LiveFor(w, app) :: HostOf(a, w.domains) == Some(host)
    {
      LiveHost(w, app, host);
    }
    if a :| a in LiveFor(w, app) && HostOf(a, w.domains).Some? {
      assert AppHasHost(w, app, HostOf(a, w.domains).value);
    }
  }

  // ---------------------------------------------------------------- the handlers

  /** The tables as the handlers see them. */
  class Backend {
    var sessions: map<string, Session>
    var users: map<int, User>
    var rows: seq<Assignment>
    var domains: map<int, Domain>
    var grants: RolePermissions.Store

    constructor (w: World)
      ensures Snapshot() == w
    {
      sessions, users, rows, domains, grants := w.sessions, w.users, w.rows, w.domains, w.grants;
    }

    function Snapshot(): World
      reads this
    {
      World(sessions, users, rows, domains, grants)
    }

    method StartTransfer(raw: string, app: string, sid: string, ticket: string, now: int) returns (outcome: StartOutcome)
      modifies this
      ensures (Snapshot(), outcome) == Start(old(Snapshot()), raw, app, sid, ticket, now)
    {
      var header := RequestHost(raw);
      if header.None? || !ValidAppName(app) || !SignedIn(Snapshot(), sid, now) {
        return StartRefused;
      }
      var user := sessions[sid].userId;
      if !Allows(Snapshot(), user, app) {
        return StartRefused;
      }
      var target := ChooseHost(LiveFor(Snapshot(), app), domains);
      if target.None? || target.value == header.value.0 {
        return StayOnHost;
      }
      var text := Metadata(target.value, app, sid);
      if text.None? {
        return StartRefused;
      }
      sessions := sessions[ticket := Session(user, text, now + TICKET_LIFETIME, false)];
      return SentTo(target.value);
    }

    method CompleteTransfer(host: string, ticket: string, now: int) returns (outcome: Outcome)
      modifies this
      ensures (Snapshot(), outcome) == Complete(old(Snapshot()), host, ticket, now)
    {
      var claimed := CheckTicket(Lookup(sessions, ticket), ticket, host, now);
      if claimed.None? {
        return Refused(false);
      }
      var claim := claimed.value;
      var unspent := sessions;
      SpendKeepsChecks(Snapshot(), ticket, claim, host, now);
      sessions := sessions[ticket := sessions[ticket].(revoked := true)];
      assert Snapshot() == Spend(old(Snapshot()), ticket);
      if !SourceLive(Snapshot(), claim, now) || !UserLive(Snapshot(), claim) {
        sessions := unspent;
        return Refused(false);
      }
      var authorized := Authorize(claim, host);
      if !authorized {
        return Refused(true);
      }
      return Issued(claim.sid);
    }

    /** The loop that re-derives the target host from the app's current assignments. */
    method Authorize(claim: Claim, host: string) returns (authorized: bool)
      ensures authorized <==> Authorized(Snapshot(), claim, host)
    {
      var live := LiveFor(Snapshot(), claim.app);
      authorized := false;
      for i := 0 to |live|
        invariant !authorized
        invariant forall a | a in live[..i] :: !(HostOf(a, domains) == Some(host) && Allows(Snapshot(), claim.owner, claim.app))
      {
        assert live[..i + 1] == live[..i] + [live[i]];
        if live[i].domainId !in domains {
          continue;
        }
        if TransferTarget(live[i], domains[live[i].domainId]) == Some(host) && Allows(Snapshot(), claim.owner, claim.app) {
          assert live[i] in live;
          return true;
        }
      }
      assert live[..|live|] == live;
    }
  }
}
