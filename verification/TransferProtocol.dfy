/**
 * Any number of ticket completions running against each other and against sign-ins, new tickets,
 * logouts, revocations and administration. One step is one statement of `complete_host_transfer`, down to
 * each query of the authorisation that follows the commit outside any transaction; reads see committed
 * rows, and an update or delete of a row waits for the transaction that holds it.
 */
module TransferProtocol {
  import opened Common
  import opened HostTransfer
  import opened Routes
  import RolePermissions

  datatype Phase =
    | Opened
    | Checked(claim: Claim)
    | Taken(claim: Claim)
    | SourceRead(claim: Claim)
    | UserRead(claim: Claim)
    | Committed(claim: Claim)
    | Listed(claim: Claim, live: seq<Assignment>)
    | RolesRead(claim: Claim, live: seq<Assignment>, roles: set<int>)
    | RegularRead(claim: Claim, live: seq<Assignment>, roles: set<int>, granted: set<Grant>)
    | Scanning(claim: Claim, live: seq<Assignment>, roles: set<int>, granted: set<Grant>, row: nat)
    | Cleared(claim: Claim, chosen: Assignment, roles: set<int>, granted: set<Grant>)
    | Done(claim: Claim, chosen: Assignment, roles: set<int>, granted: set<Grant>)
    | Failed(spent: bool)
  {
    /** The transaction has updated the ticket row and not yet ended. */
    predicate HoldsRow() { Taken? || SourceRead? || UserRead? }

    /** The ticket is spent and its assignments and permissions are being read. */
    predicate Authorizing() { Committed? || Listed? || RolesRead? || RegularRead? || Scanning? }

    predicate PastCommit() { Authorizing() || Cleared? || Done? || (Failed? && spent) }
  }

  datatype Request = Request(host: string, ticket: string, phase: Phase)

  datatype Token = Token(req: nat, ticket: string, sid: string)

  /** The database and clock, the requests in flight, and the history: every id used, commits and tokens in order. */
  datatype State = State(
    world: World, now: int, requests: map<nat, Request>,
    everIds: set<string>, commits: seq<nat>, tokens: seq<Token>)

  datatype Event =
    | Arrive(req: nat, host: string, ticket: string)
    | ReadTicket(req: nat)
    | TakeTicket(req: nat)
    | ReadSource(req: nat)
    | CheckUser(req: nat)
    | Commit(req: nat)
    | ReadAssignments(req: nat)
    | ReadRoles(req: nat)
    | ReadRegular(req: nat)
    | ReadApps(req: nat)
    | TryAssignment(req: nat)
    | Issue(req: nat)
    | Abandon(req: nat)
    | NewSession(id: string, row: Session)
    | DeleteSession(id: string)
    | SetUser(user: int, account: User)
    | DeleteUser(user: int)
    | SetRoutes(rows: seq<Assignment>, domains: map<int, Domain>)
    | SetGrants(grants: RolePermissions.Store)
    | Tick(to: int)
  {
    predicate Own() {
      ReadTicket? || TakeTicket? || ReadSource? || CheckUser? || Commit? || ReadAssignments? || ReadRoles? ||
      ReadRegular? || ReadApps? || TryAssignment? || Issue? || Abandon?
    }

    predicate ByRequest(r: nat) {
      Own() && req == r
    }
  }

  predicate Held(s: State, id: string) {
    exists r | r in s.requests :: s.requests[r].phase.HoldsRow() && s.requests[r].ticket == id
  }

  function To(s: State, r: nat, phase: Phase): State
    requires r in s.requests
  {
    s.(requests := s.requests[r := s.requests[r].(phase := phase)])
  }

  /** The statement that a request in this phase executes next; none once it has ended. */
  function Upcoming(phase: Phase, r: nat): Option<Event> {
    match phase
    case Opened => Some(ReadTicket(r))
    case Checked(_) => Some(TakeTicket(r))
    case Taken(_) => Some(ReadSource(r))
    case SourceRead(_) => Some(CheckUser(r))
    case UserRead(_) => Some(Commit(r))
    case Committed(_) => Some(ReadAssignments(r))
    case Listed(_, _) => Some(ReadRoles(r))
    case RolesRead(_, _, _) => Some(ReadRegular(r))
    case RegularRead(_, _, _, _) => Some(ReadApps(r))
    case Scanning(_, _, _, _, _) => Some(TryAssignment(r))
    case Cleared(_, _, _, _) => Some(Issue(r))
    case Done(_, _, _, _) => None
    case Failed(_) => None
  }

  /** What a request past its commit learns from its next query; `host` is where it was presented. */
  function ReadOn(w: World, host: string, phase: Phase): Phase
    requires phase.Authorizing()
  {
    match phase
    case Committed(claim) => Listed(claim, LiveFor(w, claim.app))
    case Listed(claim, live) =>
      var roles := RolePermissions.RolesOf(w.grants, claim.owner);
      if roles == {} then Scanning(claim, live, {}, {}, 0) else RolesRead(claim, live, roles)
    case RolesRead(claim, live, roles) => RegularRead(claim, live, roles, RegularRows(w.grants, roles))
    case RegularRead(claim, live, roles, granted) =>
      Scanning(claim, live, roles, granted + AppRows(w.grants, roles), 0)
    case Scanning(claim, live, roles, granted, row) =>
      if row >= |live| then Failed(true)
      else if HostOf(live[row], w.domains) == Some(host) && Permits(granted, claim.app) then
        Cleared(claim, live[row], roles, granted)
      else Scanning(claim, live, roles, granted, row + 1)
  }

  /** Request `r` executes its next statement; None when it has ended or has to wait for a row. */
  function Advance(s: State, r: nat): Option<State>
    requires r in s.requests
  {
    var q := s.requests[r];
    match q.phase
    case Opened =>
      (match CheckTicket(Lookup(s.world.sessions, q.ticket), q.ticket, q.host, s.now)
       case Some(claim) => Some(To(s, r, Checked(claim)))
       case None => Some(To(s, r, Failed(false))))
    case Checked(claim) =>
      if Held(s, q.ticket) then None
      else if q.ticket in s.world.sessions && !s.world.sessions[q.ticket].revoked then Some(To(s, r, Taken(claim)))
      else Some(To(s, r, Failed(false)))
    case Taken(claim) =>
      Some(To(s, r, if SourceLive(s.world, claim, s.now) then SourceRead(claim) else Failed(false)))
    case SourceRead(claim) =>
      Some(To(s, r, if UserLive(s.world, claim) then UserRead(claim) else Failed(false)))
    case UserRead(claim) =>
      if q.ticket in s.world.sessions then
        Some(To(s, r, Committed(claim)).(world := Spend(s.world, q.ticket), commits := s.commits + [r]))
      else None
    case Cleared(claim, chosen, roles, granted) =>
      Some(To(s, r, Done(claim, chosen, roles, granted)).(tokens := s.tokens + [Token(r, q.ticket, claim.sid)]))
    case Done(_, _, _, _) => None
    case Failed(_) => None
    case _ => Some(To(s, r, ReadOn(s.world, q.host, q.phase)))
  }

  /** A step of request `r`: its next statement, or the end of its connection. */
  function RequestStep(s: State, r: nat, e: Event): Option<State>
    requires r in s.requests
  {
    var phase := s.requests[r].phase;
    if Upcoming(phase, r).None? then None
    else if e.Abandon? then Some(To(s, r, Failed(phase.PastCommit())))
    else if Upcoming(phase, r) == Some(e) then Advance(s, r)
    else None
  }

  function WithSessions(s: State, sessions: map<string, Session>): State {
    s.(world := s.world.(sessions := sessions))
  }

  function Next(s: State, e: Event): Option<State> {
    match e
    case Arrive(r, host, ticket) =>
      if r in s.requests then None else Some(s.(requests := s.requests[r := Request(host, ticket, Opened)]))
    case NewSession(id, row) =>
      if id in s.everIds || row.revoked then None
      else Some(WithSessions(s, s.world.sessions[id := row]).(everIds := s.everIds + {id}))
    case DeleteSession(id) =>
      if Held(s, id) then None else Some(WithSessions(s, s.world.sessions - {id}))
    case SetUser(user, account) => Some(s.(world := s.world.(users := s.world.users[user := account])))
    case DeleteUser(user) =>
      var theirs := set id | id in s.world.sessions && s.world.sessions[id].userId == user;
      if exists id | id in theirs :: Held(s, id) then None
      else Some(WithSessions(s.(world := s.world.(users := s.world.users - {user})), s.world.sessions - theirs))
    case SetRoutes(rows, domains) => Some(s.(world := s.world.(rows := rows, domains := domains)))
    case SetGrants(grants) => Some(s.(world := s.world.(grants := grants)))
    case Tick(to) => if to < s.now then None else Some(s.(now := to))
    case _ => if e.req in s.requests then RequestStep(s, e.req, e) else None
  }

  /** The state after the events `es`, in order; None if one of them could not happen. */
  function Run(s0: State, es: seq<Event>): Option<State> {
    if es == [] then Some(s0)
    else
      match Run(s0, es[..|es| - 1])
      case None => None
      case Some(s) => Next(s, es[|es| - 1])
  }

  ghost predicate Init(s: State) {
    && s.requests == map[] && s.commits == [] && s.tokens == []
    && s.world.sessions.Keys <= s.everIds
  }

  // -------------------------------------------------------------- at most once

  ghost predicate Locking(s: State) {
    && s.world.sessions.Keys <= s.everIds
    && (forall r | r in s.requests && s.requests[r].phase.HoldsRow() ::
          s.requests[r].ticket in s.world.sessions && !s.world.sessions[s.requests[r].ticket].revoked)
    && (forall r, q | r in s.requests && q in s.requests && r != q
                      && s.requests[r].phase.HoldsRow() && s.requests[q].phase.HoldsRow() ::
          s.requests[r].ticket != s.requests[q].ticket)
  }

  ghost predicate Spent(s: State, ticket: string) {
    ticket in s.everIds && (ticket in s.world.sessions ==> s.world.sessions[ticket].revoked)
  }

  ghost predicate CommitsListed(s: State) {
    && (forall r :: r in s.commits <==> r in s.requests && s.requests[r].phase.PastCommit())
    && (forall r | r in s.commits :: Spent(s, s.requests[r].ticket))
    && (forall i, j | 0 <= i < j < |s.commits| :: s.requests[s.commits[i]].ticket != s.requests[s.commits[j]].ticket)
  }

  ghost predicate TokensListed(s: State) {
    && (forall t | t in s.tokens :: t.req in s.requests && s.requests[t.req].phase.Done?
          && t.ticket == s.requests[t.req].ticket && t.sid == s.requests[t.req].phase.claim.sid)
    && (forall i, j | 0 <= i < j < |s.tokens| :: s.tokens[i].req != s.tokens[j].req)
  }

  ghost predicate History(s: State) {
    CommitsListed(s) && TokensListed(s)
  }

  /** Every way a step of request `r` can change the state. */
  ghost predicate RequestShape(s: State, r: nat, t: State) {
    && r in s.requests && r in t.requests
    && var q, p := s.requests[r], t.requests[r].phase;
    && t.requests == s.requests[r := q.(phase := p)]
    && t.everIds == s.everIds
    && !q.phase.Done?
    && (p.HoldsRow() && !q.phase.HoldsRow() ==>
          !Held(s, q.ticket) && q.ticket in s.world.sessions && !s.world.sessions[q.ticket].revoked)
    && (if p.PastCommit() && !q.phase.PastCommit() then
          && q.phase.HoldsRow() && q.ticket in s.world.sessions
          && t.commits == s.commits + [r] && t.world == Spend(s.world, q.ticket)
        else
          t.commits == s.commits && t.world == s.world && (q.phase.PastCommit() ==> p.PastCommit()))
    && (if p.Done? then t.tokens == s.tokens + [Token(r, q.ticket, p.claim.sid)] else t.tokens == s.tokens)
  }

  lemma ReadOnShape(s: State, r: nat)
    requires r in s.requests && s.requests[r].phase.Authorizing()
    ensures Advance(s, r).Some? && RequestShape(s, r, Advance(s, r).value)
  {
    assert ReadOn(s.world, s.requests[r].host, s.requests[r].phase).PastCommit();
  }

  lemma AdvanceShape(s: State, r: nat)
    requires r in s.requests && Advance(s, r).Some? && !s.requests[r].phase.UserRead? && !s.requests[r].phase.Opened?
    requires !s.requests[r].phase.Authorizing()
    ensures RequestShape(s, r, Advance(s, r).value)
  {
  }

  lemma EarlyShape(s: State, r: nat, phase: Phase)
    requires r in s.requests && s.requests[r].phase.Opened? && (phase.Checked? || phase == Failed(false))
    ensures RequestShape(s, r, To(s, r, phase))
  {
  }

  lemma OpenShape(s: State, r: nat)
    requires r in s.requests && s.requests[r].phase.Opened? && Advance(s, r).Some?
    ensures RequestShape(s, r, Advance(s, r).value)
  {
    var q := s.requests[r];
    var claimed := CheckTicket(Lookup(s.world.sessions, q.ticket), q.ticket, q.host, s.now);
    EarlyShape(s, r, if claimed.Some? then Checked(claimed.value) else Failed(false));
  }

  lemma CommitShape(s: State, r: nat)
    requires r in s.requests && s.requests[r].phase.UserRead? && Advance(s, r).Some?
    ensures RequestShape(s, r, Advance(s, r).value)
  {
  }

  lemma AbandonShape(s: State, r: nat)
    requires r in s.requests && !s.requests[r].phase.Done? && !s.requests[r].phase.Failed?
    ensures RequestShape(s, r, To(s, r, Failed(s.requests[r].phase.PastCommit())))
  {
  }

  lemma RequestStepShape(s: State, r: nat, e: Event)
    requires r in s.requests && RequestStep(s, r, e).Some?
    ensures RequestShape(s, r, RequestStep(s, r, e).value)
  {
    if e.Abandon? {
      AbandonShape(s, r);
    } else if s.requests[r].phase.Authorizing() {
      ReadOnShape(s, r);
    } else {
      match s.requests[r].phase
      case UserRead(_) => CommitShape(s, r);
      case Opened => OpenShape(s, r);
      case _ => AdvanceShape(s, r);
    }
  }

  /** Every way the rest of the system can change the state. */
  ghost predicate OutsideShape(s: State, t: State) {
    && (forall r | r in s.requests :: r in t.requests && t.requests[r] == s.requests[r])
    && (forall r | r in t.requests && r !in s.requests :: t.requests[r].phase.Opened?)
    && t.commits == s.commits && t.tokens == s.tokens
    && s.everIds <= t.everIds
    && (s.world.sessions.Keys <= s.everIds ==> t.world.sessions.Keys <= t.everIds)
    && (forall id | id in t.world.sessions && id in s.everIds ::
          id in s.world.sessions && t.world.sessions[id] == s.world.sessions[id])
    && (forall id | id in s.world.sessions && Held(s, id) :: id in t.world.sessions)
  }

  lemma OutsideStepShape(s: State, e: Event)
    requires Next(s, e).Some? && forall r :: !e.ByRequest(r)
    requires s.world.sessions.Keys <= s.everIds
    ensures OutsideShape(s, Next(s, e).value)
  {
    assert e.Own() ==> e.ByRequest(e.req);
  }

  lemma LockingKeptByRequest(s: State, r: nat, t: State)
    requires Locking(s) && RequestShape(s, r, t)
    ensures Locking(t)
  {
    assert forall q | q in s.requests && q != r :: t.requests[q] == s.requests[q];
  }

  lemma LockingKeptOutside(s: State, t: State)
    requires Locking(s) && OutsideShape(s, t)
    ensures Locking(t)
  {
    forall r | r in t.requests && t.requests[r].phase.HoldsRow()
      ensures t.requests[r].ticket in t.world.sessions && !t.world.sessions[t.requests[r].ticket].revoked
    {
      assert Held(s, s.requests[r].ticket);
    }
  }

  lemma CommitsKeptByRequest(s: State, r: nat, t: State)
    requires Locking(s) && CommitsListed(s) && RequestShape(s, r, t)
    ensures CommitsListed(t)
  {
    assert forall q | q in s.requests && q != r :: t.requests[q] == s.requests[q];
    assert t.requests[r].ticket == s.requests[r].ticket;
    if t.commits == s.commits + [r] {
      assert forall q :: q in t.commits <==> q in s.commits || q == r;
      forall i | 0 <= i < |s.commits| ensures s.requests[s.commits[i]].ticket != s.requests[r].ticket {
        assert s.commits[i] in s.commits;
      }
    }
  }

  lemma TokensKeptByRequest(s: State, r: nat, t: State)
    requires TokensListed(s) && RequestShape(s, r, t)
    ensures TokensListed(t)
  {
    assert forall q | q in s.requests && q != r :: t.requests[q] == s.requests[q];
    assert forall x | x in s.tokens :: x.req != r;
    if t.tokens != s.tokens {
      assert forall x | x in t.tokens :: x in s.tokens || x == t.tokens[|s.tokens|];
      assert forall i | 0 <= i < |s.tokens| :: s.tokens[i] in s.tokens;
    }
  }

  lemma HistoryKeptOutside(s: State, t: State)
    requires Locking(s) && History(s) && OutsideShape(s, t)
    ensures History(t)
  {
    forall r | r in s.commits ensures Spent(t, t.requests[r].ticket) {
      assert Spent(s, s.requests[r].ticket);
    }
  }

  lemma InvariantsKept(s: State, e: Event)
    requires Locking(s) && History(s) && Next(s, e).Some?
    ensures Locking(Next(s, e).value) && History(Next(s, e).value)
  {
    var t := Next(s, e).value;
    if r: nat :| e.ByRequest(r) {
      RequestStepShape(s, r, e);
      LockingKeptByRequest(s, r, t);
      CommitsKeptByRequest(s, r, t);
      TokensKeptByRequest(s, r, t);
    } else {
      OutsideStepShape(s, e);
      LockingKeptOutside(s, t);
      HistoryKeptOutside(s, t);
    }
  }

  lemma {:induction false} Reachable(s0: State, es: seq<Event>)
    requires Init(s0) && Run(s0, es).Some?
    ensures Locking(Run(s0, es).value) && History(Run(s0, es).value)
  {
    if es != [] {
      var n := |es| - 1;
      Reachable(s0, es[..n]);
      InvariantsKept(Run(s0, es[..n]).value, es[n]);
    }
  }

  /** Whatever the interleaving, a ticket is committed by at most one request and issues at most one token. */
  lemma AtMostOnce(s0: State, es: seq<Event>)
    requires Init(s0) && Run(s0, es).Some?
    ensures var s := Run(s0, es).value;
      && (forall r | r in s.commits :: r in s.requests)
      && (forall i, j | 0 <= i < j < |s.commits| ::
            s.requests[s.commits[i]].ticket != s.requests[s.commits[j]].ticket)
      && (forall i, j | 0 <= i < j < |s.tokens| :: s.tokens[i].ticket != s.tokens[j].ticket)
      && (forall t | t in s.tokens :: t.req in s.commits && s.requests[t.req].ticket == t.ticket)
  {
    Reachable(s0, es);
    var s := Run(s0, es).value;
    forall i, j | 0 <= i < j < |s.tokens| ensures s.tokens[i].ticket != s.tokens[j].ticket {
      var p, q := s.tokens[i], s.tokens[j];
      assert p in s.tokens && q in s.tokens;
      assert p.req in s.commits && q.req in s.commits;
      var a :| 0 <= a < |s.commits| && s.commits[a] == p.req;
      var b :| 0 <= b < |s.commits| && s.commits[b] == q.req;
      assert a != b;
    }
  }

  // ---------------------------------------------------------------- provenance

  /** What a completion must have found in the database, each in its own query. */
  datatype Check =
    | TicketOk
    | SourceOk
    | UserOk
    | RowListed(a: Assignment)
    | RoleHeld(role: int)
    | RowGranted(g: Grant)
    | HostTargeted(a: Assignment)

  /** The condition in the rows that the query reads. */
  ghost predicate Passes(c: Check, s: State, host: string, ticket: string, claim: Claim) {
    var w := s.world;
    match c
    case TicketOk => TicketOpen(w, host, ticket, s.now, claim.app, claim.sid) && w.sessions[ticket].userId == claim.owner
    case SourceOk =>
      && claim.sid in w.sessions && w.sessions[claim.sid].userId == claim.owner
      && !w.sessions[claim.sid].revoked && w.sessions[claim.sid].expiresAt > s.now
    case UserOk => claim.owner in w.users && w.users[claim.owner].active && w.users[claim.owner].approved
    case RowListed(a) => a in w.rows && a.enabled && a.app == claim.app
    case RoleHeld(role) => claim.owner in w.grants.userRoles && role in w.grants.userRoles[claim.owner]
    case RowGranted(RegularRow(role, permission)) => role in w.grants.regular && permission in w.grants.regular[role]
    case RowGranted(AppRow(role, app)) => role in w.grants.apps && app in w.grants.apps[role]
    case HostTargeted(a) => a.domainId in w.domains && TransferTarget(a, w.domains[a.domainId]) == Some(host)
  }

  function Statement(c: Check, r: nat): Event {
    match c
    case TicketOk => ReadTicket(r)
    case SourceOk => ReadSource(r)
    case UserOk => CheckUser(r)
    case RowListed(_) => ReadAssignments(r)
    case RoleHeld(_) => ReadRoles(r)
    case RowGranted(g) => if g.RegularRow? then ReadRegular(r) else ReadApps(r)
    case HostTargeted(_) => TryAssignment(r)
  }

  ghost predicate MetAfter(s0: State, es: seq<Event>, c: Check, host: string, ticket: string, claim: Claim) {
    Run(s0, es).Some? && Passes(c, Run(s0, es).value, host, ticket, claim)
  }

  /** At its own statement, which follows the events `before`, request `r` found condition `c` met. */
  ghost predicate Saw(s0: State, es: seq<Event>, c: Check, r: nat, host: string, ticket: string, claim: Claim) {
    exists before :: before + [Statement(c, r)] <= es && MetAfter(s0, before, c, host, ticket, claim)
  }

  /** What a request in this phase has found. */
  predicate Required(phase: Phase, c: Check) {
    match c
    case TicketOk => !phase.Opened? && !phase.Failed?
    case SourceOk => phase.SourceRead? || phase.UserRead? || (phase.PastCommit() && !phase.Failed?)
    case UserOk => phase.UserRead? || (phase.PastCommit() && !phase.Failed?)
    case RowListed(a) =>
      if phase.Cleared? || phase.Done? then a == phase.chosen
      else (phase.Listed? || phase.RolesRead? || phase.RegularRead? || phase.Scanning?) && a in phase.live
    case RoleHeld(role) =>
      (phase.RolesRead? || phase.RegularRead? || phase.Scanning? || phase.Cleared? || phase.Done?) && role in phase.roles
    case RowGranted(g) => (phase.RegularRead? || phase.Scanning? || phase.Cleared? || phase.Done?) && g in phase.granted
    case HostTargeted(a) => (phase.Cleared? || phase.Done?) && a == phase.chosen
  }

  ghost predicate Trail(s0: State, es: seq<Event>, s: State) {
    forall r, c | r in s.requests && Required(s.requests[r].phase, c) ::
      Saw(s0, es, c, r, s.requests[r].host, s.requests[r].ticket, s.requests[r].phase.claim)
  }

  lemma ReadOnPasses(s: State, r: nat, c: Check)
    requires r in s.requests && s.requests[r].phase.Authorizing()
    requires Required(ReadOn(s.world, s.requests[r].host, s.requests[r].phase), c)
    ensures var q := s.requests[r];
      var p := ReadOn(s.world, q.host, q.phase);
      && q.phase.claim == p.claim
      && (Required(q.phase, c) || (Upcoming(q.phase, r) == Some(Statement(c, r)) && Passes(c, s, q.host, q.ticket, p.claim)))
  {
  }

  lemma OpenedPasses(s: State, r: nat, c: Check)
    requires r in s.requests && s.requests[r].phase.Opened? && Advance(s, r).Some?
    requires r in Advance(s, r).value.requests && Required(Advance(s, r).value.requests[r].phase, c)
    ensures var q, p := s.requests[r], Advance(s, r).value.requests[r].phase;
      Upcoming(q.phase, r) == Some(Statement(c, r)) && Passes(c, s, q.host, q.ticket, p.claim)
  {
    var q, p := s.requests[r], Advance(s, r).value.requests[r].phase;
    TicketOpenExact(s.world, q.host, q.ticket, s.now, p.claim);
  }

  lemma AdvancePasses(s: State, r: nat, c: Check)
    requires r in s.requests && !s.requests[r].phase.Authorizing() && !s.requests[r].phase.Opened? && Advance(s, r).Some?
    requires r in Advance(s, r).value.requests && Required(Advance(s, r).value.requests[r].phase, c)
    ensures var q, p := s.requests[r], Advance(s, r).value.requests[r].phase;
      (Required(q.phase, c) && q.phase.claim == p.claim)
      || (Upcoming(q.phase, r) == Some(Statement(c, r)) && Passes(c, s, q.host, q.ticket, p.claim))
  {
  }

  lemma StepPasses(s: State, r: nat, e: Event, c: Check)
    requires r in s.requests && RequestStep(s, r, e).Some? && e.ByRequest(r)
    requires Required(RequestStep(s, r, e).value.requests[r].phase, c)
    ensures var q, p := s.requests[r], RequestStep(s, r, e).value.requests[r].phase;
      (Required(q.phase, c) && q.phase.claim == p.claim)
      || (e == Statement(c, r) && Passes(c, s, q.host, q.ticket, p.claim))
  {
    if !e.Abandon? {
      if s.requests[r].phase.Authorizing() {
        ReadOnPasses(s, r, c);
      } else if s.requests[r].phase.Opened? {
        OpenedPasses(s, r, c);
      } else {
        AdvancePasses(s, r, c);
      }
    }
  }

  lemma SawExtends(s0: State, es: seq<Event>, e: Event, c: Check, r: nat, host: string, ticket: string, claim: Claim)
    requires Saw(s0, es, c, r, host, ticket, claim)
    ensures Saw(s0, es + [e], c, r, host, ticket, claim)
  {
    var before :| before + [Statement(c, r)] <= es && MetAfter(s0, before, c, host, ticket, claim);
    assert before + [Statement(c, r)] <= es + [e];
  }

  lemma SawNow(s0: State, es: seq<Event>, e: Event, c: Check, r: nat, host: string, ticket: string, claim: Claim)
    requires Run(s0, es).Some? && e == Statement(c, r)
    requires Passes(c, Run(s0, es).value, host, ticket, claim)
    ensures Saw(s0, es + [e], c, r, host, ticket, claim)
  {
    assert MetAfter(s0, es, c, host, ticket, claim);
  }

  lemma TrailKept(s0: State, es: seq<Event>, e: Event, t: State)
    requires Run(s0, es).Some? && Trail(s0, es, Run(s0, es).value)
    requires Next(Run(s0, es).value, e) == Some(t)
    requires Run(s0, es).value.world.sessions.Keys <= Run(s0, es).value.everIds
    ensures Trail(s0, es + [e], t)
  {
    var s := Run(s0, es).value;
    forall r, c | r in t.requests && Required(t.requests[r].phase, c)
      ensures Saw(s0, es + [e], c, r, t.requests[r].host, t.requests[r].ticket, t.requests[r].phase.claim)
    {
      var now := t.requests[r];
      if e.ByRequest(r) {
        StepPasses(s, r, e, c);
        RequestStepShape(s, r, e);
        if Required(s.requests[r].phase, c) && s.requests[r].phase.claim == now.phase.claim {
          SawExtends(s0, es, e, c, r, now.host, now.ticket, now.phase.claim);
        } else {
          SawNow(s0, es, e, c, r, now.host, now.ticket, now.phase.claim);
        }
      } else {
        OthersKept(s, e, r);
        SawExtends(s0, es, e, c, r, now.host, now.ticket, now.phase.claim);
      }
    }
  }

  /** A step leaves every other request alone; a new one starts without a claim. */
  lemma OthersKept(s: State, e: Event, r: nat)
    requires Next(s, e).Some? && !e.ByRequest(r) && r in Next(s, e).value.requests
    requires s.world.sessions.Keys <= s.everIds
    ensures (r in s.requests && Next(s, e).value.requests[r] == s.requests[r])
         || Next(s, e).value.requests[r].phase.Opened?
  {
    if q: nat :| e.ByRequest(q) {
      RequestStepShape(s, q, e);
    } else {
      OutsideStepShape(s, e);
    }
  }

  lemma IdsKnown(s0: State, es: seq<Event>)
    requires Init(s0) && Run(s0, es).Some?
    ensures Run(s0, es).value.world.sessions.Keys <= Run(s0, es).value.everIds
  {
    Reachable(s0, es);
  }

  lemma {:induction false} TrailHolds(s0: State, es: seq<Event>)
    requires Init(s0) && Run(s0, es).Some?
    ensures Trail(s0, es, Run(s0, es).value)
  {
    if es != [] {
      var n := |es| - 1;
      var before, last := es[..n], es[n];
      assert es == before + [last];
      TrailHolds(s0, before);
      IdsKnown(s0, before);
      TrailKept(s0, before, last, Run(s0, es).value);
    }
  }

  /** A request that was let through holds a row that opens the app, of a role it has read. */
  ghost predicate LetThrough(s: State) {
    forall r | r in s.requests :: Sound(s.requests[r].phase)
  }

  lemma LetThroughKept(s: State, e: Event)
    requires LetThrough(s) && Next(s, e).Some? && s.world.sessions.Keys <= s.everIds
    ensures LetThrough(Next(s, e).value)
  {
    var t := Next(s, e).value;
    forall r | r in t.requests ensures Sound(t.requests[r].phase) {
      if e.ByRequest(r) {
        OwnLetThrough(s, r, e);
      } else {
        OthersKept(s, e, r);
      }
    }
  }

  ghost predicate Sound(phase: Phase) {
    && (forall g | Required(phase, RowGranted(g)) :: g.role in phase.roles)
    && (phase.Cleared? || phase.Done? ==> Permits(phase.granted, phase.claim.app))
  }

  lemma ReadOnSound(w: World, host: string, phase: Phase)
    requires phase.Authorizing() && Sound(phase)
    ensures Sound(ReadOn(w, host, phase))
  {
    assert forall g | Required(ReadOn(w, host, phase), RowGranted(g)) && !Required(phase, RowGranted(g)) ::
      g.role in phase.roles;
  }

  lemma OwnLetThrough(s: State, r: nat, e: Event)
    requires LetThrough(s) && r in s.requests && RequestStep(s, r, e).Some?
    ensures Sound(RequestStep(s, r, e).value.requests[r].phase)
  {
    var phase := s.requests[r].phase;
    assert Sound(phase);
    if !e.Abandon? {
      if phase.Authorizing() {
        ReadOnSound(s.world, s.requests[r].host, phase);
      } else {
        AdvanceSound(s, r);
      }
    }
  }

  lemma AdvanceKind(s: State, r: nat)
    requires r in s.requests && !s.requests[r].phase.Authorizing() && Advance(s, r).Some?
    ensures r in Advance(s, r).value.requests
    ensures var q, p := s.requests[r].phase, Advance(s, r).value.requests[r].phase;
      if q.Cleared? then p == Done(q.claim, q.chosen, q.roles, q.granted)
      else !(p.RegularRead? || p.Scanning? || p.Cleared? || p.Done?)
  {
  }

  lemma AdvanceSound(s: State, r: nat)
    requires r in s.requests && !s.requests[r].phase.Authorizing() && Sound(s.requests[r].phase)
    requires Advance(s, r).Some? && r in Advance(s, r).value.requests
    ensures Sound(Advance(s, r).value.requests[r].phase)
  {
    var q := s.requests[r].phase;
    AdvanceKind(s, r);
    KindSound(q, Advance(s, r).value.requests[r].phase);
  }

  lemma KindSound(q: Phase, p: Phase)
    requires Sound(q)
    requires if q.Cleared? then p == Done(q.claim, q.chosen, q.roles, q.granted)
             else !(p.RegularRead? || p.Scanning? || p.Cleared? || p.Done?)
    ensures Sound(p)
  {
    if q.Cleared? {
      forall g | Required(p, RowGranted(g)) ensures g.role in p.roles {
        assert Required(q, RowGranted(g));
      }
    }
  }

  lemma {:induction false} LetThroughHolds(s0: State, es: seq<Event>)
    requires Init(s0) && Run(s0, es).Some?
    ensures LetThrough(Run(s0, es).value)
  {
    if es != [] {
      var n := |es| - 1;
      LetThroughHolds(s0, es[..n]);
      IdsKnown(s0, es[..n]);
      LetThroughKept(Run(s0, es[..n]).value, es[n]);
    }
  }

  /**
   * Everything that the token's request relied on held when its own query read it, for one claim on the token's
   * session: the ticket, the session, the user, an assignment, a role of the user, a row of that role that opens the
   * app, and the domain that gives the assignment the host.
   */
  ghost predicate Earned(
    s0: State, es: seq<Event>, host: string, token: Token, claim: Claim, a: Assignment, g: Grant)
  {
    && claim.sid == token.sid
    && Saw(s0, es, TicketOk, token.req, host, token.ticket, claim)
    && Saw(s0, es, SourceOk, token.req, host, token.ticket, claim)
    && Saw(s0, es, UserOk, token.req, host, token.ticket, claim)
    && Saw(s0, es, RowListed(a), token.req, host, token.ticket, claim)
    && Saw(s0, es, RoleHeld(g.role), token.req, host, token.ticket, claim)
    && Saw(s0, es, RowGranted(g), token.req, host, token.ticket, claim)
    && Saw(s0, es, HostTargeted(a), token.req, host, token.ticket, claim)
    && (g.RegularRow? ==> g.permission == "app.*" || g.permission == "app." + claim.app)
    && (g.AppRow? ==> g.app == "*" || g.app == claim.app)
  }

  lemma TicketIsNotItsSource(s0: State, es: seq<Event>, r: nat, host: string, ticket: string, claim: Claim)
    requires Saw(s0, es, TicketOk, r, host, ticket, claim)
    ensures claim.sid != ticket
  {
    var before :| before + [ReadTicket(r)] <= es && MetAfter(s0, before, TicketOk, host, ticket, claim);
  }

  /**
   * Every issued token carries over a session other than the ticket. Its request read, each in its own query, an
   * unspent and unexpired ticket printed for its host, that session unrevoked, unexpired and owned by the ticket's
   * user, that user active and approved, an enabled assignment of the app, a role of the user, a row of that role that
   * opens the app, and a domain with which that assignment has the host.
   */
  lemma TokenProvenance(s0: State, es: seq<Event>, i: nat)
    requires Init(s0) && Run(s0, es).Some? && i < |Run(s0, es).value.tokens|
    ensures var s := Run(s0, es).value;
      var token := s.tokens[i];
      && token.req in s.requests && token.sid != token.ticket
      && exists claim, a, g :: Earned(s0, es, s.requests[token.req].host, token, claim, a, g)
  {
    Reachable(s0, es);
    TrailHolds(s0, es);
    LetThroughHolds(s0, es);
    var s := Run(s0, es).value;
    var token := s.tokens[i];
    assert token in s.tokens;
    var q := s.requests[token.req];
    var g :| g in q.phase.granted && Opens(g, q.phase.claim.app);
    assert Required(q.phase, TicketOk) && Required(q.phase, SourceOk) && Required(q.phase, UserOk);
    assert Required(q.phase, RowListed(q.phase.chosen)) && Required(q.phase, HostTargeted(q.phase.chosen));
    assert Required(q.phase, RowGranted(g)) && Required(q.phase, RoleHeld(g.role));
    OpensExact(g, q.phase.claim.app);
    assert Earned(s0, es, q.host, token, q.phase.claim, q.phase.chosen, g);
    TicketIsNotItsSource(s0, es, token.req, q.host, token.ticket, q.phase.claim);
  }

  // ------------------------------------------------- access as a whole, not query by query

  ghost predicate SameAccess(w: World, v: World) {
    w.rows == v.rows && w.domains == v.domains && w.grants == v.grants
  }

  predicate HostFrom(live: seq<Assignment>, row: nat, domains: map<int, Domain>, host: string) {
    exists i | row <= i < |live| :: HostOf(live[i], domains) == Some(host)
  }

  lemma HostFromNext(live: seq<Assignment>, row: nat, domains: map<int, Domain>, host: string)
    requires row < |live|
    ensures HostFrom(live, row, domains, host) <==>
            HostOf(live[row], domains) == Some(host) || HostFrom(live, row + 1, domains, host)
  {
  }

  lemma HostListed(live: seq<Assignment>, domains: map<int, Domain>, host: string)
    ensures HostFrom(live, 0, domains, host) <==> exists a | a in live :: HostOf(a, domains) == Some(host)
  {
    forall a | a in live && HostOf(a, domains) == Some(host) ensures HostFrom(live, 0, domains, host) {
      var i :| 0 <= i < |live| && live[i] == a;
    }
  }

  /**
   * Everything that a request read since its commit is what the database `w` says, and a scan can still end in the way
   * that `w` asks for. `cut` says that its connection ended.
   */
  ghost predicate Consistent(phase: Phase, w: World, claim: Claim, host: string, cut: bool) {
    match phase
    case Committed(c) => c == claim
    case Listed(c, live) => c == claim && live == LiveFor(w, claim.app)
    case RolesRead(c, live, roles) =>
      c == claim && live == LiveFor(w, claim.app) && roles == RolePermissions.RolesOf(w.grants, claim.owner)
    case RegularRead(c, live, roles, granted) =>
      && c == claim && live == LiveFor(w, claim.app) && roles == RolePermissions.RolesOf(w.grants, claim.owner)
      && granted == RegularRows(w.grants, roles)
    case Scanning(c, live, _, granted, row) =>
      && c == claim
      && (Authorized(w, claim, host) <==> Permits(granted, claim.app) && HostFrom(live, row, w.domains, host))
    case Cleared(c, _, _, _) => c == claim && Authorized(w, claim, host)
    case Done(c, _, _, _) => c == claim && Authorized(w, claim, host)
    case Failed(_) => cut || !Authorized(w, claim, host)
    case _ => false
  }

  lemma ScanStarts(w: World, claim: Claim, host: string, roles: set<int>, granted: set<Grant>)
    requires granted == RowsOf(w.grants, RolePermissions.RolesOf(w.grants, claim.owner))
    ensures Consistent(Scanning(claim, LiveFor(w, claim.app), roles, granted, 0), w, claim, host, false)
  {
    HostListed(LiveFor(w, claim.app), w.domains, host);
  }

  lemma ScanConsistent(v: World, w: World, claim: Claim, host: string, phase: Phase)
    requires phase.Scanning? && SameAccess(v, w) && Consistent(phase, w, claim, host, false)
    ensures Consistent(ReadOn(v, host, phase), w, claim, host, false)
  {
    if phase.row < |phase.live| {
      HostFromNext(phase.live, phase.row, w.domains, host);
    }
  }

  lemma ReadOnConsistent(v: World, w: World, claim: Claim, host: string, phase: Phase)
    requires phase.Authorizing() && SameAccess(v, w) && Consistent(phase, w, claim, host, false)
    ensures Consistent(ReadOn(v, host, phase), w, claim, host, false)
  {
    var granted := RowsOf(w.grants, RolePermissions.RolesOf(w.grants, claim.owner));
    match phase
    case Committed(_) => assert LiveFor(v, claim.app) == LiveFor(w, claim.app);
    case Listed(_, live) =>
      if RolePermissions.RolesOf(w.grants, claim.owner) == {} {
        assert granted == {};
        ScanStarts(w, claim, host, {}, granted);
      }
    case RegularRead(_, live, roles, _) => ScanStarts(w, claim, host, roles, granted);
    case Scanning(_, _, _, _, _) => ScanConsistent(v, w, claim, host, phase);
    case RolesRead(_, _, _) =>
  }

  ghost predicate Settled(s: State, r: nat, w: World, claim: Claim, host: string, cut: bool) {
    && r in s.requests && s.requests[r].host == host
    && s.requests[r].phase.PastCommit() && Consistent(s.requests[r].phase, w, claim, host, cut)
  }

  predicate ChangesAccess(e: Event) {
    e.SetRoutes? || e.SetGrants?
  }

  lemma AccessKept(s: State, e: Event)
    requires Next(s, e).Some? && !ChangesAccess(e)
    ensures SameAccess(Next(s, e).value.world, s.world)
  {
  }

  lemma PhaseAfter(s: State, e: Event, r: nat)
    requires r in s.requests && s.requests[r].phase.PastCommit() && RequestStep(s, r, e).Some?
    ensures var q, t := s.requests[r], RequestStep(s, r, e).value;
      && r in t.requests && t.requests[r].host == q.host && !q.phase.Done? && !q.phase.Failed?
      && var p := t.requests[r].phase;
         if e.Abandon? then p == Failed(true)
         else if q.phase.Cleared? then p == Done(q.phase.claim, q.phase.chosen, q.phase.roles, q.phase.granted)
         else q.phase.Authorizing() && p == ReadOn(s.world, q.host, q.phase)
  {
  }

  lemma SettledOwn(s: State, e: Event, r: nat, w: World, claim: Claim, host: string, cut: bool)
    requires r in s.requests && e.ByRequest(r) && RequestStep(s, r, e).Some? && SameAccess(s.world, w)
    requires Settled(s, r, w, claim, host, cut)
    ensures Settled(RequestStep(s, r, e).value, r, w, claim, host, cut || e == Abandon(r))
  {
    var phase := s.requests[r].phase;
    PhaseAfter(s, e, r);
    if phase.Authorizing() && !e.Abandon? {
      ReadOnConsistent(s.world, w, claim, host, phase);
      assert ReadOn(s.world, host, phase).PastCommit();
    }
  }

  lemma SettledStep(s: State, e: Event, r: nat, w: World, claim: Claim, host: string, cut: bool)
    requires Next(s, e).Some? && !ChangesAccess(e) && SameAccess(s.world, w) && Settled(s, r, w, claim, host, cut)
    requires s.world.sessions.Keys <= s.everIds
    ensures SameAccess(Next(s, e).value.world, w)
    ensures Settled(Next(s, e).value, r, w, claim, host, cut || e == Abandon(r))
  {
    AccessKept(s, e);
    if e.ByRequest(r) {
      SettledOwn(s, e, r, w, claim, host, cut);
    } else {
      SettledOthers(s, e, r);
    }
  }

  lemma SettledOthers(s: State, e: Event, r: nat)
    requires Next(s, e).Some? && !e.ByRequest(r) && r in s.requests && s.world.sessions.Keys <= s.everIds
    ensures r in Next(s, e).value.requests && Next(s, e).value.requests[r] == s.requests[r]
  {
    if q: nat :| e.ByRequest(q) {
      RequestStepShape(s, q, e);
    } else {
      OutsideStepShape(s, e);
    }
  }

  lemma {:induction false} StaysSettled(s0: State, es: seq<Event>, r: nat, more: seq<Event>)
    requires Init(s0) && Run(s0, es).Some? && Run(s0, es + more).Some?
    requires r in Run(s0, es).value.requests && Run(s0, es).value.requests[r].phase.Committed?
    requires forall e | e in more :: !ChangesAccess(e)
    ensures var w, q := Run(s0, es).value.world, Run(s0, es).value.requests[r];
      && SameAccess(Run(s0, es + more).value.world, w)
      && Settled(Run(s0, es + more).value, r, w, q.phase.claim, q.host, Abandon(r) in more)
  {
    if more == [] {
      assert es + more == es;
    } else {
      var n := |more| - 1;
      var init, last := more[..n], more[n];
      var w, q := Run(s0, es).value.world, Run(s0, es).value.requests[r];
      assert more == init + [last] && last in more;
      assert (es + more)[..|es + more| - 1] == es + init;
      StaysSettled(s0, es, r, init);
      IdsKnown(s0, es + init);
      SettledStep(Run(s0, es + init).value, last, r, w, q.phase.claim, q.host, Abandon(r) in init);
    }
  }

  /**
   * Access is checked as a whole as long as nothing touches it: when no assignment, domain or permission changes after a
   * request's commit, it is let through only if permission and host were granted together at that commit, and, unless
   * its connection ends, refused only if they were not.
   */
  lemma UndisturbedAccess(s0: State, es: seq<Event>, r: nat, more: seq<Event>)
    requires Init(s0) && Run(s0, es).Some? && Run(s0, es + more).Some?
    requires r in Run(s0, es).value.requests && Run(s0, es).value.requests[r].phase.Committed?
    requires forall e | e in more :: !ChangesAccess(e)
    ensures r in Run(s0, es + more).value.requests
    ensures var w, q := Run(s0, es).value.world, Run(s0, es).value.requests[r];
      var phase := Run(s0, es + more).value.requests[r].phase;
      && (phase.Cleared? || phase.Done? ==> phase.claim == q.phase.claim && Authorized(w, q.phase.claim, q.host))
      && (phase.Failed? && Abandon(r) !in more ==> !Authorized(w, q.phase.claim, q.host))
  {
    StaysSettled(s0, es, r, more);
  }

  lemma RunNext(s: State, es: seq<Event>, t: State, e: Event)
    requires Run(s, es) == Some(t)
    ensures Run(s, es + [e]) == Next(t, e)
  {
    assert (es + [e])[..|es + [e]| - 1] == es;
  }

  /** No state along the run grants permission and host together. */
  ghost predicate NeverAllowed(s: State, es: seq<Event>, claim: Claim, host: string) {
    forall before | before <= es && Run(s, before).Some? :: !Authorized(Run(s, before).value.world, claim, host)
  }

  lemma NeverAllowedNext(s: State, es: seq<Event>, t: State, e: Event, u: State, claim: Claim, host: string)
    requires Run(s, es) == Some(t) && NeverAllowed(s, es, claim, host)
    requires Next(t, e) == Some(u) && !Authorized(u.world, claim, host)
    ensures Run(s, es + [e]) == Some(u) && NeverAllowed(s, es + [e], claim, host)
  {
    RunNext(s, es, t, e);
    forall before | before <= es + [e] && Run(s, before).Some?
      ensures !Authorized(Run(s, before).value.world, claim, host)
    {
      if |before| == |es| + 1 {
        assert before == es + [e];
      } else {
        assert before <= es;
      }
    }
  }

  lemma OneLive(w: World, a: Assignment)
    requires w.rows == [a] && a.enabled
    ensures LiveFor(w, a.app) == [a]
  {
    assert w.rows[0] == a && w.rows[1..] == [];
    assert LiveRows(w.rows[1..], a.app) == [];
    assert LiveRows(w.rows, a.app) == [a];
  }

  lemma NoneLive(w: World, claim: Claim, host: string)
    requires w.rows == []
    ensures !Authorized(w, claim, host)
  {
    assert LiveFor(w, claim.app) == [];
  }

  /** A run that ends with these tokens, although no state along it grants permission and host together. */
  ghost predicate IssuesUnseen(s: State, more: seq<Event>, claim: Claim, host: string, tokens: seq<Token>) {
    Run(s, more).Some? && NeverAllowed(s, more, claim, host) && Run(s, more).value.tokens == tokens
  }

  /** The scan of the one assignment read, and the token. */
  lemma IssuedUnseen(s: State, es: seq<Event>, t: State, r: nat, a: Assignment, roles: set<int>, granted: set<Grant>)
    requires Run(s, es) == Some(t) && r in t.requests && t.requests[r].phase.Scanning? && t.world.rows == []
    requires var p := t.requests[r].phase;
      && p == Scanning(p.claim, [a], roles, granted, 0) && Permits(granted, p.claim.app)
      && HostOf(a, t.world.domains) == Some(t.requests[r].host)
      && NeverAllowed(s, es, p.claim, t.requests[r].host)
    ensures var q := t.requests[r];
      exists more :: IssuesUnseen(s, more, q.phase.claim, q.host, t.tokens + [Token(r, q.ticket, q.phase.claim.sid)])
  {
    var q := t.requests[r];
    var claim := q.phase.claim;
    var u := To(t, r, Cleared(claim, a, roles, granted));
    NoneLive(t.world, claim, q.host);
    NeverAllowedNext(s, es, t, TryAssignment(r), u, claim, q.host);
    TokenUnseen(s, es + [TryAssignment(r)], u, r);
  }

  lemma TokenUnseen(s: State, es: seq<Event>, t: State, r: nat)
    requires Run(s, es) == Some(t) && r in t.requests && t.requests[r].phase.Cleared? && t.world.rows == []
    requires NeverAllowed(s, es, t.requests[r].phase.claim, t.requests[r].host)
    ensures var q := t.requests[r];
      exists more :: IssuesUnseen(s, more, q.phase.claim, q.host, t.tokens + [Token(r, q.ticket, q.phase.claim.sid)])
  {
    var q := t.requests[r];
    var p := q.phase;
    var u := To(t, r, Done(p.claim, p.chosen, p.roles, p.granted)).(tokens := t.tokens + [Token(r, q.ticket, p.claim.sid)]);
    NoneLive(t.world, p.claim, q.host);
    NeverAllowedNext(s, es, t, Issue(r), u, p.claim, q.host);
    assert IssuesUnseen(s, es + [Issue(r)], p.claim, q.host, u.tokens);
  }

  lemma NoRoleDenied(w: World, claim: Claim, host: string)
    requires RolePermissions.RolesOf(w.grants, claim.owner) == {}
    ensures !Authorized(w, claim, host)
  {
    assert RowsOf(w.grants, {}) == {};
  }

  lemma WildcardOpens(grants: RolePermissions.Store, app: string)
    requires 1 in grants.regular && "app.*" in grants.regular[1]
    ensures Permits(RegularRows(grants, {1}) + AppRows(grants, {1}), app)
  {
    assert RegularRow(1, "app.*") in RegularRows(grants, {1}) && Opens(RegularRow(1, "app.*"), app);
  }

  /** The permission queries of a request whose assignment is gone by then. */
  lemma PermittedUnseen(s: State, es: seq<Event>, t: State, r: nat, a: Assignment)
    requires Run(s, es) == Some(t) && r in t.requests && t.requests[r].phase.Listed? && t.world.rows == []
    requires var p := t.requests[r].phase;
      && p == Listed(p.claim, [a]) && HostOf(a, t.world.domains) == Some(t.requests[r].host)
      && NeverAllowed(s, es, p.claim, t.requests[r].host)
      && RolePermissions.RolesOf(t.world.grants, p.claim.owner) == {1}
      && 1 in t.world.grants.regular && "app.*" in t.world.grants.regular[1]
    ensures var q := t.requests[r];
      exists more :: IssuesUnseen(s, more, q.phase.claim, q.host, t.tokens + [Token(r, q.ticket, q.phase.claim.sid)])
  {
    var q := t.requests[r];
    var claim, grants := q.phase.claim, t.world.grants;
    var granted := RegularRows(grants, {1});
    var u := To(t, r, RolesRead(claim, [a], {1}));
    var v := To(u, r, RegularRead(claim, [a], {1}, granted));
    NoneLive(t.world, claim, q.host);
    NeverAllowedNext(s, es, t, ReadRoles(r), u, claim, q.host);
    NeverAllowedNext(s, es + [ReadRoles(r)], u, ReadRegular(r), v, claim, q.host);
    AppsUnseen(s, es + [ReadRoles(r)] + [ReadRegular(r)], v, r, a);
  }

  lemma AppsUnseen(s: State, es: seq<Event>, t: State, r: nat, a: Assignment)
    requires Run(s, es) == Some(t) && r in t.requests && t.requests[r].phase.RegularRead? && t.world.rows == []
    requires var p := t.requests[r].phase;
      && p == RegularRead(p.claim, [a], {1}, RegularRows(t.world.grants, {1}))
      && HostOf(a, t.world.domains) == Some(t.requests[r].host) && NeverAllowed(s, es, p.claim, t.requests[r].host)
      && 1 in t.world.grants.regular && "app.*" in t.world.grants.regular[1]
    ensures var q := t.requests[r];
      exists more :: IssuesUnseen(s, more, q.phase.claim, q.host, t.tokens + [Token(r, q.ticket, q.phase.claim.sid)])
  {
    var q := t.requests[r];
    var claim := q.phase.claim;
    var whole := q.phase.granted + AppRows(t.world.grants, {1});
    var u := To(t, r, Scanning(claim, [a], {1}, whole, 0));
    WildcardOpens(t.world.grants, claim.app);
    NoneLive(t.world, claim, q.host);
    NeverAllowedNext(s, es, t, ReadApps(r), u, claim, q.host);
    IssuedUnseen(s, es + [ReadApps(r)], u, r, a, {1}, whole);
  }

  lemma SwappedUnseen(s: State, es: seq<Event>, t: State, r: nat, a: Assignment, grants: RolePermissions.Store)
    requires Run(s, es) == Some(t) && r in t.requests && t.requests[r].phase.Listed?
    requires var p := t.requests[r].phase;
      && p == Listed(p.claim, [a]) && HostOf(a, t.world.domains) == Some(t.requests[r].host)
      && NeverAllowed(s, es, p.claim, t.requests[r].host)
      && RolePermissions.RolesOf(grants, p.claim.owner) == {1}
      && 1 in grants.regular && "app.*" in grants.regular[1]
    ensures var q := t.requests[r];
      exists more :: IssuesUnseen(s, more, q.phase.claim, q.host, t.tokens + [Token(r, q.ticket, q.phase.claim.sid)])
  {
    var q := t.requests[r];
    var removed := SetRoutes([], t.world.domains);
    var u := t.(world := t.world.(rows := []));
    var v := u.(world := u.world.(grants := grants));
    NoneLive(u.world, q.phase.claim, q.host);
    NoneLive(v.world, q.phase.claim, q.host);
    NeverAllowedNext(s, es, t, removed, u, q.phase.claim, q.host);
    NeverAllowedNext(s, es + [removed], u, SetGrants(grants), v, q.phase.claim, q.host);
    PermittedUnseen(s, es + [removed] + [SetGrants(grants)], v, r, a);
  }

  /** The database serves the app's one assignment at the host, the user has no role, and `grants` would give the wildcard. */
  ghost predicate Swappable(w: World, claim: Claim, host: string, a: Assignment, grants: RolePermissions.Store) {
    && w.rows == [a] && a.enabled && a.app == claim.app && HostOf(a, w.domains) == Some(host)
    && RolePermissions.RolesOf(w.grants, claim.owner) == {}
    && RolePermissions.RolesOf(grants, claim.owner) == {1} && 1 in grants.regular && "app.*" in grants.regular[1]
  }

  lemma CommittedUnseen(s: State, es: seq<Event>, t: State, r: nat, a: Assignment, grants: RolePermissions.Store)
    requires Run(s, es) == Some(t) && r in t.requests && t.requests[r].phase.Committed?
    requires Swappable(t.world, t.requests[r].phase.claim, t.requests[r].host, a, grants)
    requires NeverAllowed(s, es, t.requests[r].phase.claim, t.requests[r].host)
    ensures var q := t.requests[r];
      exists more :: IssuesUnseen(s, more, q.phase.claim, q.host, t.tokens + [Token(r, q.ticket, q.phase.claim.sid)])
  {
    var q := t.requests[r];
    var claim, host := q.phase.claim, q.host;
    OneLive(t.world, a);
    NoRoleDenied(t.world, claim, host);
    var u := To(t, r, Listed(claim, [a]));
    NeverAllowedNext(s, es, t, ReadAssignments(r), u, claim, host);
    SwappedUnseen(s, es + [ReadAssignments(r)], u, r, a, grants);
  }

  lemma UserReadUnseen(s: State, es: seq<Event>, t: State, r: nat, a: Assignment, grants: RolePermissions.Store)
    requires Run(s, es) == Some(t) && r in t.requests && t.requests[r].phase.UserRead?
    requires Swappable(t.world, t.requests[r].phase.claim, t.requests[r].host, a, grants)
    requires NeverAllowed(s, es, t.requests[r].phase.claim, t.requests[r].host)
    requires t.requests[r].ticket in t.world.sessions
    ensures var q := t.requests[r];
      exists more :: IssuesUnseen(s, more, q.phase.claim, q.host, t.tokens + [Token(r, q.ticket, q.phase.claim.sid)])
  {
    var q := t.requests[r];
    var claim := q.phase.claim;
    var u := To(t, r, Committed(claim)).(world := Spend(t.world, q.ticket), commits := t.commits + [r]);
    NoRoleDenied(u.world, claim, q.host);
    NeverAllowedNext(s, es, t, Commit(r), u, claim, q.host);
    CommittedUnseen(s, es + [Commit(r)], u, r, a, grants);
  }

  lemma TakenUnseen(s: State, es: seq<Event>, t: State, r: nat, a: Assignment, grants: RolePermissions.Store)
    requires Run(s, es) == Some(t) && r in t.requests && t.requests[r].phase.Taken?
    requires Swappable(t.world, t.requests[r].phase.claim, t.requests[r].host, a, grants)
    requires NeverAllowed(s, es, t.requests[r].phase.claim, t.requests[r].host)
    requires t.requests[r].ticket in t.world.sessions
    requires SourceLive(t.world, t.requests[r].phase.claim, t.now) && UserLive(t.world, t.requests[r].phase.claim)
    ensures var q := t.requests[r];
      exists more :: IssuesUnseen(s, more, q.phase.claim, q.host, t.tokens + [Token(r, q.ticket, q.phase.claim.sid)])
  {
    var q := t.requests[r];
    var claim := q.phase.claim;
    var u := To(t, r, SourceRead(claim));
    var v := To(u, r, UserRead(claim));
    NoRoleDenied(t.world, claim, q.host);
    NeverAllowedNext(s, es, t, ReadSource(r), u, claim, q.host);
    NeverAllowedNext(s, es + [ReadSource(r)], u, CheckUser(r), v, claim, q.host);
    UserReadUnseen(s, es + [ReadSource(r)] + [CheckUser(r)], v, r, a, grants);
  }

  lemma CheckedUnseen(s: State, es: seq<Event>, t: State, r: nat, a: Assignment, grants: RolePermissions.Store)
    requires Run(s, es) == Some(t) && r in t.requests && t.requests[r].phase.Checked?
    requires Swappable(t.world, t.requests[r].phase.claim, t.requests[r].host, a, grants)
    requires NeverAllowed(s, es, t.requests[r].phase.claim, t.requests[r].host) && !Held(t, t.requests[r].ticket)
    requires t.requests[r].ticket in t.world.sessions && !t.world.sessions[t.requests[r].ticket].revoked
    requires SourceLive(t.world, t.requests[r].phase.claim, t.now) && UserLive(t.world, t.requests[r].phase.claim)
    ensures var q := t.requests[r];
      exists more :: IssuesUnseen(s, more, q.phase.claim, q.host, t.tokens + [Token(r, q.ticket, q.phase.claim.sid)])
  {
    var q := t.requests[r];
    var claim := q.phase.claim;
    var u := To(t, r, Taken(claim));
    NoRoleDenied(t.world, claim, q.host);
    NeverAllowedNext(s, es, t, TakeTicket(r), u, claim, q.host);
    TakenUnseen(s, es + [TakeTicket(r)], u, r, a, grants);
  }

  lemma OpenedUnseen(
    s: State, es: seq<Event>, t: State, r: nat, claim: Claim, a: Assignment, grants: RolePermissions.Store)
    requires Run(s, es) == Some(t) && r in t.requests && t.requests[r].phase.Opened?
    requires Swappable(t.world, claim, t.requests[r].host, a, grants)
    requires NeverAllowed(s, es, claim, t.requests[r].host) && !Held(t, t.requests[r].ticket)
    requires SourceLive(t.world, claim, t.now) && UserLive(t.world, claim)
    requires var q := t.requests[r];
      CheckTicket(Lookup(t.world.sessions, q.ticket), q.ticket, q.host, t.now) == Some(claim)
    ensures var q := t.requests[r];
      exists more :: IssuesUnseen(s, more, claim, q.host, t.tokens + [Token(r, q.ticket, claim.sid)])
  {
    var q := t.requests[r];
    var u := To(t, r, Checked(claim));
    NoRoleDenied(t.world, claim, q.host);
    CompleteOfClaim(t.world, q.host, q.ticket, t.now, claim);
    NeverAllowedNext(s, es, t, ReadTicket(r), u, claim, q.host);
    NobodyHolds(t, r, u);
    CheckedUnseen(s, es + [ReadTicket(r)], u, r, a, grants);
  }

  lemma ArrivalNext(s: State, r: nat, host: string, ticket: string)
    requires r !in s.requests
    ensures Next(s, Arrive(r, host, ticket)) == Some(s.(requests := s.requests[r := Request(host, ticket, Opened)]))
  {
  }

  lemma StartNeverAllowed(s: State, claim: Claim, host: string)
    requires !Authorized(s.world, claim, host)
    ensures Run(s, []) == Some(s) && NeverAllowed(s, [], claim, host)
  {
    var none: seq<Event> := [];
    forall before | before <= none && Run(s, before).Some?
      ensures !Authorized(Run(s, before).value.world, claim, host)
    {
      assert before == none;
    }
  }

  /**
   * The condition is needed. From a database whose user has no role, a completion gets past its commit and reads its
   * assignment; the assignment is then removed, a role with the wildcard given, and the request is let through, although
   * no state of the run grants permission and host together.
   */
  lemma AccessNeverTogether(
    s0: State, r: nat, host: string, ticket: string, claim: Claim, a: Assignment, grants: RolePermissions.Store)
    requires Init(s0) && Swappable(s0.world, claim, host, a, grants)
    requires CheckTicket(Lookup(s0.world.sessions, ticket), ticket, host, s0.now) == Some(claim)
    requires SourceLive(s0.world, claim, s0.now) && UserLive(s0.world, claim)
    ensures exists more :: IssuesUnseen(s0, more, claim, host, [Token(r, ticket, claim.sid)])
  {
    var t := s0.(requests := s0.requests[r := Request(host, ticket, Opened)]);
    NoRoleDenied(s0.world, claim, host);
    StartNeverAllowed(s0, claim, host);
    ArrivalNext(s0, r, host, ticket);
    NeverAllowedNext(s0, [], s0, Arrive(r, host, ticket), t, claim, host);
    OpenedUnseen(s0, [] + [Arrive(r, host, ticket)], t, r, claim, a, grants);
    assert t.tokens + [Token(r, ticket, claim.sid)] == [Token(r, ticket, claim.sid)];
  }

  // ------------------------------------------------------------------ failures

  lemma {:induction false} RunPrefix(s0: State, es: seq<Event>, k: nat)
    requires k <= |es| && Run(s0, es).Some?
    ensures Run(s0, es[..k]).Some?
    ensures k < |es| ==> Run(s0, es[..k + 1]) == Next(Run(s0, es[..k]).value, es[k])
  {
    if k < |es| {
      var n := |es| - 1;
      if k < n {
        RunPrefix(s0, es[..n], k);
        assert es[..n][..k] == es[..k] && es[..n][..k + 1] == es[..k + 1];
      } else {
        assert es[..n + 1] == es;
      }
    } else {
      assert es[..k] == es;
    }
  }

  /** A request is in the commit history exactly when its commit step happened. */
  lemma {:induction false} CommittedExactly(s0: State, es: seq<Event>, r: nat)
    requires Init(s0) && Run(s0, es).Some?
    ensures r in Run(s0, es).value.commits <==> Commit(r) in es
  {
    if es != [] {
      var n := |es| - 1;
      var s := Run(s0, es[..n]).value;
      CommittedExactly(s0, es[..n], r);
      Reachable(s0, es[..n]);
      assert es == es[..n] + [es[n]];
      CommitStep(s, es[n], r);
    }
  }

  lemma CommitStep(s: State, e: Event, r: nat)
    requires Next(s, e).Some?
    ensures Next(s, e).value.commits == if e.Commit? then s.commits + [e.req] else s.commits
  {
  }

  /** A completion that failed before its commit has not changed the database in any of its steps. */
  lemma FailureChangesNothing(s0: State, es: seq<Event>, r: nat, k: nat)
    requires Init(s0) && Run(s0, es).Some?
    requires r in Run(s0, es).value.requests && Run(s0, es).value.requests[r].phase == Failed(false)
    requires k < |es| && es[k].ByRequest(r)
    ensures Run(s0, es[..k]).Some? && Run(s0, es[..k + 1]).Some?
    ensures Run(s0, es[..k + 1]).value.world == Run(s0, es[..k]).value.world
  {
    Reachable(s0, es);
    CommittedExactly(s0, es, r);
    RunPrefix(s0, es, k);
    RunPrefix(s0, es, k + 1);
    assert es[k] != Commit(r);
    OnlyCommitWrites(Run(s0, es[..k]).value, es[k], r);
  }

  lemma OnlyCommitWrites(s: State, e: Event, r: nat)
    requires Next(s, e).Some? && e.ByRequest(r) && e != Commit(r)
    ensures Next(s, e).value.world == s.world
  {
  }

  /** A completion that failed after its commit leaves the ticket spent and no token for it, now and ever after. */
  lemma FailureAfterCommit(s0: State, es: seq<Event>, r: nat, more: seq<Event>)
    requires Init(s0) && Run(s0, es).Some? && Run(s0, es + more).Some?
    requires r in Run(s0, es).value.requests && Run(s0, es).value.requests[r].phase == Failed(true)
    ensures var s, ticket := Run(s0, es + more).value, Run(s0, es).value.requests[r].ticket;
      && r in s.requests && s.requests[r] == Run(s0, es).value.requests[r]
      && Spent(s, ticket) && forall t | t in s.tokens :: t.ticket != ticket
  {
    FailedForGood(s0, es, r, more);
    AtMostOnce(s0, es + more);
    Reachable(s0, es + more);
    var s := Run(s0, es + more).value;
    assert r in s.commits;
    forall t | t in s.tokens ensures t.ticket != s.requests[r].ticket {
      assert t.req != r;
      var a :| 0 <= a < |s.commits| && s.commits[a] == t.req;
      var b :| 0 <= b < |s.commits| && s.commits[b] == r;
    }
  }

  lemma {:induction false} FailedForGood(s0: State, es: seq<Event>, r: nat, more: seq<Event>)
    requires Init(s0) && Run(s0, es).Some? && Run(s0, es + more).Some?
    requires r in Run(s0, es).value.requests && Run(s0, es).value.requests[r].phase.Failed?
    ensures r in Run(s0, es + more).value.requests
    ensures Run(s0, es + more).value.requests[r] == Run(s0, es).value.requests[r]
  {
    if more == [] {
      assert es + more == es;
    } else {
      var n := |more| - 1;
      assert (es + more)[..|es + more| - 1] == es + more[..n];
      FailedForGood(s0, es, r, more[..n]);
      FailedStep(Run(s0, es + more[..n]).value, more[n], r);
    }
  }

  lemma FailedStep(s: State, e: Event, r: nat)
    requires Next(s, e).Some? && r in s.requests && s.requests[r].phase.Failed?
    ensures r in Next(s, e).value.requests && Next(s, e).value.requests[r] == s.requests[r]
  {
  }

  /** Another completion has updated the ticket's row and has not ended. */
  ghost predicate TicketWaits(s: State, ticket: string) {
    exists q | q in s.requests ::
      && (s.requests[q].phase.Taken? || s.requests[q].phase.SourceRead? || s.requests[q].phase.UserRead?)
      && s.requests[q].ticket == ticket
  }

  /** A completion waits exactly at its conditional update, for a transaction that holds the row; all else goes on at once. */
  lemma WaitsExactly(s: State, r: nat)
    requires Locking(s) && r in s.requests
    ensures Advance(s, r).None? <==>
            match s.requests[r].phase
            case Checked(_) => TicketWaits(s, s.requests[r].ticket)
            case Done(_, _, _, _) => true
            case Failed(_) => true
            case _ => false
  {
    var q := s.requests[r];
    assert Held(s, q.ticket) <==> TicketWaits(s, q.ticket);
  }

  // ------------------------------------------------------- the rest of the system

  /** What has to be so for the rest of the system to do something. */
  ghost predicate Possible(s: State, e: Event) {
    match e
    case Arrive(r, _, _) => r !in s.requests
    case NewSession(id, row) => id !in s.everIds && !row.revoked
    case DeleteSession(id) => !TicketWaits(s, id)
    case DeleteUser(user) => forall id | id in s.world.sessions && s.world.sessions[id].userId == user :: !TicketWaits(s, id)
    case Tick(to) => s.now <= to
    case _ => true
  }

  /** Each table after that, row by row; a deleted user takes the sessions along. */
  ghost predicate Becomes(s: State, e: Event, t: State) {
    && (forall id ::
          && (id in t.world.sessions <==>
                || (id in s.world.sessions && e != DeleteSession(id) && e != DeleteUser(s.world.sessions[id].userId))
                || (e.NewSession? && id == e.id))
          && (id in t.world.sessions ==>
                t.world.sessions[id] == if e.NewSession? && id == e.id then e.row else s.world.sessions[id]))
    && (forall u ::
          && (u in t.world.users <==> (u in s.world.users && e != DeleteUser(u)) || (e.SetUser? && u == e.user))
          && (u in t.world.users ==>
                t.world.users[u] == if e.SetUser? && u == e.user then e.account else s.world.users[u]))
    && (t.world.rows, t.world.domains) == (if e.SetRoutes? then (e.rows, e.domains) else (s.world.rows, s.world.domains))
    && t.world.grants == (if e.SetGrants? then e.grants else s.world.grants)
    && t.now == (if e.Tick? then e.to else s.now) && t.commits == s.commits && t.tokens == s.tokens
    && (forall r ::
          && (r in t.requests <==> r in s.requests || (e.Arrive? && r == e.req))
          && (r in t.requests ==>
                t.requests[r] == if e.Arrive? && r == e.req then Request(e.host, e.ticket, Opened) else s.requests[r]))
  }

  lemma OutsidePossible(s: State, e: Event)
    requires !e.Own()
    ensures Next(s, e).Some? <==> Possible(s, e)
  {
    assert forall id :: Held(s, id) <==> TicketWaits(s, id);
  }

  /** What the rest of the system can do between two statements of a completion, when, and to what effect. */
  lemma OutsideExactly(s: State, e: Event)
    requires !e.Own() && s.world.sessions.Keys <= s.everIds
    ensures Next(s, e).Some? <==> Possible(s, e)
    ensures Next(s, e).Some? ==> Becomes(s, e, Next(s, e).value)
  {
    OutsidePossible(s, e);
  }

  // ------------------------------------------------------- agreement with the handler

  function Stage(phase: Phase): nat {
    match phase
    case Opened => 11
    case Checked(_) => 10
    case Taken(_) => 9
    case SourceRead(_) => 8
    case UserRead(_) => 7
    case Committed(_) => 6
    case Listed(_, _) => 5
    case RolesRead(_, _, _) => 4
    case RegularRead(_, _, _, _) => 3
    case Scanning(_, _, _, _, _) => 2
    case Cleared(_, _, _, _) => 1
    case Done(_, _, _, _) => 0
    case Failed(_) => 0
  }

  /** Assignments that a scan has not tried yet. */
  function Untried(phase: Phase): nat {
    if phase.Scanning? && phase.row < |phase.live| then |phase.live| - phase.row else 0
  }

  predicate Nearer(p: Phase, q: Phase) {
    Stage(p) < Stage(q) || (Stage(p) == Stage(q) && Untried(p) < Untried(q))
  }

  /** Request `r` runs on without interruption for as long as it can. */
  function Alone(s: State, r: nat): (t: State)
    requires r in s.requests
    ensures r in t.requests
    decreases Stage(s.requests[r].phase), Untried(s.requests[r].phase)
  {
    match Advance(s, r)
    case None => s
    case Some(t) => if r in t.requests && Nearer(t.requests[r].phase, s.requests[r].phase) then Alone(t, r) else s
  }

  lemma OneStep(s: State, r: nat, t: State)
    requires r in s.requests && Advance(s, r) == Some(t)
    requires r in t.requests && Nearer(t.requests[r].phase, s.requests[r].phase)
    ensures Alone(s, r) == Alone(t, r)
  {
  }

  /** How an uninterrupted request ends: the world it leaves, its phase and its tokens, as the handler says. */
  ghost predicate Ends(s: State, r: nat, w: World, outcome: Outcome) {
    && r in s.requests
    && var t := Alone(s, r);
    && t.world == w
    && match outcome
       case Refused(spent) => t.requests[r].phase == Failed(spent) && t.tokens == s.tokens
       case Issued(sid) => t.requests[r].phase.Done? && t.tokens == s.tokens + [Token(r, s.requests[r].ticket, sid)]
  }

  lemma ClearedEnds(s: State, r: nat)
    requires r in s.requests && s.requests[r].phase.Cleared?
    ensures Ends(s, r, s.world, Issued(s.requests[r].phase.claim.sid))
  {
    var p := s.requests[r].phase;
    var t := To(s, r, Done(p.claim, p.chosen, p.roles, p.granted)).(
      tokens := s.tokens + [Token(r, s.requests[r].ticket, p.claim.sid)]);
    OneStep(s, r, t);
    assert Alone(t, r) == t;
  }

  lemma FailedEnds(s: State, r: nat, spent: bool)
    requires r in s.requests && s.requests[r].phase == Failed(spent)
    ensures Ends(s, r, s.world, Refused(spent))
  {
  }

  lemma SameEnd(s: State, r: nat, t: State, w: World, outcome: Outcome)
    requires r in s.requests && r in t.requests && Alone(s, r) == Alone(t, r)
    requires t.tokens == s.tokens && t.requests[r].ticket == s.requests[r].ticket
    requires Ends(t, r, w, outcome)
    ensures Ends(s, r, w, outcome)
  {
  }

  function ScanOutcome(w: World, host: string, phase: Phase): Outcome
    requires phase.Scanning?
  {
    if Permits(phase.granted, phase.claim.app) && HostFrom(phase.live, phase.row, w.domains, host) then
      Issued(phase.claim.sid)
    else Refused(true)
  }

  /** Undisturbed, a scan ends as its remaining rows and the rows granted say. */
  lemma {:induction false} ScanEnds(s: State, r: nat)
    requires r in s.requests && s.requests[r].phase.Scanning? && s.requests[r].phase.row <= |s.requests[r].phase.live|
    ensures Ends(s, r, s.world, ScanOutcome(s.world, s.requests[r].host, s.requests[r].phase))
    decreases Untried(s.requests[r].phase)
  {
    var q, p := s.requests[r], s.requests[r].phase;
    var t := To(s, r, ReadOn(s.world, q.host, p));
    OneStep(s, r, t);
    if p.row == |p.live| {
      FailedEnds(t, r, true);
    } else {
      HostFromNext(p.live, p.row, s.world.domains, q.host);
      if t.requests[r].phase.Cleared? {
        ClearedEnds(t, r);
      } else {
        ScanEnds(t, r);
      }
    }
    SameEnd(s, r, t, s.world, ScanOutcome(s.world, q.host, p));
  }

  function AccessOutcome(w: World, claim: Claim, host: string): Outcome {
    if Authorized(w, claim, host) then Issued(claim.sid) else Refused(true)
  }

  lemma ScanIsAuthorized(s: State, r: nat)
    requires r in s.requests
    requires var p := s.requests[r].phase;
      && p.Scanning? && p.row == 0 && p.live == LiveFor(s.world, p.claim.app)
      && p.granted == RowsOf(s.world.grants, RolePermissions.RolesOf(s.world.grants, p.claim.owner))
    ensures Ends(s, r, s.world, AccessOutcome(s.world, s.requests[r].phase.claim, s.requests[r].host))
  {
    var q, p := s.requests[r], s.requests[r].phase;
    ScanEnds(s, r);
    HostListed(p.live, s.world.domains, q.host);
  }

  lemma RolesReadEnds(s: State, r: nat)
    requires r in s.requests
    requires var p := s.requests[r].phase;
      && p.RolesRead? && p.live == LiveFor(s.world, p.claim.app)
      && p.roles == RolePermissions.RolesOf(s.world.grants, p.claim.owner)
    ensures Ends(s, r, s.world, AccessOutcome(s.world, s.requests[r].phase.claim, s.requests[r].host))
  {
    var q, p := s.requests[r], s.requests[r].phase;
    var t := To(s, r, ReadOn(s.world, q.host, p));
    var u := To(t, r, ReadOn(s.world, q.host, t.requests[r].phase));
    OneStep(s, r, t);
    OneStep(t, r, u);
    ScanIsAuthorized(u, r);
    SameEnd(s, r, u, s.world, AccessOutcome(s.world, p.claim, q.host));
  }

  lemma ListedEnds(s: State, r: nat)
    requires r in s.requests && s.requests[r].phase.Listed?
    requires s.requests[r].phase.live == LiveFor(s.world, s.requests[r].phase.claim.app)
    ensures Ends(s, r, s.world, AccessOutcome(s.world, s.requests[r].phase.claim, s.requests[r].host))
  {
    var q, p := s.requests[r], s.requests[r].phase;
    var t := To(s, r, ReadOn(s.world, q.host, p));
    OneStep(s, r, t);
    if RolePermissions.RolesOf(s.world.grants, p.claim.owner) == {} {
      assert RowsOf(s.world.grants, {}) == {};
      ScanIsAuthorized(t, r);
    } else {
      RolesReadEnds(t, r);
    }
    SameEnd(s, r, t, s.world, AccessOutcome(s.world, p.claim, q.host));
  }

  lemma AloneAfterCommit(s: State, r: nat)
    requires r in s.requests && s.requests[r].phase.Committed?
    ensures Ends(s, r, s.world, AccessOutcome(s.world, s.requests[r].phase.claim, s.requests[r].host))
  {
    var q, p := s.requests[r], s.requests[r].phase;
    var t := To(s, r, ReadOn(s.world, q.host, p));
    OneStep(s, r, t);
    ListedEnds(t, r);
    SameEnd(s, r, t, s.world, AccessOutcome(s.world, p.claim, q.host));
  }

  lemma AloneCommits(s: State, r: nat)
    requires r in s.requests && s.requests[r].phase.UserRead? && s.requests[r].ticket in s.world.sessions
    ensures var q := s.requests[r];
      var w := Spend(s.world, q.ticket);
      Ends(s, r, w, AccessOutcome(w, q.phase.claim, q.host))
  {
    var q := s.requests[r];
    var t := To(s, r, Committed(q.phase.claim)).(world := Spend(s.world, q.ticket), commits := s.commits + [r]);
    assert Alone(s, r) == Alone(t, r);
    AloneAfterCommit(t, r);
  }

  lemma AloneReads(s: State, r: nat)
    requires r in s.requests && s.requests[r].phase.Taken? && s.requests[r].ticket in s.world.sessions
    ensures var q := s.requests[r];
      var claim, w := q.phase.claim, Spend(s.world, q.ticket);
      if SourceLive(s.world, claim, s.now) && UserLive(s.world, claim)
      then Ends(s, r, w, AccessOutcome(w, claim, q.host))
      else Ends(s, r, s.world, Refused(false))
  {
    var claim := s.requests[r].phase.claim;
    if SourceLive(s.world, claim, s.now) {
      var t := To(s, r, SourceRead(claim));
      assert Alone(s, r) == Alone(t, r);
      if UserLive(s.world, claim) {
        var u := To(t, r, UserRead(claim));
        assert Alone(t, r) == Alone(u, r);
        AloneCommits(u, r);
      } else {
        assert Alone(t, r) == To(t, r, Failed(false));
      }
    }
  }

  /** The completion of a claim that its ticket passed for. */
  lemma AloneTakes(s: State, r: nat, claim: Claim)
    requires r in s.requests && s.requests[r].phase == Checked(claim) && !Held(s, s.requests[r].ticket)
    requires s.requests[r].ticket in s.world.sessions && !s.world.sessions[s.requests[r].ticket].revoked
    ensures var q := s.requests[r];
      var w := Spend(s.world, q.ticket);
      if SourceLive(s.world, claim, s.now) && UserLive(s.world, claim)
      then Ends(s, r, w, AccessOutcome(w, claim, q.host))
      else Ends(s, r, s.world, Refused(false))
  {
    var q := s.requests[r];
    var t := To(s, r, Taken(claim));
    OneStep(s, r, t);
    AloneReads(t, r);
    var w := Spend(s.world, q.ticket);
    if SourceLive(s.world, claim, s.now) && UserLive(s.world, claim) {
      SameEnd(s, r, t, w, AccessOutcome(w, claim, q.host));
    } else {
      SameEnd(s, r, t, s.world, Refused(false));
    }
  }

  lemma CompleteOfClaim(w: World, host: string, ticket: string, now: int, claim: Claim)
    requires CheckTicket(Lookup(w.sessions, ticket), ticket, host, now) == Some(claim)
    ensures ticket in w.sessions && !w.sessions[ticket].revoked
    ensures var spent := Spend(w, ticket);
      Complete(w, host, ticket, now) ==
        if SourceLive(w, claim, now) && UserLive(w, claim) then (spent, AccessOutcome(spent, claim, host))
        else (w, Refused(false))
  {
    SpendKeepsChecks(w, ticket, claim, host, now);
  }

  lemma ClaimedEnds(s: State, r: nat, claim: Claim)
    requires r in s.requests && s.requests[r].phase.Opened? && !Held(s, s.requests[r].ticket)
    requires var q := s.requests[r];
      CheckTicket(Lookup(s.world.sessions, q.ticket), q.ticket, q.host, s.now) == Some(claim)
    ensures var q := s.requests[r];
      var (w, outcome) := Complete(s.world, q.host, q.ticket, s.now);
      Ends(s, r, w, outcome)
  {
    var q := s.requests[r];
    var t := To(s, r, Checked(claim));
    OneStep(s, r, t);
    CompleteOfClaim(s.world, q.host, q.ticket, s.now, claim);
    NobodyHolds(s, r, t);
    AloneTakes(t, r, claim);
    var (w, outcome) := Complete(s.world, q.host, q.ticket, s.now);
    SameEnd(s, r, t, w, outcome);
  }

  /** The steps of a request that nobody interferes with are the handler `Complete`. */
  lemma AloneIsComplete(s: State, r: nat)
    requires r in s.requests && s.requests[r].phase.Opened? && !Held(s, s.requests[r].ticket)
    ensures var q := s.requests[r];
      var (w, outcome) := Complete(s.world, q.host, q.ticket, s.now);
      Ends(s, r, w, outcome)
  {
    var q := s.requests[r];
    var claimed := CheckTicket(Lookup(s.world.sessions, q.ticket), q.ticket, q.host, s.now);
    if claimed.Some? {
      ClaimedEnds(s, r, claimed.value);
    } else {
      var t := To(s, r, Failed(false));
      OneStep(s, r, t);
      FailedEnds(t, r, false);
      SameEnd(s, r, t, s.world, Refused(false));
    }
  }

  lemma NobodyHolds(s: State, r: nat, t: State)
    requires r in s.requests && !Held(s, s.requests[r].ticket)
    requires r in t.requests && t.requests == s.requests[r := t.requests[r]] && !t.requests[r].phase.HoldsRow()
    ensures !Held(t, s.requests[r].ticket)
  {
    assert forall q | q in s.requests && q != r :: t.requests[q] == s.requests[q];
  }

  // ------------------------------------------------------------ steps as events of a run

  lemma StepHappens(s: State, r: nat)
    requires r in s.requests && Advance(s, r).Some?
    ensures Upcoming(s.requests[r].phase, r).Some?
    ensures var e := Upcoming(s.requests[r].phase, r).value; Next(s, e) == Advance(s, r) && e.ByRequest(r) && !e.Abandon?
  {
    var e := Upcoming(s.requests[r].phase, r);
    assert e.Some? && Next(s, e.value) == RequestStep(s, r, e.value);
  }

  /** Nothing but the request's own statements happens along the run, in order and to the end. */
  ghost predicate RunsAlone(s: State, r: nat, t: State, es: seq<Event>) {
    Run(s, es) == Some(t) && forall e | e in es :: e.ByRequest(r) && !e.Abandon?
  }

  lemma {:induction false} RunCons(s: State, e: Event, es: seq<Event>)
    requires Next(s, e).Some?
    ensures Run(s, [e] + es) == Run(Next(s, e).value, es)
  {
    if es == [] {
      assert [e] + es == [e] && [e][..0] == [];
    } else {
      var n := |es| - 1;
      assert ([e] + es)[..|[e] + es| - 1] == [e] + es[..n];
      RunCons(s, e, es[..n]);
    }
  }

  /** The uninterrupted request of `AloneIsComplete` is a run of the protocol. */
  lemma {:induction false} AloneIsRun(s: State, r: nat) returns (es: seq<Event>)
    requires r in s.requests
    ensures RunsAlone(s, r, Alone(s, r), es)
    decreases Stage(s.requests[r].phase), Untried(s.requests[r].phase)
  {
    var next := Advance(s, r);
    es := [];
    if next.Some? && r in next.value.requests && Nearer(next.value.requests[r].phase, s.requests[r].phase) {
      var e := Upcoming(s.requests[r].phase, r).value;
      StepHappens(s, r);
      var rest := AloneIsRun(next.value, r);
      RunCons(s, e, rest);
      es := [e] + rest;
    }
  }

  /** A request can be abandoned exactly until it has ended, which keeps a spent ticket spent; after that it takes no step. */
  lemma AbandonExactly(s: State, r: nat, e: Event)
    requires r in s.requests
    ensures var phase := s.requests[r].phase;
      && Next(s, Abandon(r)) ==
           (if phase.Done? || phase.Failed? then None else Some(To(s, r, Failed(phase.Authorizing() || phase.Cleared?))))
      && (phase.Done? || phase.Failed? ==> e.ByRequest(r) ==> Next(s, e).None?)
  {
  }
}
