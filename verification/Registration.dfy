/**
 * Any number of public registrations running against each other and against administration.
 * One step is one query, conditional update or insert of `register`; a transaction's inserts and updates
 * are seen by others only once it commits, and until then they hold the invite row and the two unique names.
 * The audit rows, which only this transaction sees, are written in the commit's step.
 */
module Registration {
  import opened Common

  datatype Invite = Invite(code: string, expiresAt: Option<int>, isUsed: bool, usedBy: Option<int>)

  datatype Account = Account(username: string, email: string, approved: bool)

  datatype AuditRow = InviteUsed(invite: int, user: int) | UserCreated(user: int)

  datatype Phase =
    | Opened
    | EnabledRead(enabled: bool)
    | SettingsRead(approval: bool)
    | InviteRead(approval: bool, invite: Option<int>)
    | UsernameFree(approval: bool, invite: Option<int>)
    | NamesFree(approval: bool, invite: Option<int>)
    | Inserted(user: int, approved: bool, invite: Option<int>)
    | Taken(user: int, approved: bool, invite: Option<int>)
    | Committed(user: int, approved: bool, invite: Option<int>)
    | Failed
  {
    predicate HoldsNames() { Inserted? || Taken? }

    predicate HoldsInvite(i: int) { Taken? && invite == Some(i) }

    /** An account row, pending or committed, that this request produced. */
    predicate HasUser() { Inserted? || Taken? || Committed? }
  }

  datatype Request = Request(username: string, email: string, code: Option<string>, phase: Phase)

  datatype Entry = Entry(req: nat, user: int, invite: Option<int>, approved: bool)

  datatype State = State(
    users: map<int, Account>, invites: map<int, Invite>, audit: seq<AuditRow>,
    enabled: bool, approval: bool, now: int, nextUser: int, everInvites: set<int>,
    requests: map<nat, Request>, history: seq<Entry>,
    usedBefore: set<int>)

  datatype Event =
    | Arrive(req: nat, username: string, email: string, code: Option<string>)
    | ReadEnabled(req: nat)
    | ReadApproval(req: nat)
    | ReadInvite(req: nat, found: Option<int>)
    | CheckUsername(req: nat)
    | CheckEmail(req: nat)
    | InsertUser(req: nat)
    | TakeInvite(req: nat)
    | Commit(req: nat)
    | Abandon(req: nat)
    | OtherUser(account: Account)
    | DeleteUser(user: int)
    | NewInvite(id: int, text: string, expiresAt: Option<int>)
    | DeleteInvite(id: int)
    | SetSettings(enabled: bool, approval: bool)
    | Tick(to: int)
  {
    predicate Own() {
      ReadEnabled? || ReadApproval? || ReadInvite? || CheckUsername? || CheckEmail? || InsertUser? || TakeInvite? ||
      Commit? || Abandon?
    }

    predicate ByRequest(r: nat) {
      Own() && req == r
    }
  }

  predicate SameName(a: Account, username: string, email: string) {
    a.username == username || a.email == email
  }

  predicate Knows(users: map<int, Account>, username: string, email: string) {
    exists u | u in users :: SameName(users[u], username, email)
  }

  predicate KnowsUsername(users: map<int, Account>, username: string) {
    exists u | u in users :: users[u].username == username
  }

  predicate KnowsEmail(users: map<int, Account>, email: string) {
    exists u | u in users :: users[u].email == email
  }

  predicate NameCommitted(s: State, username: string, email: string) {
    Knows(s.users, username, email)
  }

  predicate NamePending(s: State, username: string, email: string) {
    exists r | r in s.requests :: s.requests[r].phase.HoldsNames()
      && (s.requests[r].username == username || s.requests[r].email == email)
  }

  predicate InviteHeld(s: State, i: int) {
    exists r | r in s.requests :: s.requests[r].phase.HoldsInvite(i)
  }

  predicate Usable(invite: Invite, now: int) {
    !invite.isUsed && (invite.expiresAt.None? || invite.expiresAt.value > now)
  }

  /** `Invite::find` by code: the row it returns, or none when there is no such row. */
  predicate FindsIn(invites: map<int, Invite>, code: string, found: Option<int>) {
    match found
    case Some(i) => i in invites && invites[i].code == code
    case None => forall i | i in invites :: invites[i].code != code
  }

  predicate Finds(s: State, code: string, found: Option<int>) {
    FindsIn(s.invites, code, found)
  }

  /** An empty invite code counts as none. */
  function CodeOf(sent: Option<string>): Option<string> {
    if sent == Some("") then None else sent
  }

  function To(s: State, r: nat, phase: Phase): State
    requires r in s.requests
  {
    s.(requests := s.requests[r := s.requests[r].(phase := phase)])
  }

  function AuditOf(e: Entry): seq<AuditRow> {
    (if e.invite.Some? then [InviteUsed(e.invite.value, e.user)] else []) + [UserCreated(e.user)]
  }

  function AuditOfAll(history: seq<Entry>): seq<AuditRow> {
    if history == [] then [] else AuditOfAll(history[..|history| - 1]) + AuditOf(history[|history| - 1])
  }

  function CommitStep(s: State, r: nat, user: int, approved: bool, invite: Option<int>): State
    requires r in s.requests
  {
    var q := s.requests[r];
    var entry := Entry(r, user, invite, approved);
    To(s, r, Committed(user, approved, invite)).(
      users := s.users[user := Account(q.username, q.email, approved)],
      invites :=
        if invite.Some? && invite.value in s.invites
        then s.invites[invite.value := s.invites[invite.value].(isUsed := true, usedBy := Some(user))]
        else s.invites,
      audit := s.audit + AuditOf(entry),
      history := s.history + [entry])
  }

  predicate CanExecute(phase: Phase, e: Event) {
    match phase
    case Opened => e.ReadEnabled?
    case EnabledRead(_) => e.ReadApproval?
    case SettingsRead(_) => e.ReadInvite?
    case InviteRead(_, _) => e.CheckUsername?
    case UsernameFree(_, _) => e.CheckEmail?
    case NamesFree(_, _) => e.InsertUser?
    case Inserted(_, _, _) => e.TakeInvite?
    case Taken(_, _, _) => e.Commit?
    case Committed(_, _, _) => false
    case Failed => false
  }

  /**
   * Request `r` executes its next statement; None when it has ended or has to wait. `found` is what a read of the
   * invite returns.
   */
  function Advance(s: State, r: nat, found: Option<int>): (t: Option<State>)
    requires r in s.requests
    ensures t.Some? ==> r in t.value.requests && t.value.requests[r].code == s.requests[r].code
  {
    var q := s.requests[r];
    match q.phase
    case Opened => Some(To(s, r, EnabledRead(s.enabled)))
    case EnabledRead(enabled) =>
      Some(To(s, r, if !enabled && q.code.None? then Failed else SettingsRead(s.approval)))
    case SettingsRead(approval) =>
      if q.code.None? then Some(To(s, r, InviteRead(approval, None)))
      else if !Finds(s, q.code.value, found) then None
      else if found.Some? && Usable(s.invites[found.value], s.now) then Some(To(s, r, InviteRead(approval, found)))
      else Some(To(s, r, Failed))
    case InviteRead(approval, invite) =>
      Some(To(s, r, if KnowsUsername(s.users, q.username) then Failed else UsernameFree(approval, invite)))
    case UsernameFree(approval, invite) =>
      Some(To(s, r, if KnowsEmail(s.users, q.email) then Failed else NamesFree(approval, invite)))
    case NamesFree(approval, invite) =>
      if NamePending(s, q.username, q.email) then None
      else if NameCommitted(s, q.username, q.email) then Some(To(s, r, Failed))
      else Some(To(s, r, Inserted(s.nextUser, invite.Some? || !approval, invite)).(nextUser := s.nextUser + 1))
    case Inserted(user, approved, invite) =>
      if invite.None? then Some(To(s, r, Taken(user, approved, invite)))
      else if InviteHeld(s, invite.value) then None
      else if invite.value in s.invites && !s.invites[invite.value].isUsed then Some(To(s, r, Taken(user, approved, invite)))
      else Some(To(s, r, Failed))
    case Taken(user, approved, invite) => Some(CommitStep(s, r, user, approved, invite))
    case Committed(_, _, _) => None
    case Failed => None
  }

  function FoundOf(e: Event): Option<int> {
    if e.ReadInvite? then e.found else None
  }

  function RequestStep(s: State, r: nat, e: Event): (t: Option<State>)
    requires r in s.requests
    ensures t.Some? ==> r in t.value.requests && t.value.requests[r].code == s.requests[r].code
  {
    var phase := s.requests[r].phase;
    if e.Abandon? then (if phase.Committed? || phase.Failed? then None else Some(To(s, r, Failed)))
    else if CanExecute(phase, e) then Advance(s, r, FoundOf(e))
    else None
  }

  function Next(s: State, e: Event): Option<State> {
    match e
    case Arrive(r, username, email, code) =>
      if r in s.requests then None
      else Some(s.(requests := s.requests[r := Request(username, email, CodeOf(code), Opened)]))
    case OtherUser(account) =>
      if NamePending(s, account.username, account.email) || NameCommitted(s, account.username, account.email) then None
      else Some(s.(users := s.users[s.nextUser := account], nextUser := s.nextUser + 1))
    case DeleteUser(user) =>
      if exists i | i in s.invites :: s.invites[i].usedBy == Some(user) then None
      else Some(s.(users := s.users - {user}))
    case NewInvite(id, text, expiresAt) =>
      if id in s.everInvites || (exists i | i in s.invites :: s.invites[i].code == text) then None
      else Some(s.(invites := s.invites[id := Invite(text, expiresAt, false, None)], everInvites := s.everInvites + {id}))
    case DeleteInvite(id) => if InviteHeld(s, id) then None else Some(s.(invites := s.invites - {id}))
    case SetSettings(enabled, approval) => Some(s.(enabled := enabled, approval := approval))
    case Tick(to) => if to < s.now then None else Some(s.(now := to))
    case _ => if e.req in s.requests then RequestStep(s, e.req, e) else None
  }

  function Run(s0: State, es: seq<Event>): Option<State> {
    if es == [] then Some(s0)
    else
      match Run(s0, es[..|es| - 1])
      case None => None
      case Some(s) => Next(s, es[|es| - 1])
  }

  ghost predicate DistinctNames(users: map<int, Account>) {
    forall u, v | u in users && v in users && u != v :: !SameName(users[u], users[v].username, users[v].email)
  }

  /** Any consistent database before the registrations that are followed; its audit rows are not repeated here. */
  ghost predicate Init(s: State) {
    && s.requests == map[] && s.history == [] && s.audit == []
    && s.invites.Keys <= s.everInvites
    && (forall u | u in s.users :: u < s.nextUser)
    && DistinctNames(s.users)
    && (forall i, j | i in s.invites && j in s.invites && i != j :: s.invites[i].code != s.invites[j].code)
    && s.usedBefore == set i | i in s.invites && s.invites[i].isUsed
  }

  // ---------------------------------------------------------------- invariants

  /** Accounts, committed or pending, have pairwise different ids and names. */
  ghost predicate Names(s: State) {
    && (forall u | u in s.users :: u < s.nextUser)
    && DistinctNames(s.users)
    && (forall r | r in s.requests && s.requests[r].phase.HasUser() :: s.requests[r].phase.user < s.nextUser)
    && (forall r, q | r in s.requests && q in s.requests && r != q
                      && s.requests[r].phase.HasUser() && s.requests[q].phase.HasUser() ::
          s.requests[r].phase.user != s.requests[q].phase.user)
    && (forall r | r in s.requests && s.requests[r].phase.HoldsNames() ::
          s.requests[r].phase.user !in s.users && !NameCommitted(s, s.requests[r].username, s.requests[r].email))
    && (forall r, q | r in s.requests && q in s.requests && r != q
                      && s.requests[r].phase.HoldsNames() && s.requests[q].phase.HoldsNames() ::
          s.requests[r].username != s.requests[q].username && s.requests[r].email != s.requests[q].email)
  }

  /** A taken invite is present, unused, and taken by one request only. */
  ghost predicate Holding(s: State) {
    && s.invites.Keys <= s.everInvites
    && (forall i, j | i in s.invites && j in s.invites && i != j :: s.invites[i].code != s.invites[j].code)
    && (forall r | r in s.requests && s.requests[r].phase.Taken? && s.requests[r].phase.invite.Some? ::
          && s.requests[r].phase.invite.value in s.invites
          && !s.invites[s.requests[r].phase.invite.value].isUsed)
    && (forall r, q | r in s.requests && q in s.requests && r != q && s.requests[r].phase.Taken?
                      && s.requests[q].phase.Taken? && s.requests[r].phase.invite.Some? ::
          s.requests[r].phase.invite != s.requests[q].phase.invite)
  }

  ghost predicate Consumed(s: State, i: int) {
    exists h :: h in s.history && h.invite == Some(i)
  }

  ghost predicate DistinctEntries(history: seq<Entry>) {
    && (forall i, j | 0 <= i < j < |history| :: history[i].req != history[j].req)
    && (forall i, j | 0 <= i < j < |history| && history[i].invite.Some? :: history[i].invite != history[j].invite)
  }

  ghost predicate Listed(s: State) {
    && (forall h | h in s.history :: h.req in s.requests
          && s.requests[h.req].phase == Committed(h.user, h.approved, h.invite))
    && (forall r | r in s.requests && s.requests[r].phase.Committed? ::
          Entry(r, s.requests[r].phase.user, s.requests[r].phase.invite, s.requests[r].phase.approved) in s.history)
  }

  /** The history lists the committed requests once each, and the audit log is what they wrote. */
  ghost predicate History(s: State) {
    Listed(s) && DistinctEntries(s.history) && s.audit == AuditOfAll(s.history)
  }

  ghost predicate Uses(s: State) {
    && s.usedBefore <= s.everInvites
    && (forall i | Consumed(s, i) :: i in s.everInvites && i !in s.usedBefore)
    && (forall i | i in s.invites :: s.invites[i].isUsed <==> i in s.usedBefore || Consumed(s, i))
    && (forall h | h in s.history && h.invite.Some? && h.invite.value in s.invites ::
          s.invites[h.invite.value].usedBy == Some(h.user) && h.user in s.users)
    && (forall r | r in s.requests && s.requests[r].phase.HasUser() && s.requests[r].phase.invite.Some? ::
          s.requests[r].phase.approved)
  }

  /** A step of request `r` that is not its commit. */
  ghost predicate QuietShape(s: State, r: nat, t: State) {
    && r in s.requests && r in t.requests
    && var q, p := s.requests[r], t.requests[r].phase;
    && !q.phase.Committed? && !p.Committed?
    && t.requests == s.requests[r := q.(phase := p)]
    && t == s.(requests := t.requests, nextUser := t.nextUser)
    && s.nextUser <= t.nextUser
    && (p.Inserted? ==>
          && p.user == s.nextUser && t.nextUser == s.nextUser + 1 && (p.invite.Some? ==> p.approved)
          && !NamePending(s, q.username, q.email) && !NameCommitted(s, q.username, q.email))
    && (p.Taken? ==>
          && q.phase == Inserted(p.user, p.approved, p.invite)
          && (p.invite.Some? ==> !InviteHeld(s, p.invite.value) && p.invite.value in s.invites
                                 && !s.invites[p.invite.value].isUsed))
  }

  /** The commit of request `r`. */
  ghost predicate CommitShape(s: State, r: nat, t: State) {
    && r in s.requests && s.requests[r].phase.Taken?
    && var q := s.requests[r].phase; t == CommitStep(s, r, q.user, q.approved, q.invite)
  }

  lemma InsertShape(s: State, r: nat)
    requires r in s.requests && s.requests[r].phase.NamesFree? && Advance(s, r, None).Some?
    ensures QuietShape(s, r, Advance(s, r, None).value)
  {
  }

  lemma TakeShape(s: State, r: nat)
    requires r in s.requests && s.requests[r].phase.Inserted? && Advance(s, r, None).Some?
    ensures QuietShape(s, r, Advance(s, r, None).value)
  {
  }

  lemma ReadShape(s: State, r: nat, found: Option<int>)
    requires r in s.requests && Advance(s, r, found).Some?
    requires var p := s.requests[r].phase;
      p.Opened? || p.EnabledRead? || p.SettingsRead? || p.InviteRead? || p.UsernameFree?
    ensures QuietShape(s, r, Advance(s, r, found).value)
  {
  }

  lemma AbandonShape(s: State, r: nat)
    requires r in s.requests && !s.requests[r].phase.Committed?
    ensures QuietShape(s, r, To(s, r, Failed))
  {
  }

  lemma RequestStepShape(s: State, r: nat, e: Event)
    requires r in s.requests && RequestStep(s, r, e).Some?
    ensures var t := RequestStep(s, r, e).value; QuietShape(s, r, t) || CommitShape(s, r, t)
  {
    if e.Abandon? {
      AbandonShape(s, r);
    } else {
      match s.requests[r].phase
      case NamesFree(_, _) => InsertShape(s, r);
      case Inserted(_, _, _) => TakeShape(s, r);
      case Taken(_, _, _) =>
      case _ => ReadShape(s, r, FoundOf(e));
    }
  }

  /** Every way the rest of the system can change the state. */
  ghost predicate OutsideShape(s: State, t: State) {
    && (forall r | r in s.requests :: r in t.requests && t.requests[r] == s.requests[r])
    && (forall r | r in t.requests && r !in s.requests :: t.requests[r].phase.Opened?)
    && t.history == s.history && t.audit == s.audit && t.usedBefore == s.usedBefore
    && s.everInvites <= t.everInvites && s.nextUser <= t.nextUser
    && (forall i | i in t.invites ::
          if i in s.invites then t.invites[i] == s.invites[i]
          else i !in s.everInvites && i in t.everInvites && !t.invites[i].isUsed
               && forall j | j in s.invites :: s.invites[j].code != t.invites[i].code)
    && (forall i, j | i in t.invites && j in t.invites && i !in s.invites && j !in s.invites :: i == j)
    && (forall i | i in s.invites && InviteHeld(s, i) :: i in t.invites)
    && (forall u | u in t.users ::
          if u in s.users then t.users[u] == s.users[u]
          else u == s.nextUser && t.nextUser == s.nextUser + 1
               && !NamePending(s, t.users[u].username, t.users[u].email)
               && !NameCommitted(s, t.users[u].username, t.users[u].email))
    && (forall i, u | i in t.invites && i in s.invites && s.invites[i].usedBy == Some(u) && u in s.users :: u in t.users)
  }

  lemma OutsideStepShape(s: State, e: Event)
    requires Next(s, e).Some? && !e.Own()
    requires s.invites.Keys <= s.everInvites && forall u | u in s.users :: u < s.nextUser
    ensures OutsideShape(s, Next(s, e).value)
  {
  }

  lemma NamesKeptQuietly(s: State, r: nat, t: State)
    requires Names(s) && QuietShape(s, r, t)
    ensures Names(t)
  {
    assert forall q | q in s.requests && q != r :: t.requests[q] == s.requests[q];
    assert t.users == s.users;
  }

  lemma NamesKeptByCommit(s: State, r: nat, t: State)
    requires Names(s) && CommitShape(s, r, t)
    ensures Names(t)
  {
    assert forall q | q in s.requests && q != r :: t.requests[q] == s.requests[q];
    var user := s.requests[r].phase.user;
    var a := t.users[user];
    assert forall u | u in t.users && u != user :: u in s.users && t.users[u] == s.users[u];
    forall u, v | u in t.users && v in t.users && u != v
      ensures !SameName(t.users[u], t.users[v].username, t.users[v].email)
    {
      if u == user {
        assert !SameName(s.users[v], a.username, a.email);
      } else if v == user {
        assert !SameName(s.users[u], a.username, a.email);
      }
    }
    forall q | q in t.requests && t.requests[q].phase.HoldsNames()
      ensures t.requests[q].phase.user !in t.users && !NameCommitted(t, t.requests[q].username, t.requests[q].email)
    {
      assert q != r && t.requests[q] == s.requests[q];
      assert s.requests[r].phase.HoldsNames();
    }
  }

  lemma PendingNameFree(s: State, t: State, r: nat)
    requires Names(s) && OutsideShape(s, t) && r in s.requests && s.requests[r].phase.HoldsNames()
    ensures s.requests[r].phase.user !in t.users && !NameCommitted(t, s.requests[r].username, s.requests[r].email)
  {
    var q := s.requests[r];
    forall u | u in t.users ensures !SameName(t.users[u], q.username, q.email) && u != q.phase.user {
      if u in s.users {
        assert !SameName(s.users[u], q.username, q.email);
      } else {
        assert !NamePending(s, t.users[u].username, t.users[u].email);
      }
    }
  }

  lemma UsersStayDistinct(s: State, t: State)
    requires DistinctNames(s.users) && OutsideShape(s, t)
    ensures DistinctNames(t.users)
  {
    forall u, v | u in t.users && v in t.users && u != v
      ensures !SameName(t.users[u], t.users[v].username, t.users[v].email)
    {
      if u !in s.users {
        assert !SameName(s.users[v], t.users[u].username, t.users[u].email);
      } else if v !in s.users {
        assert !SameName(s.users[u], t.users[v].username, t.users[v].email);
      }
    }
  }

  lemma NamesKeptOutside(s: State, t: State)
    requires Names(s) && OutsideShape(s, t)
    ensures Names(t)
  {
    UsersStayDistinct(s, t);
    forall r | r in t.requests && t.requests[r].phase.HoldsNames()
      ensures t.requests[r].phase.user !in t.users && !NameCommitted(t, t.requests[r].username, t.requests[r].email)
    {
      PendingNameFree(s, t, r);
    }
  }

  lemma HoldingKeptQuietly(s: State, r: nat, t: State)
    requires Holding(s) && QuietShape(s, r, t)
    ensures Holding(t)
  {
    assert forall q | q in s.requests && q != r :: t.requests[q] == s.requests[q];
  }

  lemma HoldingKeptByCommit(s: State, r: nat, t: State)
    requires Holding(s) && Uses(s) && CommitShape(s, r, t)
    ensures Holding(t)
  {
    assert forall q | q in s.requests && q != r :: t.requests[q] == s.requests[q];
  }

  lemma HoldingKeptOutside(s: State, t: State)
    requires Holding(s) && OutsideShape(s, t)
    ensures Holding(t)
  {
    assert forall i | i in t.invites :: i in t.everInvites;
    forall r | r in t.requests && t.requests[r].phase.Taken? && t.requests[r].phase.invite.Some?
      ensures t.requests[r].phase.invite.value in t.invites && !t.invites[t.requests[r].phase.invite.value].isUsed
    {
      assert s.requests[r].phase.HoldsInvite(t.requests[r].phase.invite.value);
      assert InviteHeld(s, t.requests[r].phase.invite.value);
    }
  }

  lemma HistoryKeptQuietly(s: State, r: nat, t: State)
    requires History(s) && QuietShape(s, r, t)
    ensures History(t)
  {
    assert forall q | q in s.requests && q != r :: t.requests[q] == s.requests[q];
  }

  /** The request about to commit, and its invite, are new to the history. */
  lemma CommitIsNew(s: State, r: nat)
    requires Holding(s) && History(s) && Uses(s) && r in s.requests && s.requests[r].phase.Taken?
    ensures forall h | h in s.history :: h.req != r && (h.invite.Some? ==> h.invite != s.requests[r].phase.invite)
  {
    forall h | h in s.history && h.invite.Some? ensures h.invite != s.requests[r].phase.invite {
      assert Consumed(s, h.invite.value);
    }
  }

  lemma HistoryKeptByCommit(s: State, r: nat, t: State)
    requires Holding(s) && History(s) && Uses(s) && CommitShape(s, r, t)
    ensures History(t)
  {
    CommitIsNew(s, r);
    var p := s.requests[r].phase;
    var entry := Entry(r, p.user, p.invite, p.approved);
    assert t.requests == s.requests[r := s.requests[r].(phase := Committed(p.user, p.approved, p.invite))];
    assert t.audit == s.audit + AuditOf(entry);
    HistoryGrows(s, r, t, entry);
  }

  lemma HistoryGrows(s: State, r: nat, t: State, entry: Entry)
    requires History(s) && r in s.requests && entry.req == r
    requires forall h | h in s.history :: h.req != r && (h.invite.Some? ==> h.invite != entry.invite)
    requires t.requests == s.requests[r := s.requests[r].(phase := Committed(entry.user, entry.approved, entry.invite))]
    requires t.history == s.history + [entry] && t.audit == s.audit + AuditOf(entry)
    ensures History(t)
  {
    DistinctGrows(s.history, entry);
    ListedGrows(s, r, t, entry);
    assert t.history[..|t.history| - 1] == s.history;
  }

  lemma DistinctGrows(history: seq<Entry>, entry: Entry)
    requires DistinctEntries(history)
    requires forall h | h in history :: h.req != entry.req && (h.invite.Some? ==> h.invite != entry.invite)
    ensures DistinctEntries(history + [entry])
  {
    assert forall i | 0 <= i < |history| :: history[i] in history;
  }

  lemma ListedGrows(s: State, r: nat, t: State, entry: Entry)
    requires Listed(s) && r in s.requests && entry.req == r && forall h | h in s.history :: h.req != r
    requires t.requests == s.requests[r := s.requests[r].(phase := Committed(entry.user, entry.approved, entry.invite))]
    requires t.history == s.history + [entry]
    ensures Listed(t)
  {
    assert forall h :: h in t.history <==> h in s.history || h == entry;
  }

  lemma UsesKeptQuietly(s: State, r: nat, t: State)
    requires Uses(s) && QuietShape(s, r, t)
    ensures Uses(t)
  {
    assert forall q | q in s.requests && q != r :: t.requests[q] == s.requests[q];
    assert forall i :: Consumed(t, i) <==> Consumed(s, i);
  }

  lemma UsesKeptByCommit(s: State, r: nat, t: State)
    requires Holding(s) && History(s) && Uses(s) && CommitShape(s, r, t)
    ensures Uses(t)
  {
    assert forall q | q in s.requests && q != r :: t.requests[q] == s.requests[q];
    var p := s.requests[r].phase;
    var entry := Entry(r, p.user, p.invite, p.approved);
    assert forall h :: h in t.history <==> h in s.history || h == entry;
    forall i ensures Consumed(t, i) <==> Consumed(s, i) || p.invite == Some(i) {
      if p.invite == Some(i) {
        assert entry in t.history;
      }
    }
    forall h | h in t.history && h.invite.Some? && h.invite.value in t.invites
      ensures t.invites[h.invite.value].usedBy == Some(h.user) && h.user in t.users
    {
      if h != entry {
        assert Consumed(s, h.invite.value);
      }
    }
  }

  lemma UsesKeptOutside(s: State, t: State)
    requires Uses(s) && OutsideShape(s, t)
    ensures Uses(t)
  {
    forall h | h in t.history && h.invite.Some? && h.invite.value in t.invites
      ensures t.invites[h.invite.value].usedBy == Some(h.user) && h.user in t.users
    {
      assert Consumed(s, h.invite.value);
    }
    assert forall i :: Consumed(t, i) <==> Consumed(s, i);
  }

  ghost predicate Inv(s: State) {
    Names(s) && Holding(s) && History(s) && Uses(s)
  }

  lemma InvKeptByRequest(s: State, r: nat, t: State)
    requires Inv(s) && (QuietShape(s, r, t) || CommitShape(s, r, t))
    ensures Inv(t)
  {
    if CommitShape(s, r, t) {
      NamesKeptByCommit(s, r, t);
      HoldingKeptByCommit(s, r, t);
      HistoryKeptByCommit(s, r, t);
      UsesKeptByCommit(s, r, t);
    } else {
      NamesKeptQuietly(s, r, t);
      HoldingKeptQuietly(s, r, t);
      HistoryKeptQuietly(s, r, t);
      UsesKeptQuietly(s, r, t);
    }
  }

  lemma InvKeptOutside(s: State, t: State)
    requires Inv(s) && OutsideShape(s, t)
    ensures Inv(t)
  {
    NamesKeptOutside(s, t);
    HoldingKeptOutside(s, t);
    UsesKeptOutside(s, t);
  }

  lemma InvKept(s: State, e: Event)
    requires Inv(s) && Next(s, e).Some?
    ensures Inv(Next(s, e).value)
  {
    if e.Own() {
      RequestStepShape(s, e.req, e);
      InvKeptByRequest(s, e.req, Next(s, e).value);
    } else {
      OutsideStepShape(s, e);
      InvKeptOutside(s, Next(s, e).value);
    }
  }

  lemma {:induction false} Reachable(s0: State, es: seq<Event>)
    requires Init(s0) && Run(s0, es).Some?
    ensures Inv(Run(s0, es).value)
  {
    if es != [] {
      var n := |es| - 1;
      Reachable(s0, es[..n]);
      InvKept(Run(s0, es[..n]).value, es[n]);
    }
  }
}
