/** `register` on its tables, and its agreement with the steps of a request that nobody interferes with. */
module RegistrationHandler {
  import opened Common
  import opened Registration

  /** The tables, settings and clock as one registration finds them. */
  datatype Tables = Tables(
    users: map<int, Account>, invites: map<int, Invite>, audit: seq<AuditRow>,
    enabled: bool, approval: bool, now: int, nextUser: int)

  datatype Outcome = Rejected | Created(user: int, approved: bool)

  /** The registration is refused before it inserts anything. */
  predicate Refuses(t: Tables, username: string, email: string, code: Option<string>, found: Option<int>) {
    || (code.None? && !t.enabled)
    || (code.Some? && (found.None? || found.value !in t.invites || !Usable(t.invites[found.value], t.now)))
    || Knows(t.users, username, email)
  }

  /** `register` without interference; `found` is the invite row that its query returns. */
  function Register(t: Tables, username: string, email: string, code: Option<string>, found: Option<int>): (Tables, Outcome) {
    if Refuses(t, username, email, code, found) then (t, Rejected)
    else
      var user, approved := t.nextUser, code.Some? || !t.approval;
      var users := t.users[user := Account(username, email, approved)];
      var invites := if code.None? then t.invites
                     else t.invites[found.value := t.invites[found.value].(isUsed := true, usedBy := Some(user))];
      var rows := (if code.Some? then [InviteUsed(found.value, user)] else []) + [UserCreated(user)];
      (t.(users := users, invites := invites, audit := t.audit + rows, nextUser := user + 1), Created(user, approved))
  }

  /** The request may register: by a usable invite with the code that it sent, or because registration is open. */
  ghost predicate Entitled(t: Tables, sent: Option<string>, found: Option<int>) {
    if sent.None? || sent.value == "" then t.enabled
    else
      && found.Some? && found.value in t.invites && !t.invites[found.value].isUsed
      && (t.invites[found.value].expiresAt.None? || t.now < t.invites[found.value].expiresAt.value)
  }

  /** Nobody has the name or the address. */
  ghost predicate BothFree(users: map<int, Account>, username: string, email: string) {
    forall u | u in users :: users[u].username != username && users[u].email != email
  }

  /** What a registration that went through leaves behind, with or without an invite. */
  ghost predicate Enrolled(
    t: Tables, after: Tables, username: string, email: string, approved: bool, invite: Option<int>)
  {
    && after.users == t.users[t.nextUser := Account(username, email, approved)]
    && after.nextUser == t.nextUser + 1
    && (invite.None? ==> after.invites == t.invites && after.audit == t.audit + [UserCreated(t.nextUser)])
    && (invite.Some? ==>
          && after.invites.Keys == t.invites.Keys
          && (forall i | i in t.invites ::
                after.invites[i] == if i == invite.value
                                    then Invite(t.invites[i].code, t.invites[i].expiresAt, true, Some(t.nextUser))
                                    else t.invites[i])
          && after.audit == t.audit + [InviteUsed(invite.value, t.nextUser), UserCreated(t.nextUser)])
    && (after.enabled, after.approval, after.now) == (t.enabled, t.approval, t.now)
  }

  /**
   * A registration is accepted exactly when the request is entitled and both names are free. The account then has the
   * next id and is approved at once exactly by an invite or when approval is not required; the invite is used by it and
   * the audit rows say so. A refusal changes nothing.
   */
  lemma RegisterExact(t: Tables, username: string, email: string, sent: Option<string>, found: Option<int>)
    ensures var (after, outcome) := Register(t, username, email, CodeOf(sent), found);
      var invited := sent.Some? && sent.value != "";
      && (outcome.Created? <==> Entitled(t, sent, found) && BothFree(t.users, username, email))
      && (outcome.Created? ==>
            && outcome == Created(t.nextUser, invited || !t.approval)
            && Enrolled(t, after, username, email, invited || !t.approval, if invited then found else None))
      && (outcome.Rejected? ==> after == t)
  {
    assert Knows(t.users, username, email) <==> !BothFree(t.users, username, email) by {
      if u :| u in t.users && !(t.users[u].username != username && t.users[u].email != email) {
        assert SameName(t.users[u], username, email);
      }
    }
  }

  class Accounts {
    var users: map<int, Account>
    var invites: map<int, Invite>
    var audit: seq<AuditRow>
    var nextUser: int
    const enabled: bool
    const approval: bool
    const now: int

    constructor (t: Tables)
      ensures Contents() == t
    {
      users, invites, audit, nextUser := t.users, t.invites, t.audit, t.nextUser;
      enabled, approval, now := t.enabled, t.approval, t.now;
    }

    function Contents(): Tables
      reads this
    {
      Tables(users, invites, audit, enabled, approval, now, nextUser)
    }

    /** The update that takes an invite only while it is unused; the number of rows it changed. */
    method TakeInvite(i: int, user: int) returns (changed: nat)
      modifies this`invites
      ensures changed == if i in old(invites) && !old(invites)[i].isUsed then 1 else 0
      ensures changed == 0 ==> invites == old(invites)
      ensures changed == 1 ==> invites == old(invites)[i := old(invites)[i].(isUsed := true, usedBy := Some(user))]
    {
      changed := 0;
      if i in invites && !invites[i].isUsed {
        invites := invites[i := invites[i].(isUsed := true, usedBy := Some(user))];
        changed := 1;
      }
    }

    /** Alone, the conditional update always finds the invite that was just read as unused. */
    method AddAccount(username: string, email: string, sent: Option<string>, found: Option<int>) returns (outcome: Outcome)
      requires CodeOf(sent).Some? ==> FindsIn(invites, CodeOf(sent).value, found)
      modifies this
      ensures (Contents(), outcome) == Register(old(Contents()), username, email, CodeOf(sent), found)
    {
      var code := CodeOf(sent);
      if !enabled && code.None? {
        return Rejected;
      }
      if code.Some? {
        if found.None? || !Usable(invites[found.value], now) {
          return Rejected;
        }
      }
      KnownByEither(users, username, email);
      if KnowsUsername(users, username) || KnowsEmail(users, email) {
        return Rejected;
      }
      ghost var before := Contents();
      var user, approved := nextUser, code.Some? || !approval;
      users, nextUser := users[user := Account(username, email, approved)], nextUser + 1;
      if code.Some? {
        var changed := TakeInvite(found.value, user);
        assert changed == 1;
        audit := audit + [InviteUsed(found.value, user)];
      }
      audit := audit + [UserCreated(user)];
      assert audit == before.audit + ((if code.Some? then [InviteUsed(found.value, user)] else []) + [UserCreated(user)]);
      return Created(user, approved);
    }
  }

  function TablesOf(s: State): Tables {
    Tables(s.users, s.invites, s.audit, s.enabled, s.approval, s.now, s.nextUser)
  }

  function Remaining(phase: Phase): nat {
    match phase
    case Opened => 8
    case EnabledRead(_) => 7
    case SettingsRead(_) => 6
    case InviteRead(_, _) => 5
    case UsernameFree(_, _) => 4
    case NamesFree(_, _) => 3
    case Inserted(_, _, _) => 2
    case Taken(_, _, _) => 1
    case Committed(_, _, _) => 0
    case Failed => 0
  }

  /** Request `r` runs on without interruption for as long as it can. */
  function Alone(s: State, r: nat, found: Option<int>): (t: State)
    requires r in s.requests
    ensures r in t.requests
    decreases Remaining(s.requests[r].phase)
  {
    match Advance(s, r, found)
    case None => s
    case Some(t) => if Remaining(t.requests[r].phase) < Remaining(s.requests[r].phase) then Alone(t, r, found) else s
  }

  /** How an uninterrupted request ends: its tables and phase, as the handler says. */
  ghost predicate Ends(s: State, r: nat, found: Option<int>, tables: Tables, outcome: Outcome) {
    && r in s.requests
    && TablesOf(Alone(s, r, found)) == tables
    && match outcome
       case Rejected => Alone(s, r, found).requests[r].phase.Failed?
       case Created(user, approved) =>
         && Alone(s, r, found).requests[r].phase.Committed?
         && Alone(s, r, found).requests[r].phase.user == user && Alone(s, r, found).requests[r].phase.approved == approved
  }

  lemma OneStep(s: State, r: nat, found: Option<int>, t: State)
    requires r in s.requests && Advance(s, r, found) == Some(t)
    requires Remaining(t.requests[r].phase) < Remaining(s.requests[r].phase)
    ensures Alone(s, r, found) == Alone(t, r, found)
  {
  }

  lemma FailedEnds(s: State, r: nat, found: Option<int>)
    requires r in s.requests && s.requests[r].phase.Failed?
    ensures Alone(s, r, found) == s
  {
  }

  lemma InsertedEnds(s: State, r: nat, found: Option<int>)
    requires r in s.requests && s.requests[r].phase.Inserted?
    requires var i := s.requests[r].phase.invite;
      i.Some? ==> !InviteHeld(s, i.value) && i.value in s.invites && !s.invites[i.value].isUsed
    ensures var p := s.requests[r].phase;
      Alone(s, r, found) == CommitStep(To(s, r, Taken(p.user, p.approved, p.invite)), r, p.user, p.approved, p.invite)
  {
    var p := s.requests[r].phase;
    var t := To(s, r, Taken(p.user, p.approved, p.invite));
    var u := CommitStep(t, r, p.user, p.approved, p.invite);
    OneStep(s, r, found, t);
    OneStep(t, r, found, u);
    assert Alone(u, r, found) == u;
  }

  lemma NoneHeldAfter(s: State, r: nat, t: State, i: int)
    requires r in s.requests && r in t.requests && t.requests == s.requests[r := t.requests[r]]
    requires !t.requests[r].phase.Taken? && !InviteHeld(s, i)
    ensures !InviteHeld(t, i)
  {
    assert forall q | q in s.requests && q != r :: t.requests[q] == s.requests[q];
  }

  lemma NamesFreeEnds(s: State, r: nat, found: Option<int>)
    requires r in s.requests && s.requests[r].phase.NamesFree?
    requires !NamePending(s, s.requests[r].username, s.requests[r].email)
    requires !NameCommitted(s, s.requests[r].username, s.requests[r].email)
    requires var i := s.requests[r].phase.invite;
      i.Some? ==> !InviteHeld(s, i.value) && i.value in s.invites && !s.invites[i.value].isUsed
    ensures var q, p := s.requests[r], s.requests[r].phase;
      var user, approved := s.nextUser, p.invite.Some? || !p.approval;
      var t := To(s, r, Inserted(user, approved, p.invite)).(nextUser := user + 1);
      Alone(s, r, found) == CommitStep(To(t, r, Taken(user, approved, p.invite)), r, user, approved, p.invite)
  {
    var p := s.requests[r].phase;
    var user, approved := s.nextUser, p.invite.Some? || !p.approval;
    var t := To(s, r, Inserted(user, approved, p.invite)).(nextUser := user + 1);
    OneStep(s, r, found, t);
    if p.invite.Some? {
      NoneHeldAfter(s, r, t, p.invite.value);
    }
    InsertedEnds(t, r, found);
  }

  ghost predicate Unhindered(s: State, r: nat, found: Option<int>) {
    && r in s.requests
    && !NamePending(s, s.requests[r].username, s.requests[r].email)
    && (found.Some? ==> !InviteHeld(s, found.value))
    && (s.requests[r].code.Some? ==> Finds(s, s.requests[r].code.value, found))
  }

  lemma InviteReadEnds(s: State, r: nat, found: Option<int>)
    requires Unhindered(s, r, found) && s.requests[r].phase.InviteRead?
    requires var q := s.requests[r];
      && (q.phase.invite.Some? <==> q.code.Some?)
      && (q.code.Some? ==> q.phase.invite == found && found.Some? && Usable(s.invites[found.value], s.now))
      && (q.code.None? ==> s.enabled) && q.phase.approval == s.approval
    ensures var q := s.requests[r];
      var (tables, outcome) := Register(TablesOf(s), q.username, q.email, q.code, found);
      Ends(s, r, found, tables, outcome)
  {
    var q := s.requests[r];
    KnownByEither(s.users, q.username, q.email);
    if KnowsUsername(s.users, q.username) {
      var t := To(s, r, Failed);
      OneStep(s, r, found, t);
      FailedEnds(t, r, found);
    } else {
      var t := To(s, r, UsernameFree(q.phase.approval, q.phase.invite));
      OneStep(s, r, found, t);
      UnhinderedAfter(s, r, found, t);
      UsernameFreeEnds(t, r, found);
    }
  }

  lemma KnownByEither(users: map<int, Account>, username: string, email: string)
    ensures Knows(users, username, email) <==> KnowsUsername(users, username) || KnowsEmail(users, email)
  {
    if Knows(users, username, email) {
      var u :| u in users && SameName(users[u], username, email);
    }
    if KnowsUsername(users, username) {
      var u :| u in users && users[u].username == username;
      assert SameName(users[u], username, email);
    }
    if KnowsEmail(users, email) {
      var u :| u in users && users[u].email == email;
      assert SameName(users[u], username, email);
    }
  }

  lemma UsernameFreeEnds(s: State, r: nat, found: Option<int>)
    requires Unhindered(s, r, found) && s.requests[r].phase.UsernameFree?
    requires !KnowsUsername(s.users, s.requests[r].username)
    requires var q := s.requests[r];
      && (q.phase.invite.Some? <==> q.code.Some?)
      && (q.code.Some? ==> q.phase.invite == found && found.Some? && Usable(s.invites[found.value], s.now))
      && (q.code.None? ==> s.enabled) && q.phase.approval == s.approval
    ensures var q := s.requests[r];
      var (tables, outcome) := Register(TablesOf(s), q.username, q.email, q.code, found);
      Ends(s, r, found, tables, outcome)
  {
    var q := s.requests[r];
    KnownByEither(s.users, q.username, q.email);
    if KnowsEmail(s.users, q.email) {
      var t := To(s, r, Failed);
      OneStep(s, r, found, t);
      FailedEnds(t, r, found);
    } else {
      var t := To(s, r, NamesFree(q.phase.approval, q.phase.invite));
      OneStep(s, r, found, t);
      UnhinderedAfter(s, r, found, t);
      NamesFreeEnds(t, r, found);
    }
  }

  lemma UnhinderedAfter(s: State, r: nat, found: Option<int>, t: State)
    requires Unhindered(s, r, found) && r in t.requests
    requires t.requests == s.requests[r := s.requests[r].(phase := t.requests[r].phase)] && t.invites == s.invites
    requires !t.requests[r].phase.HoldsNames()
    ensures Unhindered(t, r, found)
  {
    NonePendingAfter(s, r, t);
    if found.Some? {
      NoneHeldAfter(s, r, t, found.value);
    }
  }

  lemma NonePendingAfter(s: State, r: nat, t: State)
    requires r in s.requests && r in t.requests && t.requests == s.requests[r := t.requests[r]]
    requires !t.requests[r].phase.HoldsNames() && !NamePending(s, s.requests[r].username, s.requests[r].email)
    ensures !NamePending(t, s.requests[r].username, s.requests[r].email)
  {
    assert forall q | q in s.requests && q != r :: t.requests[q] == s.requests[q];
  }

  /** The steps of a registration that nobody interferes with are the handler `Register`. */
  lemma AloneIsRegister(s: State, r: nat, found: Option<int>)
    requires Unhindered(s, r, found) && s.requests[r].phase.Opened?
    ensures var q := s.requests[r];
      var (tables, outcome) := Register(TablesOf(s), q.username, q.email, q.code, found);
      Ends(s, r, found, tables, outcome)
  {
    var q := s.requests[r];
    var t := To(s, r, EnabledRead(s.enabled));
    OneStep(s, r, found, t);
    UnhinderedAfter(s, r, found, t);
    EnabledReadEnds(t, r, found);
  }

  lemma EnabledReadEnds(s: State, r: nat, found: Option<int>)
    requires Unhindered(s, r, found) && s.requests[r].phase == EnabledRead(s.enabled)
    ensures var q := s.requests[r];
      var (tables, outcome) := Register(TablesOf(s), q.username, q.email, q.code, found);
      Ends(s, r, found, tables, outcome)
  {
    var q := s.requests[r];
    if !s.enabled && q.code.None? {
      var t := To(s, r, Failed);
      OneStep(s, r, found, t);
      FailedEnds(t, r, found);
    } else {
      var t := To(s, r, SettingsRead(s.approval));
      OneStep(s, r, found, t);
      UnhinderedAfter(s, r, found, t);
      SettingsReadEnds(t, r, found);
    }
  }

  lemma SettingsReadEnds(s: State, r: nat, found: Option<int>)
    requires Unhindered(s, r, found) && s.requests[r].phase == SettingsRead(s.approval)
    requires s.requests[r].code.None? ==> s.enabled
    ensures var q := s.requests[r];
      var (tables, outcome) := Register(TablesOf(s), q.username, q.email, q.code, found);
      Ends(s, r, found, tables, outcome)
  {
    var q := s.requests[r];
    if q.code.Some? && !(found.Some? && Usable(s.invites[found.value], s.now)) {
      var t := To(s, r, Failed);
      OneStep(s, r, found, t);
      FailedEnds(t, r, found);
    } else {
      var t := To(s, r, InviteRead(s.approval, if q.code.None? then None else found));
      OneStep(s, r, found, t);
      UnhinderedAfter(s, r, found, t);
      InviteReadEnds(t, r, found);
    }
  }

  // ------------------------------------------------------------ steps as events of a run

  /** The event by which a request executes its next statement. */
  function Upcoming(phase: Phase, r: nat, found: Option<int>): Event {
    match phase
    case Opened => ReadEnabled(r)
    case EnabledRead(_) => ReadApproval(r)
    case SettingsRead(_) => ReadInvite(r, found)
    case InviteRead(_, _) => CheckUsername(r)
    case UsernameFree(_, _) => CheckEmail(r)
    case NamesFree(_, _) => InsertUser(r)
    case Inserted(_, _, _) => TakeInvite(r)
    case _ => Commit(r)
  }

  lemma StepHappens(s: State, r: nat, found: Option<int>)
    requires r in s.requests
    ensures Next(s, Upcoming(s.requests[r].phase, r, found)) == Advance(s, r, found)
  {
    match s.requests[r].phase
    case Opened =>
    case SettingsRead(_) =>
    case Committed(_, _, _) =>
    case Failed =>
    case _ =>
  }

  /** Nothing but the request's own statements happens along the run, in order and to the end. */
  ghost predicate RunsAlone(s: State, r: nat, t: State, es: seq<Event>) {
    Run(s, es) == Some(t) && forall e | e in es :: e.ByRequest(r) && !e.Abandon?
  }

  lemma {:induction false} RunCons(s: State, e: Event, es: seq<Event>)
    requires Next(s, e).Some?
    ensures Run(s, [e] + es) == Run(Next(s, e).value, es)
  {
    if es == [] {
      assert [e] + es == [e] && [e][..0] == [];
    } else {
      var n := |es| - 1;
      assert ([e] + es)[..|[e] + es| - 1] == [e] + es[..n];
      RunCons(s, e, es[..n]);
    }
  }

  /** The uninterrupted request of `AloneIsRegister` is a run of the protocol. */
  lemma {:induction false} AloneIsRun(s: State, r: nat, found: Option<int>) returns (es: seq<Event>)
    requires r in s.requests
    ensures RunsAlone(s, r, Alone(s, r, found), es)
    decreases Remaining(s.requests[r].phase)
  {
    var next := Advance(s, r, found);
    es := [];
    if next.Some? && Remaining(next.value.requests[r].phase) < Remaining(s.requests[r].phase) {
      var e := Upcoming(s.requests[r].phase, r, found);
      StepHappens(s, r, found);
      var rest := AloneIsRun(next.value, r, found);
      RunCons(s, e, rest);
      es := [e] + rest;
    }
  }

  /** A request can be abandoned exactly until it has ended, and takes no step of any kind after that. */
  lemma AbandonExactly(s: State, r: nat, e: Event)
    requires r in s.requests
    ensures Next(s, Abandon(r)) ==
            if s.requests[r].phase.Committed? || s.requests[r].phase.Failed? then None else Some(To(s, r, Failed))
    ensures s.requests[r].phase.Committed? || s.requests[r].phase.Failed? ==> e.ByRequest(r) ==> Next(s, e).None?
  {
  }
}
