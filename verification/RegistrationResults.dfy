/** What every interleaving of registrations keeps: invites, accounts, audit log, and what each account had read. */
module RegistrationResults {
  import opened Common
  import opened Registration

  /** The invites that committed registrations consumed. */
  function ConsumedSet(history: seq<Entry>): set<int> {
    set h | h in history && h.invite.Some? :: h.invite.value
  }

  function Invited(history: seq<Entry>): nat {
    if history == [] then 0
    else Invited(history[..|history| - 1]) + if history[|history| - 1].invite.Some? then 1 else 0
  }

  lemma {:induction false} CountConsumed(history: seq<Entry>)
    requires forall i, j | 0 <= i < j < |history| && history[i].invite.Some? :: history[i].invite != history[j].invite
    ensures |ConsumedSet(history)| == Invited(history)
  {
    if history != [] {
      var n := |history| - 1;
      var last := history[n];
      CountConsumed(history[..n]);
      assert history == history[..n] + [last];
      if last.invite.Some? {
        assert ConsumedSet(history) == ConsumedSet(history[..n]) + {last.invite.value};
        assert last.invite.value !in ConsumedSet(history[..n]);
      } else {
        assert ConsumedSet(history) == ConsumedSet(history[..n]);
      }
    }
  }

  /**
   * Invites and invited accounts match one to one, whatever the interleaving: no invite is consumed twice,
   * the number consumed is the number of invited accounts, every invite row is used exactly when it was used
   * before or was consumed since, and a consumed row names the account that exists because of it.
   */
  lemma InvitesConserved(s0: State, es: seq<Event>)
    requires Init(s0) && Run(s0, es).Some?
    ensures var s := Run(s0, es).value;
      && (forall i, j | 0 <= i < j < |s.history| && s.history[i].invite.Some? :: s.history[i].invite != s.history[j].invite)
      && |ConsumedSet(s.history)| == Invited(s.history)
      && (forall i | i in s.invites :: s.invites[i].isUsed <==> i in s.usedBefore || i in ConsumedSet(s.history))
      && (forall h | h in s.history && h.invite.Some? :: h.approved)
      && (forall h | h in s.history && h.invite.Some? && h.invite.value in s.invites ::
            s.invites[h.invite.value].usedBy == Some(h.user) && h.user in s.users)
  {
    Reachable(s0, es);
    var s := Run(s0, es).value;
    CountConsumed(s.history);
    forall h | h in s.history && h.invite.Some? ensures h.approved {
      assert s.requests[h.req].phase.HasUser();
    }
    assert forall i :: Consumed(s, i) <==> i in ConsumedSet(s.history);
  }

  /**
   * Only commits are recorded: the audit log is exactly what the committed registrations wrote, in order, every
   * account in the table has names of its own, a request that has not committed has no entry, and the account that
   * one holds pending is not in the table.
   */
  lemma LosersLeaveNothing(s0: State, es: seq<Event>)
    requires Init(s0) && Run(s0, es).Some?
    ensures var s := Run(s0, es).value;
      && s.audit == AuditOfAll(s.history)
      && (forall u, v | u in s.users && v in s.users && u != v ::
            s.users[u].username != s.users[v].username && s.users[u].email != s.users[v].email)
      && (forall r | r in s.requests && !s.requests[r].phase.Committed? ::
            && (forall h | h in s.history :: h.req != r)
            && (s.requests[r].phase.HasUser() ==> s.requests[r].phase.user !in s.users))
      && (forall i, j | 0 <= i < j < |s.history| ::
            s.history[i].req != s.history[j].req && s.history[i].user != s.history[j].user)
  {
    Reachable(s0, es);
    var s := Run(s0, es).value;
    forall u, v | u in s.users && v in s.users && u != v
      ensures s.users[u].username != s.users[v].username && s.users[u].email != s.users[v].email
    {
      assert !SameName(s.users[u], s.users[v].username, s.users[v].email);
    }
    forall i, j | 0 <= i < j < |s.history|
      ensures s.history[i].req != s.history[j].req && s.history[i].user != s.history[j].user
    {
      assert s.history[i] in s.history && s.history[j] in s.history;
      assert s.requests[s.history[i].req].phase.HasUser() && s.requests[s.history[j].req].phase.HasUser();
    }
  }

  // ------------------------------------------------------------------ failures

  lemma {:induction false} RunPrefix(s0: State, es: seq<Event>, k: nat)
    requires k <= |es| && Run(s0, es).Some?
    ensures Run(s0, es[..k]).Some?
    ensures k < |es| ==> Run(s0, es[..k + 1]) == Next(Run(s0, es[..k]).value, es[k])
  {
    if k < |es| {
      var n := |es| - 1;
      if k < n {
        RunPrefix(s0, es[..n], k);
        assert es[..n][..k] == es[..k] && es[..n][..k + 1] == es[..k + 1];
      } else {
        assert es[..n + 1] == es;
      }
    } else {
      assert es[..k] == es;
    }
  }

  lemma RunSnoc(s0: State, es: seq<Event>, e: Event)
    requires Run(s0, es + [e]).Some?
    ensures Run(s0, es).Some? && Run(s0, es + [e]) == Next(Run(s0, es).value, e)
  {
    assert (es + [e])[..|es + [e]| - 1] == es;
  }

  ghost predicate HasEntry(s: State, r: nat) {
    exists h :: h in s.history && h.req == r
  }

  /** A request has an entry in the history exactly when its commit step happened. */
  lemma {:induction false} CommittedExactly(s0: State, es: seq<Event>, r: nat)
    requires Init(s0) && Run(s0, es).Some?
    ensures HasEntry(Run(s0, es).value, r) <==> Commit(r) in es
  {
    if es != [] {
      var n := |es| - 1;
      var before, last := es[..n], es[n];
      assert es == before + [last];
      RunSnoc(s0, before, last);
      CommittedExactly(s0, before, r);
      EntryStep(Run(s0, before).value, last, r);
      InSnoc(before, last, Commit(r));
    }
  }

  lemma InSnoc<T>(before: seq<T>, last: T, x: T)
    ensures x in before + [last] <==> x in before || x == last
  {
  }

  lemma EntryStep(s: State, e: Event, r: nat)
    requires Next(s, e).Some?
    ensures HasEntry(Next(s, e).value, r) <==> HasEntry(s, r) || e == Commit(r)
  {
    var t := Next(s, e).value;
    if e.Commit? {
      var entry := t.history[|s.history|];
      assert t.history == s.history + [entry] && entry.req == e.req;
      assert forall h :: h in t.history <==> h in s.history || h == entry;
    } else {
      HistoryQuiet(s, e);
    }
  }

  lemma HistoryQuiet(s: State, e: Event)
    requires Next(s, e).Some? && !e.Commit?
    ensures Next(s, e).value.history == s.history
  {
  }

  /**
   * A registration that ended refused, lost its invite or was abandoned has not changed accounts, invites, audit log
   * or history in any of its steps.
   */
  lemma FailureChangesNothing(s0: State, es: seq<Event>, r: nat, k: nat)
    requires Init(s0) && Run(s0, es).Some?
    requires r in Run(s0, es).value.requests && Run(s0, es).value.requests[r].phase.Failed?
    requires k < |es| && es[k].ByRequest(r)
    ensures Run(s0, es[..k]).Some? && Run(s0, es[..k + 1]).Some?
    ensures var s, t := Run(s0, es[..k]).value, Run(s0, es[..k + 1]).value;
      t.users == s.users && t.invites == s.invites && t.audit == s.audit && t.history == s.history
  {
    Reachable(s0, es);
    CommittedExactly(s0, es, r);
    assert es[k] != Commit(r);
    RunPrefix(s0, es, k);
    RunPrefix(s0, es, k + 1);
    OnlyCommitWrites(Run(s0, es[..k]).value, es[k], r);
  }

  lemma OnlyCommitWrites(s: State, e: Event, r: nat)
    requires Next(s, e).Some? && e.ByRequest(r) && e != Commit(r)
    ensures var t := Next(s, e).value;
      t.users == s.users && t.invites == s.invites && t.audit == s.audit && t.history == s.history
  {
    RequestStepShape(s, r, e);
  }

  /** The account `a` under id `u` is the one that some committed registration created. */
  ghost predicate Registered(s: State, u: int, a: Account) {
    exists h ::
      && h in s.history && h.user == u && h.req in s.requests
      && a == Account(s.requests[h.req].username, s.requests[h.req].email, h.approved)
  }

  lemma RequestStays(s: State, e: Event, r: nat)
    requires Inv(s) && Next(s, e).Some? && r in s.requests
    ensures var t := Next(s, e).value;
      r in t.requests && t.requests[r].username == s.requests[r].username && t.requests[r].email == s.requests[r].email
  {
    if e.ByRequest(r) {
      RequestStepShape(s, r, e);
    } else {
      SameRequest(s, e, r);
    }
  }

  lemma SameRequest(s: State, e: Event, r: nat)
    requires Inv(s) && Next(s, e).Some? && r in s.requests && !e.ByRequest(r)
    ensures r in Next(s, e).value.requests && Next(s, e).value.requests[r] == s.requests[r]
  {
    if e.Own() {
      RequestStepShape(s, e.req, e);
    } else {
      OutsideStepShape(s, e);
    }
  }

  lemma EntriesStay(s: State, e: Event, h: Entry)
    requires Next(s, e).Some? && h in s.history
    ensures h in Next(s, e).value.history
  {
    if !e.Commit? {
      HistoryQuiet(s, e);
    }
  }

  lemma RegisteredKept(s: State, e: Event, u: int, a: Account)
    requires Inv(s) && Next(s, e).Some? && Registered(s, u, a)
    ensures Registered(Next(s, e).value, u, a)
  {
    var h :| h in s.history && h.user == u && h.req in s.requests
      && a == Account(s.requests[h.req].username, s.requests[h.req].email, h.approved);
    RequestStays(s, e, h.req);
    EntriesStay(s, e, h);
  }

  lemma CommittedUser(s: State, r: nat, t: State, u: int)
    requires CommitShape(s, r, t) && u in t.users
    ensures (u in s.users && t.users[u] == s.users[u]) || Registered(t, u, t.users[u])
  {
    assert t.history[|s.history|] in t.history;
  }

  lemma OutsideUser(s: State, e: Event, u: int)
    requires Next(s, e).Some? && !e.Own() && u in Next(s, e).value.users
    ensures var t := Next(s, e).value; (u in s.users && t.users[u] == s.users[u]) || e == OtherUser(t.users[u])
  {
  }

  lemma UserStep(s: State, e: Event, u: int)
    requires Next(s, e).Some? && u in Next(s, e).value.users
    ensures var t := Next(s, e).value;
      (u in s.users && t.users[u] == s.users[u]) || e == OtherUser(t.users[u]) || Registered(t, u, t.users[u])
  {
    if e.Own() {
      RequestStepShape(s, e.req, e);
      if CommitShape(s, e.req, Next(s, e).value) {
        CommittedUser(s, e.req, Next(s, e).value, u);
      }
    } else {
      OutsideUser(s, e, u);
    }
  }

  /** Where an account comes from: the initial table, another way of adding accounts, or a committed registration. */
  ghost predicate Origin(s0: State, es: seq<Event>, s: State, u: int, a: Account) {
    (u in s0.users && a == s0.users[u]) || OtherUser(a) in es || Registered(s, u, a)
  }

  lemma OriginKept(s0: State, es: seq<Event>, s: State, e: Event, u: int, a: Account)
    requires Inv(s) && Next(s, e).Some? && Origin(s0, es, s, u, a)
    ensures Origin(s0, es + [e], Next(s, e).value, u, a)
  {
    if Registered(s, u, a) {
      RegisteredKept(s, e, u, a);
    }
  }

  lemma OriginStep(s0: State, es: seq<Event>, s: State, e: Event, t: State, u: int)
    requires Inv(s) && Next(s, e) == Some(t) && u in t.users
    requires u in s.users ==> Origin(s0, es, s, u, s.users[u])
    ensures Origin(s0, es + [e], t, u, t.users[u])
  {
    UserStep(s, e, u);
    if u in s.users && t.users[u] == s.users[u] {
      OriginKept(s0, es, s, e, u, s.users[u]);
    }
  }

  /**
   * Every account in the table was there before, was added otherwise, or is what one committed registration asked for:
   * its names, approved as its entry says. So none stems from a registration that failed.
   */
  lemma {:induction false} AccountOrigins(s0: State, es: seq<Event>, u: int)
    requires Init(s0) && Run(s0, es).Some? && u in Run(s0, es).value.users
    ensures Origin(s0, es, Run(s0, es).value, u, Run(s0, es).value.users[u])
  {
    if es != [] {
      var n := |es| - 1;
      var before, last := es[..n], es[n];
      assert es == before + [last];
      Reachable(s0, before);
      if u in Run(s0, before).value.users {
        AccountOrigins(s0, before, u);
      }
      OriginStep(s0, before, Run(s0, before).value, last, Run(s0, es).value, u);
    }
  }

  // ---------------------------------------------------------------- provenance

  /** What a registration must have read: that it is open, the approval setting after that, or a usable invite row. */
  datatype Evidence = Open | OpenThen(approval: bool) | Valid(invite: int)

  ghost predicate ShownAfter(s0: State, es: seq<Event>, ev: Evidence, code: Option<string>) {
    && Run(s0, es).Some?
    && var s := Run(s0, es).value;
    match ev
    case Open => s.enabled
    case OpenThen(approval) => s.approval == approval
    case Valid(i) =>
      && i in s.invites && code == Some(s.invites[i].code) && !s.invites[i].isUsed
      && (s.invites[i].expiresAt.None? || s.now < s.invites[i].expiresAt.value)
  }

  function Statement(ev: Evidence, r: nat): Event {
    match ev
    case Open => ReadEnabled(r)
    case OpenThen(_) => ReadApproval(r)
    case Valid(i) => ReadInvite(r, Some(i))
  }

  ghost predicate SawOpen(s0: State, es: seq<Event>, r: nat) {
    exists before :: before + [ReadEnabled(r)] <= es && ShownAfter(s0, before, Open, None)
  }

  /** The statement for `ev`, which follows the events `before`, found it; the approval setting is read after the other. */
  ghost predicate Saw(s0: State, es: seq<Event>, ev: Evidence, r: nat, code: Option<string>) {
    exists before ::
      && before + [Statement(ev, r)] <= es && ShownAfter(s0, before, ev, code)
      && (ev.OpenThen? ==> SawOpen(s0, before, r))
  }

  predicate Needs(q: Request, ev: Evidence) {
    match q.phase
    case EnabledRead(enabled) => enabled && ev == Open
    case SettingsRead(approval) => q.code.None? && ev == OpenThen(approval)
    case InviteRead(approval, invite) => ev == if invite.Some? then Valid(invite.value) else OpenThen(approval)
    case UsernameFree(approval, invite) => ev == if invite.Some? then Valid(invite.value) else OpenThen(approval)
    case NamesFree(approval, invite) => ev == if invite.Some? then Valid(invite.value) else OpenThen(approval)
    case Inserted(_, approved, invite) => ev == if invite.Some? then Valid(invite.value) else OpenThen(!approved)
    case Taken(_, approved, invite) => ev == if invite.Some? then Valid(invite.value) else OpenThen(!approved)
    case Committed(_, approved, invite) => ev == if invite.Some? then Valid(invite.value) else OpenThen(!approved)
    case _ => false
  }

  ghost predicate Trail(s0: State, es: seq<Event>, s: State) {
    forall r, ev | r in s.requests && Needs(s.requests[r], ev) :: Saw(s0, es, ev, r, s.requests[r].code)
  }

  /** What a step of request `r` at state `s` newly found. */
  predicate Finding(s: State, r: nat, e: Event, ev: Evidence)
    requires r in s.requests
  {
    && e == Statement(ev, r)
    && match ev
       case Open => s.enabled
       case OpenThen(approval) => s.approval == approval && Needs(s.requests[r], Open)
       case Valid(i) =>
         var code := s.requests[r].code; code.Some? && Finds(s, code.value, Some(i)) && Usable(s.invites[i], s.now)
  }

  lemma SettingsShow(s: State, r: nat, ev: Evidence)
    requires r in s.requests && (s.requests[r].phase.Opened? || s.requests[r].phase.EnabledRead?)
    requires Needs(Advance(s, r, None).value.requests[r], ev)
    ensures Finding(s, r, if s.requests[r].phase.Opened? then ReadEnabled(r) else ReadApproval(r), ev)
  {
  }

  lemma InviteReadShows(s: State, r: nat, found: Option<int>, ev: Evidence)
    requires r in s.requests && s.requests[r].phase.SettingsRead? && Advance(s, r, found).Some?
    requires Needs(Advance(s, r, found).value.requests[r], ev)
    ensures Needs(s.requests[r], ev) || Finding(s, r, ReadInvite(r, found), ev)
  {
  }

  /**
   * The query for a code finds the one row that has it, or no row when none does; the request goes on exactly with a row
   * that is unused and in time, and fails otherwise.
   */
  lemma InviteReadExact(s: State, r: nat, found: Option<int>)
    requires Inv(s) && r in s.requests && s.requests[r].phase.SettingsRead? && s.requests[r].code.Some?
    requires Advance(s, r, found).Some?
    ensures var code, phase := s.requests[r].code.value, Advance(s, r, found).value.requests[r].phase;
      && (forall i :: found == Some(i) <==> i in s.invites && s.invites[i].code == code)
      && (phase.Failed? || phase == InviteRead(s.requests[r].phase.approval, found))
      && (phase.Failed? <==>
            forall i | i in s.invites && s.invites[i].code == code ::
              s.invites[i].isUsed || (s.invites[i].expiresAt.Some? && s.invites[i].expiresAt.value <= s.now))
  {
  }

  lemma NamesNeedNothingNew(s: State, r: nat, ev: Evidence)
    requires r in s.requests && Advance(s, r, None).Some?
    requires var p := s.requests[r].phase; p.InviteRead? || p.UsernameFree? || p.NamesFree?
    requires Needs(Advance(s, r, None).value.requests[r], ev)
    ensures Needs(s.requests[r], ev)
  {
  }

  lemma TakingNeedsNothingNew(s: State, r: nat, ev: Evidence)
    requires r in s.requests && Advance(s, r, None).Some?
    requires s.requests[r].phase.Inserted? || s.requests[r].phase.Taken?
    requires Needs(Advance(s, r, None).value.requests[r], ev)
    ensures Needs(s.requests[r], ev)
  {
  }

  lemma StepShows(s: State, r: nat, e: Event, ev: Evidence)
    requires r in s.requests && e.ByRequest(r) && RequestStep(s, r, e).Some?
    requires Needs(RequestStep(s, r, e).value.requests[r], ev)
    ensures Needs(s.requests[r], ev) || Finding(s, r, e, ev)
  {
    if !e.Abandon? {
      match s.requests[r].phase
      case Opened => SettingsShow(s, r, ev);
      case EnabledRead(_) => SettingsShow(s, r, ev);
      case SettingsRead(_) => InviteReadShows(s, r, FoundOf(e), ev);
      case Inserted(_, _, _) => TakingNeedsNothingNew(s, r, ev);
      case Taken(_, _, _) => TakingNeedsNothingNew(s, r, ev);
      case _ => NamesNeedNothingNew(s, r, ev);
    }
  }

  lemma OthersKept(s: State, e: Event, r: nat)
    requires Inv(s) && Next(s, e).Some? && !e.ByRequest(r) && r in Next(s, e).value.requests
    ensures (r in s.requests && Next(s, e).value.requests[r] == s.requests[r])
         || Next(s, e).value.requests[r].phase.Opened?
  {
    if e.Own() {
      RequestStepShape(s, e.req, e);
    } else {
      OutsideStepShape(s, e);
    }
  }

  lemma SawExtends(s0: State, es: seq<Event>, e: Event, ev: Evidence, r: nat, code: Option<string>)
    requires Saw(s0, es, ev, r, code)
    ensures Saw(s0, es + [e], ev, r, code)
  {
    var before :| before + [Statement(ev, r)] <= es && ShownAfter(s0, before, ev, code) &&
      (ev.OpenThen? ==> SawOpen(s0, before, r));
    assert before + [Statement(ev, r)] <= es + [e];
  }

  lemma SawNow(s0: State, es: seq<Event>, e: Event, ev: Evidence, r: nat)
    requires Run(s0, es).Some? && r in Run(s0, es).value.requests && Finding(Run(s0, es).value, r, e, ev)
    requires Trail(s0, es, Run(s0, es).value)
    ensures Saw(s0, es + [e], ev, r, Run(s0, es).value.requests[r].code)
  {
    var s := Run(s0, es).value;
    assert ShownAfter(s0, es, ev, s.requests[r].code);
    if ev.OpenThen? {
      assert Saw(s0, es, Open, r, s.requests[r].code);
      var before :| before + [ReadEnabled(r)] <= es && ShownAfter(s0, before, Open, s.requests[r].code);
      assert ShownAfter(s0, before, Open, None);
    }
    assert es + [Statement(ev, r)] <= es + [e];
  }

  lemma TrailKept(s0: State, es: seq<Event>, e: Event, t: State)
    requires Run(s0, es).Some? && Trail(s0, es, Run(s0, es).value) && Inv(Run(s0, es).value)
    requires Next(Run(s0, es).value, e) == Some(t)
    ensures Trail(s0, es + [e], t)
  {
    var s := Run(s0, es).value;
    forall r, ev | r in t.requests && Needs(t.requests[r], ev)
      ensures Saw(s0, es + [e], ev, r, t.requests[r].code)
    {
      if e.ByRequest(r) {
        StepShows(s, r, e, ev);
        if Needs(s.requests[r], ev) {
          SawExtends(s0, es, e, ev, r, s.requests[r].code);
        } else {
          SawNow(s0, es, e, ev, r);
        }
      } else {
        OthersKept(s, e, r);
        SawExtends(s0, es, e, ev, r, s.requests[r].code);
      }
    }
  }

  lemma {:induction false} TrailHolds(s0: State, es: seq<Event>)
    requires Init(s0) && Run(s0, es).Some?
    ensures Trail(s0, es, Run(s0, es).value)
  {
    if es != [] {
      var n := |es| - 1;
      var before, last := es[..n], es[n];
      assert es == before + [last];
      TrailHolds(s0, before);
      Reachable(s0, before);
      TrailKept(s0, before, last, Run(s0, es).value);
    }
  }

  /**
   * Every committed account was entitled to exist: an invited one read its own invite unused and unexpired; any other
   * one first read that registration was open and then the approval setting, and is approved exactly when approval was
   * not required at that second moment.
   */
  lemma AccountProvenance(s0: State, es: seq<Event>, h: Entry)
    requires Init(s0) && Run(s0, es).Some? && h in Run(s0, es).value.history
    ensures h.req in Run(s0, es).value.requests
    ensures var code := Run(s0, es).value.requests[h.req].code;
      Saw(s0, es, if h.invite.Some? then Valid(h.invite.value) else OpenThen(!h.approved), h.req, code)
  {
    Reachable(s0, es);
    TrailHolds(s0, es);
    var q := Run(s0, es).value.requests[h.req];
    var ev := if h.invite.Some? then Valid(h.invite.value) else OpenThen(!h.approved);
    assert Needs(q, ev);
  }

  // ----------------------------------------------------------------- waiting

  /** Another registration has inserted an account under the name or the address and has not ended. */
  ghost predicate NameWaits(s: State, username: string, email: string) {
    exists q | q in s.requests ::
      && (s.requests[q].phase.Inserted? || s.requests[q].phase.Taken?)
      && (s.requests[q].username == username || s.requests[q].email == email)
  }

  ghost predicate InviteWaits(s: State, i: int) {
    exists q | q in s.requests :: s.requests[q].phase.Taken? && s.requests[q].phase.invite == Some(i)
  }

  /**
   * A registration waits only for others: at its insert exactly for an account that is being created under the name or
   * address, and at its invite exactly for one that has taken the same invite; every other statement goes on at once,
   * with the row that the query for the code finds.
   */
  lemma WaitsExactly(s: State, r: nat, found: Option<int>)
    requires r in s.requests
    ensures Advance(s, r, found).None? <==>
            match s.requests[r].phase
            case NamesFree(_, _) => NameWaits(s, s.requests[r].username, s.requests[r].email)
            case Inserted(_, _, invite) => invite.Some? && InviteWaits(s, invite.value)
            case SettingsRead(_) =>
              s.requests[r].code.Some? &&
              (if found.Some? then found.value !in s.invites || s.invites[found.value].code != s.requests[r].code.value
               else exists i | i in s.invites :: s.invites[i].code == s.requests[r].code.value)
            case Committed(_, _, _) => true
            case Failed => true
            case _ => false
  {
    var q := s.requests[r];
    assert NamePending(s, q.username, q.email) <==> NameWaits(s, q.username, q.email);
    assert q.phase.Inserted? && q.phase.invite.Some? ==>
      (InviteHeld(s, q.phase.invite.value) <==> InviteWaits(s, q.phase.invite.value));
  }

  // ------------------------------------------------------- the rest of the system

  /** What has to be so for the rest of the system to do something. */
  ghost predicate Possible(s: State, e: Event) {
    match e
    case Arrive(r, _, _, _) => r !in s.requests
    case OtherUser(a) =>
      && !NameWaits(s, a.username, a.email)
      && forall u | u in s.users :: s.users[u].username != a.username && s.users[u].email != a.email
    case DeleteUser(user) => forall i | i in s.invites :: s.invites[i].usedBy != Some(user)
    case NewInvite(id, text, _) => id !in s.everInvites && forall i | i in s.invites :: s.invites[i].code != text
    case DeleteInvite(id) => !InviteWaits(s, id)
    case Tick(to) => s.now <= to
    case _ => true
  }

  /** Each table after that, row by row. */
  ghost predicate Becomes(s: State, e: Event, t: State) {
    && (forall u ::
          && (u in t.users <==> (u in s.users && e != DeleteUser(u)) || (e.OtherUser? && u == s.nextUser))
          && (u in t.users ==> t.users[u] == if e.OtherUser? && u == s.nextUser then e.account else s.users[u]))
    && (forall i ::
          && (i in t.invites <==> (i in s.invites && e != DeleteInvite(i)) || (e.NewInvite? && i == e.id))
          && (i in t.invites ==>
                t.invites[i] == if e.NewInvite? && i == e.id then Invite(e.text, e.expiresAt, false, None) else s.invites[i]))
    && (forall r ::
          && (r in t.requests <==> r in s.requests || (e.Arrive? && r == e.req))
          && (r in t.requests ==>
                t.requests[r] ==
                  if e.Arrive? && r == e.req
                  then Request(e.username, e.email, if e.code == Some("") then None else e.code, Opened)
                  else s.requests[r]))
    && (t.enabled, t.approval) == (if e.SetSettings? then (e.enabled, e.approval) else (s.enabled, s.approval))
    && t.now == (if e.Tick? then e.to else s.now) && t.history == s.history && t.audit == s.audit
  }

  lemma OutsidePossible(s: State, e: Event)
    requires !e.Own()
    ensures Next(s, e).Some? <==> Possible(s, e)
  {
    if e.OtherUser? {
      var a := e.account;
      assert NamePending(s, a.username, a.email) <==> NameWaits(s, a.username, a.email);
      assert NameCommitted(s, a.username, a.email) <==> exists u | u in s.users :: SameName(s.users[u], a.username, a.email);
    }
    if e.DeleteInvite? {
      assert InviteHeld(s, e.id) <==> InviteWaits(s, e.id);
    }
  }

  /** What the rest of the system can do between two statements of a registration, when, and to what effect. */
  lemma OutsideExactly(s: State, e: Event)
    requires !e.Own()
    ensures Next(s, e).Some? <==> Possible(s, e)
    ensures Next(s, e).Some? ==> Becomes(s, e, Next(s, e).value)
  {
    OutsidePossible(s, e);
  }

  // ------------------------------------------------------------- the lost invite

  /** The request waits to take an invite that another registration has consumed, or has failed. */
  ghost predicate Lost(s: State, r: nat) {
    && r in s.requests
    && var p := s.requests[r].phase;
    p.Failed? || (p.Inserted? && p.invite.Some? && Consumed(s, p.invite.value))
  }

  lemma ConsumedStays(s: State, e: Event, i: int)
    requires Next(s, e).Some? && Consumed(s, i)
    ensures Consumed(Next(s, e).value, i)
  {
    var h :| h in s.history && h.invite == Some(i);
    EntriesStay(s, e, h);
  }

  /** Two registrations with one invite: whichever commits first, the other can only fail. */
  lemma SecondTakerFails(s: State, r: nat, e: Event)
    requires Inv(s) && Lost(s, r) && e.ByRequest(r) && Next(s, e).Some?
    ensures Next(s, e).value == To(s, r, Failed)
  {
    var p := s.requests[r].phase;
    if p.Inserted? {
      assert p.invite.value in s.invites ==> s.invites[p.invite.value].isUsed;
    }
  }

  lemma LostStep(s: State, r: nat, e: Event)
    requires Inv(s) && Lost(s, r) && Next(s, e).Some?
    ensures Lost(Next(s, e).value, r)
  {
    if e.ByRequest(r) {
      SecondTakerFails(s, r, e);
    } else {
      SameRequest(s, e, r);
      var p := s.requests[r].phase;
      if p.Inserted? {
        ConsumedStays(s, e, p.invite.value);
      }
    }
  }

  /** A registration whose invite was consumed while it waited never commits, however the run goes on. */
  lemma {:induction false} LoserNeverCommits(s0: State, es: seq<Event>, r: nat, more: seq<Event>)
    requires Init(s0) && Run(s0, es).Some? && Run(s0, es + more).Some? && Lost(Run(s0, es).value, r)
    ensures Lost(Run(s0, es + more).value, r)
    ensures forall h | h in Run(s0, es + more).value.history :: h.req != r
  {
    Reachable(s0, es + more);
    if more == [] {
      assert es + more == es;
    } else {
      var n := |more| - 1;
      var init, last := more[..n], more[n];
      assert es + more == (es + init) + [last];
      RunSnoc(s0, es + init, last);
      LoserNeverCommits(s0, es, r, init);
      Reachable(s0, es + init);
      LostStep(Run(s0, es + init).value, r, last);
    }
  }
}
