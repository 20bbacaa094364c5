/** The two settings that a registration reads one after the other, and when they held together. */
module RegistrationSettings {
  import opened Common
  import opened Registration
  import opened RegistrationHandler
  import opened RegistrationResults

  /** Only `SetSettings` changes the two settings. */
  lemma {:induction false} SettingsTogether(s0: State, before: seq<Event>, later: seq<Event>)
    requires Run(s0, before).Some? && Run(s0, before + later).Some?
    requires forall e | e in later :: !e.SetSettings?
    ensures Run(s0, before + later).value.enabled == Run(s0, before).value.enabled
    ensures Run(s0, before + later).value.approval == Run(s0, before).value.approval
  {
    if later == [] {
      assert before + later == before;
    } else {
      var n := |later| - 1;
      assert (before + later)[..|before + later| - 1] == before + later[..n];
      SettingsTogether(s0, before, later[..n]);
      assert later[n] in later;
      SettingsKept(Run(s0, before + later[..n]).value, later[n]);
    }
  }

  lemma SettingsKept(s: State, e: Event)
    requires Next(s, e).Some? && !e.SetSettings?
    ensures Next(s, e).value.enabled == s.enabled && Next(s, e).value.approval == s.approval
  {
    if e.Own() {
      RequestStepShape(s, e.req, e);
    }
  }

  /** Whether registration is open after these events, if they set it. */
  function LastEnabled(es: seq<Event>): Option<bool> {
    if es == [] then None
    else if es[|es| - 1].SetSettings? then Some(es[|es| - 1].enabled)
    else LastEnabled(es[..|es| - 1])
  }

  lemma LastSnoc(es: seq<Event>, e: Event)
    ensures LastEnabled(es + [e]) == if e.SetSettings? then Some(e.enabled) else LastEnabled(es)
  {
    assert (es + [e])[..|es + [e]| - 1] == es;
  }

  lemma EnabledStep(s: State, e: Event)
    requires Next(s, e).Some?
    ensures Next(s, e).value.enabled == if e.SetSettings? then e.enabled else s.enabled
  {
    if !e.SetSettings? {
      SettingsKept(s, e);
    }
  }

  lemma {:induction false} EnabledAfter(s0: State, before: seq<Event>, later: seq<Event>)
    requires Run(s0, before).Some? && Run(s0, before + later).Some?
    ensures var last := LastEnabled(later);
      Run(s0, before + later).value.enabled == if last.Some? then last.value else Run(s0, before).value.enabled
  {
    if later == [] {
      assert before + later == before;
    } else {
      var n := |later| - 1;
      var init, e := later[..n], later[n];
      assert later == init + [e] && before + later == (before + init) + [e];
      RunSnoc(s0, before + init, e);
      EnabledAfter(s0, before, init);
      EnabledStep(Run(s0, before + init).value, e);
      LastSnoc(init, e);
    }
  }

  /**
   * Request `r` read registration as open after `b`, and the approval setting after `later`: it was off if the account
   * is approved and on if not.
   */
  ghost predicate ReadBoth(s0: State, es: seq<Event>, b: seq<Event>, later: seq<Event>, r: nat, approved: bool) {
    && b + [ReadEnabled(r)] + later + [ReadApproval(r)] <= es
    && ShownAfter(s0, b, Open, None) && ShownAfter(s0, b + [ReadEnabled(r)] + later, OpenThen(!approved), None)
  }

  lemma BothRead(s0: State, es: seq<Event>, r: nat, approved: bool, code: Option<string>)
    requires Saw(s0, es, OpenThen(!approved), r, code)
    ensures exists b, later :: ReadBoth(s0, es, b, later, r, approved)
  {
    var second :| second + [ReadApproval(r)] <= es && ShownAfter(s0, second, OpenThen(!approved), code)
      && SawOpen(s0, second, r);
    var b :| b + [ReadEnabled(r)] <= second && ShownAfter(s0, b, Open, None);
    var later := second[|b| + 1..];
    assert b + [ReadEnabled(r)] + later == second;
    assert ReadBoth(s0, es, b, later, r, approved);
  }

  /**
   * The two settings at the two queries: registration is still open at the second exactly when no change in between left
   * it closed, and when nothing changed them both settings were at each query what the account went by.
   */
  ghost predicate HeldTogether(s0: State, b: seq<Event>, later: seq<Event>, r: nat, approved: bool) {
    && Run(s0, b).Some? && Run(s0, b + [ReadEnabled(r)] + later).Some?
    && var first, second := Run(s0, b).value, Run(s0, b + [ReadEnabled(r)] + later).value;
    && (second.enabled && second.approval == !approved <==> LastEnabled(later) != Some(false))
    && ((forall e | e in later :: !e.SetSettings?) ==>
          && first.enabled && first.approval == !approved
          && second.enabled && second.approval == !approved)
  }

  lemma SettingsAtSecond(s0: State, es: seq<Event>, b: seq<Event>, later: seq<Event>, r: nat, approved: bool)
    requires Run(s0, es).Some? && ReadBoth(s0, es, b, later, r, approved)
    ensures HeldTogether(s0, b, later, r, approved)
  {
    var first := b + [ReadEnabled(r)];
    RunPrefix(s0, first + later, |b|);
    RunPrefix(s0, first + later, |b| + 1);
    assert (first + later)[..|b|] == b && (first + later)[..|b| + 1] == first && (first + later)[|b|] == ReadEnabled(r);
    SettingsKept(Run(s0, b).value, ReadEnabled(r));
    EnabledAfter(s0, first, later);
    if forall e | e in later :: !e.SetSettings? {
      SettingsTogether(s0, first, later);
    }
  }

  /**
   * Every uninvited account comes from two queries: one that found registration open and a later one that read the
   * approval setting the account went by. Whether both held at once is settled by the changes in between alone.
   */
  lemma OpenAtApproval(s0: State, es: seq<Event>, h: Entry)
    requires Init(s0) && Run(s0, es).Some? && h in Run(s0, es).value.history && h.invite.None?
    ensures exists b, later :: ReadBoth(s0, es, b, later, h.req, h.approved)
    ensures forall b, later | ReadBoth(s0, es, b, later, h.req, h.approved) ::
              HeldTogether(s0, b, later, h.req, h.approved)
  {
    AccountProvenance(s0, es, h);
    BothRead(s0, es, h.req, h.approved, Run(s0, es).value.requests[h.req].code);
    forall b, later | ReadBoth(s0, es, b, later, h.req, h.approved)
      ensures HeldTogether(s0, b, later, h.req, h.approved)
    {
      SettingsAtSecond(s0, es, b, later, h.req, h.approved);
    }
  }

  /** At no point of the run was registration open without approval. */
  ghost predicate NeverFree(s: State, es: seq<Event>) {
    forall before | before <= es && Run(s, before).Some? :: !(Run(s, before).value.enabled && !Run(s, before).value.approval)
  }

  lemma NeverFreeNext(s: State, es: seq<Event>, t: State, e: Event, u: State)
    requires Run(s, es) == Some(t) && NeverFree(s, es)
    requires Next(t, e) == Some(u) && !(u.enabled && !u.approval)
    ensures Run(s, es + [e]) == Some(u) && NeverFree(s, es + [e])
  {
    assert (es + [e])[..|es + [e]| - 1] == es;
    forall before | before <= es + [e] && Run(s, before).Some?
      ensures !(Run(s, before).value.enabled && !Run(s, before).value.approval)
    {
      if |before| == |es| + 1 {
        assert before == es + [e];
      } else {
        assert before <= es;
      }
    }
  }

  /** The end of a run that commits request `r` as an approved account. */
  ghost predicate EndsApproved(s: State, more: seq<Event>, r: nat) {
    && Run(s, more).Some? && NeverFree(s, more)
    && r in Run(s, more).value.requests
    && Run(s, more).value.requests[r].phase.Committed? && Run(s, more).value.requests[r].phase.approved
  }

  lemma TakenUnseen(s: State, es: seq<Event>, t: State, r: nat, user: int)
    requires Run(s, es) == Some(t) && NeverFree(s, es) && !t.enabled
    requires r in t.requests && t.requests[r].phase == Taken(user, true, None)
    ensures exists more :: EndsApproved(s, more, r)
  {
    var u := CommitStep(t, r, user, true, None);
    NeverFreeNext(s, es, t, Commit(r), u);
    assert EndsApproved(s, es + [Commit(r)], r);
  }

  lemma InsertedUnseen(s: State, es: seq<Event>, t: State, r: nat)
    requires Run(s, es) == Some(t) && NeverFree(s, es) && !t.enabled
    requires r in t.requests && t.requests[r].phase == NamesFree(false, None)
    requires !NamePending(t, t.requests[r].username, t.requests[r].email)
    requires !NameCommitted(t, t.requests[r].username, t.requests[r].email)
    ensures exists more :: EndsApproved(s, more, r)
  {
    var u := To(t, r, Inserted(t.nextUser, true, None)).(nextUser := t.nextUser + 1);
    var v := To(u, r, Taken(t.nextUser, true, None));
    NeverFreeNext(s, es, t, InsertUser(r), u);
    NeverFreeNext(s, es + [InsertUser(r)], u, TakeInvite(r), v);
    TakenUnseen(s, es + [InsertUser(r)] + [TakeInvite(r)], v, r, t.nextUser);
  }

  lemma CheckedUnseen(s: State, es: seq<Event>, t: State, r: nat)
    requires Run(s, es) == Some(t) && NeverFree(s, es) && !t.enabled
    requires Unhindered(t, r, None) && t.requests[r].phase == SettingsRead(false) && t.requests[r].code.None?
    requires !Knows(t.users, t.requests[r].username, t.requests[r].email)
    ensures exists more :: EndsApproved(s, more, r)
  {
    KnownByEither(t.users, t.requests[r].username, t.requests[r].email);
    var u := To(t, r, InviteRead(false, None));
    var v := To(u, r, UsernameFree(false, None));
    var w := To(v, r, NamesFree(false, None));
    var e1 := es + [ReadInvite(r, None)];
    var e2 := e1 + [CheckUsername(r)];
    NeverFreeNext(s, es, t, ReadInvite(r, None), u);
    NeverFreeNext(s, e1, u, CheckUsername(r), v);
    NeverFreeNext(s, e2, v, CheckEmail(r), w);
    NonePendingAfter(t, r, w);
    InsertedUnseen(s, e2 + [CheckEmail(r)], w, r);
  }

  /** Registration closes and then drops approval, between the two queries. */
  lemma SwitchedUnseen(s: State, es: seq<Event>, t: State, r: nat)
    requires Run(s, es) == Some(t) && NeverFree(s, es)
    requires Unhindered(t, r, None) && t.requests[r].phase == EnabledRead(true) && t.requests[r].code.None?
    requires !Knows(t.users, t.requests[r].username, t.requests[r].email)
    ensures exists more :: EndsApproved(s, more, r)
  {
    var u := t.(enabled := false, approval := true);
    var v := t.(enabled := false, approval := false);
    NeverFreeNext(s, es, t, SetSettings(false, true), u);
    NeverFreeNext(s, es + [SetSettings(false, true)], u, SetSettings(false, false), v);
    ApprovalUnseen(s, es + [SetSettings(false, true)] + [SetSettings(false, false)], v, r);
  }

  lemma ApprovalUnseen(s: State, es: seq<Event>, t: State, r: nat)
    requires Run(s, es) == Some(t) && NeverFree(s, es) && !t.enabled && !t.approval
    requires Unhindered(t, r, None) && t.requests[r].phase == EnabledRead(true) && t.requests[r].code.None?
    requires !Knows(t.users, t.requests[r].username, t.requests[r].email)
    ensures exists more :: EndsApproved(s, more, r)
  {
    var u := To(t, r, SettingsRead(false));
    NeverFreeNext(s, es, t, ReadApproval(r), u);
    UnhinderedAfter(t, r, None, u);
    CheckedUnseen(s, es + [ReadApproval(r)], u, r);
  }

  lemma OpenedUnseen(s: State, es: seq<Event>, t: State, r: nat)
    requires Run(s, es) == Some(t) && NeverFree(s, es)
    requires Unhindered(t, r, None) && t.requests[r].phase.Opened? && t.requests[r].code.None?
    requires t.enabled && t.approval && !Knows(t.users, t.requests[r].username, t.requests[r].email)
    ensures exists more :: EndsApproved(s, more, r)
  {
    var u := To(t, r, EnabledRead(true));
    NeverFreeNext(s, es, t, ReadEnabled(r), u);
    UnhinderedAfter(t, r, None, u);
    SwitchedUnseen(s, es + [ReadEnabled(r)], u, r);
  }

  lemma StartNeverFree(s: State)
    requires !(s.enabled && !s.approval)
    ensures Run(s, []) == Some(s) && NeverFree(s, [])
  {
    var none: seq<Event> := [];
    forall before | before <= none && Run(s, before).Some?
      ensures !(Run(s, before).value.enabled && !Run(s, before).value.approval)
    {
      assert before == none;
    }
  }

  lemma ArrivalNext(s: State, r: nat, username: string, email: string)
    requires r !in s.requests
    ensures Next(s, Arrive(r, username, email, None)) ==
            Some(s.(requests := s.requests[r := Request(username, email, None, Opened)]))
  {
  }

  lemma LoneUnhindered(t: State, r: nat)
    requires t.requests.Keys == {r} && t.requests[r].phase.Opened? && t.requests[r].code.None?
    ensures Unhindered(t, r, None)
  {
  }

  /**
   * The condition is needed. Registration is open with approval when the first setting is read; it is then closed, and
   * approval dropped only after that. The account is approved although registration was never open without approval.
   */
  lemma OpenNeverFree(s0: State, r: nat, username: string, email: string)
    requires Init(s0) && s0.enabled && s0.approval && !Knows(s0.users, username, email)
    ensures exists more :: EndsApproved(s0, more, r)
  {
    var arrival := Arrive(r, username, email, None);
    var t := s0.(requests := s0.requests[r := Request(username, email, None, Opened)]);
    StartNeverFree(s0);
    ArrivalNext(s0, r, username, email);
    NeverFreeNext(s0, [], s0, arrival, t);
    LoneUnhindered(t, r);
    OpenedUnseen(s0, [] + [arrival], t, r);
  }
}
