/** Two-factor enrolment and recovery: a state machine per user that is paid for with recovery codes. */
module TwoFactor {
  import opened Common

  datatype Account = Account(secret: Option<string>, enabled: bool)

  /** A row of `two_factor_recovery_codes`. */
  datatype CodeRow = CodeRow(user: int, hash: string, used: bool)

  datatype Store = Store(accounts: map<int, Account>, codes: map<int, CodeRow>, nextCode: int)

  const CODES_ISSUED: nat := 8

  datatype Op =
    | AddUser(user: int)
    | RemoveUser(user: int)
    | Setup(user: int, secret: string)
    | Enable(user: int, totpOk: bool, hashes: seq<string>)
    | Disable(user: int, passwordOk: bool, roleRequires: bool)
    | Recover(user: int, admitted: bool, matched: Option<int>)

  function CodesOf(s: Store, user: int): set<int> {
    set id | id in s.codes && s.codes[id].user == user
  }

  function UnusedOf(s: Store, user: int): set<int> {
    set id | id in s.codes && s.codes[id].user == user && !s.codes[id].used
  }

  function WithoutCodes(s: Store, user: int): map<int, CodeRow> {
    s.codes - CodesOf(s, user)
  }

  /** Whether a handler gets past all of its checks. */
  predicate Succeeds(s: Store, op: Op) {
    match op
    case AddUser(user) => user !in s.accounts
    case RemoveUser(user) => user in s.accounts
    case Setup(user, _) => user in s.accounts && !s.accounts[user].enabled
    case Enable(user, totpOk, hashes) =>
      user in s.accounts && !s.accounts[user].enabled && s.accounts[user].secret.Some? && totpOk && |hashes| == CODES_ISSUED
    case Disable(user, passwordOk, roleRequires) =>
      user in s.accounts && s.accounts[user].enabled && passwordOk && !roleRequires
    case Recover(user, admitted, matched) =>
      user in s.accounts && s.accounts[user].enabled && admitted && matched.Some? && matched.value in UnusedOf(s, user)
  }

  function Range(first: int, n: nat): (r: set<int>)
    ensures forall id :: id in r <==> first <= id < first + n
    ensures |r| == n
  {
    if n == 0 then {} else Range(first, n - 1) + {first + n - 1}
  }

  /** One unused row per hash, numbered from `first`. */
  function InsertAll(codes: map<int, CodeRow>, first: int, user: int, hashes: seq<string>): map<int, CodeRow> {
    if hashes == [] then codes
    else
      var n := |hashes| - 1;
      InsertAll(codes, first, user, hashes[..n])[first + n := CodeRow(user, hashes[n], false)]
  }

  lemma {:induction false} InsertAllExact(codes: map<int, CodeRow>, first: int, user: int, hashes: seq<string>)
    ensures var all := InsertAll(codes, first, user, hashes);
      && (forall id :: id in all <==> id in codes || first <= id < first + |hashes|)
      && (forall id | id in all ::
            all[id] == if first <= id < first + |hashes| then CodeRow(user, hashes[id - first], false) else codes[id])
  {
    if hashes != [] {
      InsertAllExact(codes, first, user, hashes[..|hashes| - 1]);
    }
  }

  function SwitchedOff(s: Store, user: int): Store {
    s.(accounts := s.accounts[user := Account(None, false)], codes := WithoutCodes(s, user))
  }

  function Used(s: Store, row: int): Store
    requires row in s.codes
  {
    s.(codes := s.codes[row := s.codes[row].(used := true)])
  }

  function Apply(s: Store, op: Op): Store {
    if !Succeeds(s, op) then s else
    match op
    case AddUser(user) => s.(accounts := s.accounts[user := Account(None, false)])
    case RemoveUser(user) => s.(accounts := s.accounts - {user}, codes := WithoutCodes(s, user))
    case Setup(user, secret) => s.(accounts := s.accounts[user := Account(Some(secret), false)])
    case Enable(user, _, hashes) =>
      s.(accounts := s.accounts[user := s.accounts[user].(enabled := true)],
         codes := InsertAll(WithoutCodes(s, user), s.nextCode, user, hashes),
         nextCode := s.nextCode + |hashes|)
    case Disable(user, _, _) => SwitchedOff(s, user)
    case Recover(user, _, matched) =>
      var t := Used(s, matched.value);
      if UnusedOf(t, user) == {} then SwitchedOff(t, user) else t
  }

  function RunAll(s: Store, ops: seq<Op>): Store {
    if ops == [] then s else Apply(RunAll(s, ops[..|ops| - 1]), ops[|ops| - 1])
  }

  lemma {:induction false} RunsCompose(s: Store, a: seq<Op>, b: seq<Op>)
    ensures RunAll(s, a + b) == RunAll(RunAll(s, a), b)
  {
    if b == [] {
      assert a + b == a;
    } else {
      assert (a + b)[..|a + b| - 1] == a + b[..|b| - 1];
      RunsCompose(s, a, b[..|b| - 1]);
    }
  }

  lemma RunOne(s: Store, op: Op)
    ensures RunAll(s, [op]) == Apply(s, op)
  {
    assert [op][..0] == [];
  }

  // ---------------------------------------------------------------- invariant

  /** Enabled users have a secret and a code left; disabled users have no codes. */
  ghost predicate Inv(s: Store) {
    && (forall id | id in s.codes :: id < s.nextCode && s.codes[id].user in s.accounts)
    && (forall u | u in s.accounts :: if s.accounts[u].enabled
                                      then s.accounts[u].secret.Some? && UnusedOf(s, u) != {}
                                      else CodesOf(s, u) == {})
  }

  predicate OwnedRow(codes: map<int, CodeRow>, id: int, u: int) {
    id in codes && codes[id].user == u
  }

  lemma OtherRowKept(s: Store, op: Op, u: int, id: int)
    requires Inv(s) && u != op.user
    ensures OwnedRow(Apply(s, op).codes, id, u) <==> OwnedRow(s.codes, id, u)
    ensures OwnedRow(s.codes, id, u) ==> Apply(s, op).codes[id] == s.codes[id]
  {
    match op
    case AddUser(_) =>
    case RemoveUser(_) =>
    case Setup(_, _) =>
    case Enable(user, _, hashes) =>
      var kept := WithoutCodes(s, user);
      var all := InsertAll(kept, s.nextCode, user, hashes);
      InsertAllExact(kept, s.nextCode, user, hashes);
      assert id in kept <==> id in s.codes && s.codes[id].user != user;
      assert id in all <==> id in kept || s.nextCode <= id < s.nextCode + |hashes|;
    case Disable(_, _, _) =>
    case Recover(_, _, _) =>
  }

  /** An operation touches the codes of its own user only. */
  lemma OthersUntouched(s: Store, op: Op, u: int)
    requires Inv(s) && u != op.user
    ensures CodesOf(Apply(s, op), u) == CodesOf(s, u) && UnusedOf(Apply(s, op), u) == UnusedOf(s, u)
    ensures u in s.accounts ==> u in Apply(s, op).accounts && Apply(s, op).accounts[u] == s.accounts[u]
    ensures u in Apply(s, op).accounts ==> u in s.accounts
  {
    var t := Apply(s, op);
    forall id
      ensures id in CodesOf(t, u) <==> id in CodesOf(s, u)
      ensures id in UnusedOf(t, u) <==> id in UnusedOf(s, u)
    {
      OtherRowKept(s, op, u, id);
    }
  }

  lemma NewRowsUnused(s: Store, user: int, hashes: seq<string>)
    requires Inv(s) && user in s.accounts && !s.accounts[user].enabled
    ensures var t := Apply(s, Enable(user, true, hashes));
      Succeeds(s, Enable(user, true, hashes)) ==> |UnusedOf(t, user)| == CODES_ISSUED && UnusedOf(t, user) != {}
  {
    if Succeeds(s, Enable(user, true, hashes)) {
      var t := Apply(s, Enable(user, true, hashes));
      InsertAllExact(WithoutCodes(s, user), s.nextCode, user, hashes);
      assert UnusedOf(t, user) == Range(s.nextCode, CODES_ISSUED);
    }
  }

  lemma IdsKept(s: Store, op: Op)
    requires Inv(s)
    ensures forall id | id in Apply(s, op).codes ::
      id < Apply(s, op).nextCode && Apply(s, op).codes[id].user in Apply(s, op).accounts
  {
    if op.Enable? && Succeeds(s, op) {
      InsertAllExact(WithoutCodes(s, op.user), s.nextCode, op.user, op.hashes);
      var t := Apply(s, op);
      forall id | id in t.codes ensures id < t.nextCode && t.codes[id].user in t.accounts {
        assert id in WithoutCodes(s, op.user) || s.nextCode <= id < s.nextCode + |op.hashes|;
      }
    }
  }

  lemma InvKept(s: Store, op: Op)
    requires Inv(s)
    ensures Inv(Apply(s, op))
  {
    var t := Apply(s, op);
    IdsKept(s, op);
    forall u | u in t.accounts
      ensures if t.accounts[u].enabled then t.accounts[u].secret.Some? && UnusedOf(t, u) != {} else CodesOf(t, u) == {}
    {
      if u != op.user {
        OthersUntouched(s, op, u);
      } else if op.Enable? && Succeeds(s, op) {
        NewRowsUnused(s, u, op.hashes);
      } else if op.AddUser? && Succeeds(s, op) {
        assert forall id | id in s.codes :: s.codes[id].user != u;
      }
    }
  }

  /** In every run: enabled means a secret and an unused code, disabled means no codes at all. */
  lemma {:induction false} InvHolds(s0: Store, ops: seq<Op>)
    requires Inv(s0)
    ensures Inv(RunAll(s0, ops))
  {
    if ops != [] {
      InvHolds(s0, ops[..|ops| - 1]);
      InvKept(RunAll(s0, ops[..|ops| - 1]), ops[|ops| - 1]);
    }
  }

  // ------------------------------------------------------ what each operation decides

  ghost predicate On(s: Store, u: int) {
    u in s.accounts && s.accounts[u].enabled
  }

  /** The operation enables two-factor for `u`: set up but off, a right code, and eight recovery codes to store. */
  ghost predicate TurnsOn(s: Store, op: Op, u: int) {
    && op.Enable? && op.user == u && op.totpOk && |op.hashes| == 8
    && u in s.accounts && !s.accounts[u].enabled && s.accounts[u].secret.Some?
  }

  /** The operation disables it: by password where no role requires it, or by spending the last unused code. */
  ghost predicate TurnsOff(s: Store, op: Op, u: int) {
    && op.user == u && On(s, u)
    && (|| (op.Disable? && op.passwordOk && !op.roleRequires)
        || (op.Recover? && op.admitted && op.matched.Some? && op.matched.value in s.codes
            && s.codes[op.matched.value] == CodeRow(u, s.codes[op.matched.value].hash, false)
            && forall id | id in s.codes && s.codes[id].user == u && !s.codes[id].used :: id == op.matched.value))
  }

  /** Marking one unused row leaves one unused row fewer. */
  lemma OneSpent(s: Store, user: int, row: int)
    requires row in UnusedOf(s, user)
    ensures UnusedOf(Used(s, row), user) == UnusedOf(s, user) - {row}
    ensures |UnusedOf(Used(s, row), user)| == |UnusedOf(s, user)| - 1
  {
    assert UnusedOf(Used(s, row), user) == UnusedOf(s, user) - {row};
  }

  lemma SpendsLast(s: Store, op: Op, u: int)
    requires op.Recover? && op.user == u && Succeeds(s, op)
    ensures TurnsOff(s, op, u) <==> UnusedOf(Used(s, op.matched.value), u) == {}
  {
    var row := op.matched.value;
    OneSpent(s, u, row);
    assert row in UnusedOf(s, u);
    if UnusedOf(Used(s, row), u) == {} {
      forall id | id in s.codes && s.codes[id].user == u && !s.codes[id].used ensures id == row {
        assert id in UnusedOf(s, u);
      }
    }
    if TurnsOff(s, op, u) {
      forall id | id in UnusedOf(s, u) ensures id == row {
        assert id in s.codes && s.codes[id].user == u && !s.codes[id].used;
      }
      assert UnusedOf(s, u) == {row};
    }
  }

  /**
   * Two-factor is on after an operation exactly when the operation turned it on, or it was on and the operation neither
   * turned it off nor removed the user.
   */
  lemma EnabledExactly(s: Store, op: Op, u: int)
    ensures On(Apply(s, op), u) <==>
            TurnsOn(s, op, u) || (On(s, u) && !TurnsOff(s, op, u) && op != RemoveUser(u))
  {
    if op.Recover? && Succeeds(s, op) {
      SpendsLast(s, op, op.user);
    }
  }

  /** A secret is stored by setup while two-factor is off, and goes when it is turned off; nothing else touches it. */
  lemma SecretExactly(s: Store, op: Op, u: int)
    requires u in s.accounts
    ensures op == RemoveUser(u) <==> u !in Apply(s, op).accounts
    ensures op != RemoveUser(u) ==>
      Apply(s, op).accounts[u].secret ==
        if op.Setup? && op.user == u && !s.accounts[u].enabled then Some(op.secret)
        else if TurnsOff(s, op, u) then None
        else s.accounts[u].secret
  {
    if op.Recover? && Succeeds(s, op) {
      SpendsLast(s, op, op.user);
    }
  }

  /** A user comes with nothing stored. */
  lemma AddedExactly(s: Store, user: int, u: int)
    requires u !in s.accounts
    ensures u in Apply(s, AddUser(user)).accounts <==> u == user
    ensures u == user ==> Apply(s, AddUser(user)).accounts[u] == Account(None, false)
  {
  }

  /** The recovery spends this row. */
  ghost predicate Spends(s: Store, op: Op, id: int) {
    && op.Recover? && op.admitted && op.matched == Some(id) && On(s, op.user)
    && id in s.codes && s.codes[id].user == op.user && !s.codes[id].used
  }

  /**
   * How code row `id` stands after an operation. A stored one goes exactly when two-factor of its user is turned on anew,
   * turned off, or the user is removed, and a recovery marks its one row; the rows that enabling adds are the hashes in
   * order, unused, under the next ids.
   */
  ghost predicate CodeAfter(s: Store, op: Op, id: int, t: Store) {
    && (id in s.codes ==>
          var u := s.codes[id].user;
          && (id in t.codes <==> !(TurnsOn(s, op, u) || TurnsOff(s, op, u) || op == RemoveUser(u)))
          && (id in t.codes ==> t.codes[id] == s.codes[id].(used := s.codes[id].used || Spends(s, op, id))))
    && (id !in s.codes ==>
          && (id in t.codes <==> op.Enable? && TurnsOn(s, op, op.user) && s.nextCode <= id < s.nextCode + 8)
          && (id in t.codes ==> t.codes[id] == CodeRow(op.user, op.hashes[id - s.nextCode], false)))
  }

  lemma CodeAfterEnable(s: Store, op: Op, id: int)
    requires Inv(s) && op.Enable?
    ensures CodeAfter(s, op, id, Apply(s, op))
  {
    assert Succeeds(s, op) <==> TurnsOn(s, op, op.user);
    if Succeeds(s, op) {
      InsertAllExact(WithoutCodes(s, op.user), s.nextCode, op.user, op.hashes);
      assert id in WithoutCodes(s, op.user) <==> id in s.codes && s.codes[id].user != op.user;
    }
  }

  lemma CodeAfterRecover(s: Store, op: Op, id: int)
    requires Inv(s) && op.Recover?
    ensures CodeAfter(s, op, id, Apply(s, op))
  {
    if Succeeds(s, op) {
      SpendsLast(s, op, op.user);
      assert Spends(s, op, op.matched.value);
      if TurnsOff(s, op, op.user) {
        var spent := Used(s, op.matched.value);
        assert id in WithoutCodes(spent, op.user) <==> id in s.codes && s.codes[id].user != op.user;
      }
    } else {
      assert !TurnsOff(s, op, op.user) && !Spends(s, op, id);
    }
  }

  lemma CodeAfterOther(s: Store, op: Op, id: int)
    requires Inv(s) && !op.Enable? && !op.Recover?
    ensures CodeAfter(s, op, id, Apply(s, op))
  {
    assert id in WithoutCodes(s, op.user) <==> id in s.codes && s.codes[id].user != op.user;
  }

  /** Every code row stands like that after every operation. */
  lemma CodesExactly(s: Store, op: Op, id: int)
    requires Inv(s)
    ensures CodeAfter(s, op, id, Apply(s, op))
  {
    if op.Enable? {
      CodeAfterEnable(s, op, id);
    } else if op.Recover? {
      CodeAfterRecover(s, op, id);
    } else {
      CodeAfterOther(s, op, id);
    }
  }

  // ----------------------------------------------------------------- counting

  /** Successful recoveries of `user` since two-factor was last enabled for them. */
  function Recoveries(s0: Store, ops: seq<Op>, user: int): nat {
    if ops == [] then 0
    else
      var before, op := ops[..|ops| - 1], ops[|ops| - 1];
      if op.user != user || !Succeeds(RunAll(s0, before), op) then Recoveries(s0, before, user)
      else if op.Enable? then 0
      else if op.Recover? then Recoveries(s0, before, user) + 1
      else Recoveries(s0, before, user)
  }

  /** While two-factor is enabled, the unused codes are the eight issued less the recoveries since. */
  lemma {:induction false} CodesCountDown(s0: Store, ops: seq<Op>, user: int)
    requires Inv(s0) && (user in s0.accounts ==> !s0.accounts[user].enabled)
    ensures var s := RunAll(s0, ops);
      user in s.accounts && s.accounts[user].enabled ==> |UnusedOf(s, user)| + Recoveries(s0, ops, user) == CODES_ISSUED
  {
    if ops != [] {
      var before, op := ops[..|ops| - 1], ops[|ops| - 1];
      var s, t := RunAll(s0, before), RunAll(s0, ops);
      CodesCountDown(s0, before, user);
      InvHolds(s0, before);
      if user in t.accounts && t.accounts[user].enabled {
        if op.user != user {
          OthersUntouched(s, op, user);
        } else if Succeeds(s, op) {
          match op
          case Enable(_, _, hashes) => NewRowsUnused(s, user, hashes);
          case Recover(_, _, matched) => OneSpent(s, user, matched.value);
          case _ =>
        }
      }
    }
  }

  /** A recovery switches two-factor off exactly when it is the eighth since it was enabled, and spends one code otherwise. */
  lemma EighthRecoveryDisables(s0: Store, ops: seq<Op>, op: Op)
    requires Inv(s0) && (op.user in s0.accounts ==> !s0.accounts[op.user].enabled)
    requires op.Recover? && Succeeds(RunAll(s0, ops), op)
    ensures var s, t := RunAll(s0, ops), Apply(RunAll(s0, ops), op);
      var n := Recoveries(s0, ops, op.user);
      && n < CODES_ISSUED
      && op.user in t.accounts
      && (t.accounts[op.user].enabled <==> n + 1 < CODES_ISSUED)
      && (if n + 1 < CODES_ISSUED then UnusedOf(t, op.user) == UnusedOf(s, op.user) - {op.matched.value}
          else CodesOf(t, op.user) == {} && t.accounts[op.user].secret.None?)
  {
    var s := RunAll(s0, ops);
    CodesCountDown(s0, ops, op.user);
    OneSpent(s, op.user, op.matched.value);
  }

  // ---------------------------------------------------------------- the handlers

  class TwoFactorStore {
    var accounts: map<int, Account>
    var codes: map<int, CodeRow>
    var nextCode: int

    constructor (s: Store)
      ensures Contents() == s
    {
      accounts, codes, nextCode := s.accounts, s.codes, s.nextCode;
    }

    function Contents(): Store
      reads this
    {
      Store(accounts, codes, nextCode)
    }

    method SetUp(user: int, secret: string) returns (ok: bool)
      modifies this
      ensures Contents() == Apply(old(Contents()), Setup(user, secret))
      ensures ok <==> Succeeds(old(Contents()), Setup(user, secret))
    {
      if user !in accounts || accounts[user].enabled {
        return false;
      }
      accounts := accounts[user := accounts[user].(secret := Some(secret))];
      return true;
    }

    /** `hashes` are the hashes of the freshly generated codes. */
    method SwitchOn(user: int, totpOk: bool, hashes: seq<string>) returns (ok: bool)
      requires |hashes| == CODES_ISSUED
      modifies this
      ensures Contents() == Apply(old(Contents()), Enable(user, totpOk, hashes))
      ensures ok <==> Succeeds(old(Contents()), Enable(user, totpOk, hashes))
    {
      if user !in accounts || accounts[user].enabled || accounts[user].secret.None? || !totpOk {
        return false;
      }
      accounts := accounts[user := accounts[user].(enabled := true)];
      codes := WithoutCodes(Contents(), user);
      InsertCodes(user, hashes);
      return true;
    }

    method InsertCodes(user: int, hashes: seq<string>)
      modifies this`codes, this`nextCode
      ensures nextCode == old(nextCode) + |hashes|
      ensures codes == InsertAll(old(codes), old(nextCode), user, hashes)
    {
      for i := 0 to |hashes|
        invariant nextCode == old(nextCode) + i
        invariant codes == InsertAll(old(codes), old(nextCode), user, hashes[..i])
      {
        assert hashes[..i + 1][..i] == hashes[..i];
        codes := codes[nextCode := CodeRow(user, hashes[i], false)];
        nextCode := nextCode + 1;
      }
      assert hashes[..|hashes|] == hashes;
    }

    method SwitchOff(user: int, passwordOk: bool, roleRequires: bool) returns (ok: bool)
      modifies this
      ensures Contents() == Apply(old(Contents()), Disable(user, passwordOk, roleRequires))
      ensures ok <==> Succeeds(old(Contents()), Disable(user, passwordOk, roleRequires))
    {
      if user !in accounts || !accounts[user].enabled || !passwordOk || roleRequires {
        return false;
      }
      accounts := accounts[user := Account(None, false)];
      codes := WithoutCodes(Contents(), user);
      return true;
    }

    /**
     * `listing` is the query's list of the user's unused rows, in whatever order the database gives;
     * `verify` is the code hash check. The first row that verifies is spent.
     */
    method RecoverWithCode(user: int, admitted: bool, text: string, verify: (string, string) -> bool, listing: seq<int>)
      returns (matched: Option<int>, ok: bool)
      requires forall id :: id in listing <==> id in codes && codes[id].user == user && !codes[id].used
      modifies this
      ensures Contents() == Apply(old(Contents()), Recover(user, admitted, matched))
      ensures ok <==> Succeeds(old(Contents()), Recover(user, admitted, matched))
      ensures matched.Some? ==>
        matched.value in old(codes) && matched.value in listing && verify(text, old(codes)[matched.value].hash)
      ensures user in old(accounts) && old(accounts)[user].enabled && admitted && matched.None? ==>
        forall id | id in listing :: !verify(text, old(codes)[id].hash)
    {
      matched, ok := None, false;
      if user !in accounts || !accounts[user].enabled || !admitted {
        return;
      }
      for i := 0 to |listing|
        invariant matched.None? && forall id | id in listing[..i] :: !verify(text, codes[id].hash)
      {
        var row := listing[i];
        assert row in listing;
        if verify(text, codes[row].hash) {
          matched := Some(row);
          break;
        }
      }
      if matched.None? {
        assert listing[..|listing|] == listing;
        return;
      }
      codes := codes[matched.value := codes[matched.value].(used := true)];
      if UnusedOf(Contents(), user) == {} {
        accounts := accounts[user := Account(None, false)];
        codes := WithoutCodes(Contents(), user);
      }
      ok := true;
    }
  }
}
