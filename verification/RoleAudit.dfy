/** Role bindings and the audit log that must be able to rebuild them. */
module RoleAudit {
  import opened Common
  import opened Ordering

  datatype AuditEvent =
    | RoleAssigned(role: int, user: int)
    | RoleUnassigned(role: int, user: int)
    | RoleDeleted(role: int)
    | UserDeleted(user: int)
    | RoleCreated(role: int)
    | UserCreated(user: int)
    | UserUpdated(user: int)

  /** `users`, `roles` (with their system flag), `user_roles` as (user, role) pairs, and the audit log. */
  datatype Store = Store(users: set<int>, roles: map<int, bool>, bindings: set<(int, int)>, log: seq<AuditEvent>)

  // ------------------------------------------------------------ specification

  function Elements(roles: seq<int>): set<int> {
    set r | r in roles
  }

  function WithoutUserRows(b: set<(int, int)>, user: int): set<(int, int)> {
    set x | x in b && x.0 != user
  }

  function WithoutRoleRows(b: set<(int, int)>, role: int): set<(int, int)> {
    set x | x in b && x.1 != role
  }

  function RoleRows(b: set<(int, int)>, role: int): set<(int, int)> {
    set x | x in b && x.1 == role
  }

  function RolesOf(s: Store, user: int): set<int> {
    set b | b in s.bindings && b.0 == user :: b.1
  }

  function BindAll(user: int, roles: set<int>): (b: set<(int, int)>)
    ensures forall u, r :: (u, r) in b <==> u == user && r in roles
  {
    set r | r in roles :: (user, r)
  }

  function Assigned(user: int, roles: set<int>): seq<AuditEvent> {
    var order := InOrder(roles);
    seq(|order|, i requires 0 <= i < |order| => RoleAssigned(order[i], user))
  }

  function Unassigned(user: int, roles: set<int>): seq<AuditEvent> {
    var order := InOrder(roles);
    seq(|order|, i requires 0 <= i < |order| => RoleUnassigned(order[i], user))
  }

  /** The audit rows for replacing one role set of a user by another. */
  function Changes(user: int, was: set<int>, now: set<int>): seq<AuditEvent> {
    Unassigned(user, was - now) + Assigned(user, now - was)
  }

  /** The role list can be inserted row by row: no repeated key and no missing role. */
  predicate Insertable(s: Store, roles: seq<int>) {
    Distinct(roles) && forall r | r in roles :: r in s.roles
  }

  datatype Op =
    | CreateUser(user: int, roleIds: seq<int>)
    | UpdateUser(user: int, newRoles: Option<seq<int>>)
    | DeleteUser(user: int)
    | DeleteOwnAccount(user: int, adminRole: Option<int>)
    | CreateRole(role: int)
    | DeleteRole(role: int)

  /** The account is the only holder of the admin role. */
  predicate OnlyAdmin(s: Store, user: int, admin: Option<int>) {
    admin.Some? && (user, admin.value) in s.bindings && |RoleRows(s.bindings, admin.value)| == 1
  }

  predicate Accepted(s: Store, op: Op) {
    match op
    case CreateUser(user, roleIds) => user !in s.users && Insertable(s, roleIds)
    case UpdateUser(user, newRoles) => user in s.users && (newRoles.Some? ==> Insertable(s, newRoles.value))
    case DeleteUser(user) => user in s.users
    case DeleteOwnAccount(user, admin) => user in s.users && !OnlyAdmin(s, user, admin)
    case CreateRole(role) => role !in s.roles
    case DeleteRole(role) => role in s.roles && !s.roles[role]
  }

  function WithoutUser(s: Store, user: int): Store {
    s.(users := s.users - {user}, bindings := WithoutUserRows(s.bindings, user), log := s.log + [UserDeleted(user)])
  }

  /** A handler's whole effect; a refused or failed request leaves the store as it was. */
  function Apply(s: Store, op: Op): Store {
    if !Accepted(s, op) then s else
    match op
    case CreateUser(user, roleIds) =>
      s.(users := s.users + {user}, bindings := s.bindings + BindAll(user, Elements(roleIds)),
         log := s.log + Assigned(user, Elements(roleIds)) + [UserCreated(user)])
    case UpdateUser(user, newRoles) =>
      if newRoles.None? then s.(log := s.log + [UserUpdated(user)])
      else
        var was, now := RolesOf(s, user), Elements(newRoles.value);
        s.(bindings := WithoutUserRows(s.bindings, user) + BindAll(user, now),
           log := s.log + Changes(user, was, now) + [UserUpdated(user)])
    case DeleteUser(user) => WithoutUser(s, user)
    case DeleteOwnAccount(user, _) => WithoutUser(s, user)
    case CreateRole(role) => s.(roles := s.roles[role := false], log := s.log + [RoleCreated(role)])
    case DeleteRole(role) =>
      s.(roles := s.roles - {role}, bindings := WithoutRoleRows(s.bindings, role), log := s.log + [RoleDeleted(role)])
  }

  function RunAll(s: Store, ops: seq<Op>): Store {
    if ops == [] then s else Apply(RunAll(s, ops[..|ops| - 1]), ops[|ops| - 1])
  }

  // -------------------------------------------------------------------- replay

  function ReplayOne(b: set<(int, int)>, e: AuditEvent): set<(int, int)> {
    match e
    case RoleAssigned(role, user) => b + {(user, role)}
    case RoleUnassigned(role, user) => b - {(user, role)}
    case RoleDeleted(role) => WithoutRoleRows(b, role)
    case UserDeleted(user) => WithoutUserRows(b, user)
    case _ => b
  }

  function Replay(b: set<(int, int)>, log: seq<AuditEvent>): set<(int, int)> {
    if log == [] then b else ReplayOne(Replay(b, log[..|log| - 1]), log[|log| - 1])
  }

  lemma {:induction false} ReplayConcat(b: set<(int, int)>, x: seq<AuditEvent>, y: seq<AuditEvent>)
    ensures Replay(b, x + y) == Replay(Replay(b, x), y)
  {
    if y == [] {
      assert x + y == x;
    } else {
      assert (x + y)[..|x + y| - 1] == x + y[..|y| - 1];
      ReplayConcat(b, x, y[..|y| - 1]);
    }
  }

  lemma {:induction false} ReplayAssigned(b: set<(int, int)>, user: int, order: seq<int>, log: seq<AuditEvent>)
    requires |log| == |order| && forall i | 0 <= i < |order| :: log[i] == RoleAssigned(order[i], user)
    ensures Replay(b, log) == b + BindAll(user, Elements(order))
  {
    if order != [] {
      var n := |order| - 1;
      assert order == order[..n] + [order[n]];
      ReplayAssigned(b, user, order[..n], log[..n]);
    }
  }

  lemma {:induction false} ReplayUnassigned(b: set<(int, int)>, user: int, order: seq<int>, log: seq<AuditEvent>)
    requires |log| == |order| && forall i | 0 <= i < |order| :: log[i] == RoleUnassigned(order[i], user)
    ensures Replay(b, log) == b - BindAll(user, Elements(order))
  {
    if order != [] {
      var n := |order| - 1;
      assert order == order[..n] + [order[n]];
      ReplayUnassigned(b, user, order[..n], log[..n]);
    }
  }

  lemma ReplayLast(b: set<(int, int)>, log: seq<AuditEvent>, e: AuditEvent)
    ensures Replay(b, log + [e]) == ReplayOne(Replay(b, log), e)
  {
    assert (log + [e])[..|log + [e]| - 1] == log;
  }

  lemma SamePairs(a: set<(int, int)>, b: set<(int, int)>)
    requires forall u, r :: (u, r) in a <==> (u, r) in b
    ensures a == b
  {
    forall x: (int, int) ensures x in a <==> x in b {
      var (u, r) := x;
      assert (u, r) in a <==> (u, r) in b;
    }
  }

  /** Replaying the two difference lists turns one role set of a user into the other. */
  lemma ReplayDifference(b: set<(int, int)>, user: int, was: set<int>, now: set<int>)
    requires forall r :: r in was <==> (user, r) in b
    ensures Replay(b, Changes(user, was, now)) == WithoutUserRows(b, user) + BindAll(user, now)
  {
    var gone, added := InOrder(was - now), InOrder(now - was);
    ReplayConcat(b, Unassigned(user, was - now), Assigned(user, now - was));
    ReplayUnassigned(b, user, gone, Unassigned(user, was - now));
    ReplayAssigned(b - BindAll(user, Elements(gone)), user, added, Assigned(user, now - was));
    assert Elements(gone) == was - now && Elements(added) == now - was;
    var replayed := b - BindAll(user, was - now) + BindAll(user, now - was);
    SamePairs(replayed, WithoutUserRows(b, user) + BindAll(user, now));
  }

  lemma ReplayUpdate(s: Store, b: set<(int, int)>, user: int, roles: seq<int>)
    requires Replay(b, s.log) == s.bindings && Accepted(s, UpdateUser(user, Some(roles)))
    ensures var t := Apply(s, UpdateUser(user, Some(roles))); Replay(b, t.log) == t.bindings
  {
    var was, now := RolesOf(s, user), Elements(roles);
    forall r ensures r in was <==> (user, r) in s.bindings {
      if (user, r) in s.bindings {
        assert (user, r).1 in was;
      }
    }
    var changes := Changes(user, was, now);
    ReplayDifference(s.bindings, user, was, now);
    ReplayConcat(b, s.log, changes);
    ReplayLast(b, s.log + changes, UserUpdated(user));
  }

  lemma ReplayCreate(s: Store, b: set<(int, int)>, user: int, roles: seq<int>)
    requires Replay(b, s.log) == s.bindings && Accepted(s, CreateUser(user, roles))
    ensures var t := Apply(s, CreateUser(user, roles)); Replay(b, t.log) == t.bindings
  {
    var order := InOrder(Elements(roles));
    var added := Assigned(user, Elements(roles));
    ReplayConcat(b, s.log, added);
    ReplayAssigned(s.bindings, user, order, added);
    assert Elements(order) == Elements(roles);
    ReplayLast(b, s.log + added, UserCreated(user));
  }

  lemma ReplayTail(s: Store, b: set<(int, int)>, t: Store, e: AuditEvent)
    requires Replay(b, s.log) == s.bindings
    requires t.log == s.log + [e] && t.bindings == ReplayOne(s.bindings, e)
    ensures Replay(b, t.log) == t.bindings
  {
    ReplayLast(b, s.log, e);
  }

  lemma ReplayStep(s: Store, b: set<(int, int)>, op: Op)
    requires Replay(b, s.log) == s.bindings
    ensures Replay(b, Apply(s, op).log) == Apply(s, op).bindings
  {
    if Accepted(s, op) {
      match op
      case CreateUser(user, roleIds) => ReplayCreate(s, b, user, roleIds);
      case UpdateUser(user, Some(roles)) => ReplayUpdate(s, b, user, roles);
      case UpdateUser(user, None) => ReplayTail(s, b, Apply(s, op), UserUpdated(user));
      case DeleteUser(user) => ReplayTail(s, b, Apply(s, op), UserDeleted(user));
      case DeleteOwnAccount(user, _) => ReplayTail(s, b, Apply(s, op), UserDeleted(user));
      case CreateRole(role) => ReplayTail(s, b, Apply(s, op), RoleCreated(role));
      case DeleteRole(role) => ReplayTail(s, b, Apply(s, op), RoleDeleted(role));
    }
  }

  /** In every reachable state, replaying the audit log from the initial bindings gives the live table exactly. */
  lemma {:induction false} ReplayExact(s0: Store, ops: seq<Op>)
    requires s0.log == []
    ensures Replay(s0.bindings, RunAll(s0, ops).log) == RunAll(s0, ops).bindings
  {
    if ops != [] {
      ReplayExact(s0, ops[..|ops| - 1]);
      ReplayStep(RunAll(s0, ops[..|ops| - 1]), s0.bindings, ops[|ops| - 1]);
    }
  }

  ghost predicate Referential(s: Store) {
    forall b | b in s.bindings :: b.0 in s.users && b.1 in s.roles
  }

  /** Bindings never outlive their user or role, in any run. */
  lemma {:induction false} BindingsStayReferential(s0: Store, ops: seq<Op>)
    requires Referential(s0)
    ensures Referential(RunAll(s0, ops))
  {
    if ops != [] {
      BindingsStayReferential(s0, ops[..|ops| - 1]);
    }
  }

  /** An administrator who deletes their own account leaves another administrator behind. */
  lemma OwnDeletionKeepsAnAdmin(s: Store, user: int, admin: int)
    requires (user, admin) in s.bindings && Accepted(s, DeleteOwnAccount(user, Some(admin)))
    ensures exists other :: (other, admin) in Apply(s, DeleteOwnAccount(user, Some(admin))).bindings
  {
    var holders := RoleRows(s.bindings, admin);
    var others := holders - {(user, admin)};
    assert (user, admin) in holders && holders == others + {(user, admin)};
    assert |others| > 0;
    var b := SomeMember(others);
    assert b == (b.0, admin) && b in Apply(s, DeleteOwnAccount(user, Some(admin))).bindings;
  }

  // ------------------------------------------------------ what each operation decides

  /** Roles that can be given: no role twice, and every one exists. */
  ghost predicate Givable(s: Store, roles: seq<int>) {
    (forall i, j | 0 <= i < j < |roles| :: roles[i] != roles[j]) && forall r | r in roles :: r in s.roles
  }

  /** The operation removes the user: any one by an administrator, one's own unless nobody else is administrator. */
  ghost predicate Removes(s: Store, op: Op, u: int) {
    && u in s.users
    && (|| op == DeleteUser(u)
        || (op.DeleteOwnAccount? && op.user == u
            && (op.adminRole.None? || (u, op.adminRole.value) !in s.bindings
                || exists other | other != u :: (other, op.adminRole.value) in s.bindings)))
  }

  ghost predicate Creates(s: Store, op: Op, u: int) {
    op.CreateUser? && op.user == u && u !in s.users && Givable(s, op.roleIds)
  }

  lemma OnlyAdminExact(s: Store, u: int, admin: Option<int>)
    ensures OnlyAdmin(s, u, admin) <==>
            && admin.Some? && (u, admin.value) in s.bindings
            && forall other | other != u :: (other, admin.value) !in s.bindings
  {
    if admin.Some? && (u, admin.value) in s.bindings {
      var holders := RoleRows(s.bindings, admin.value);
      var others := holders - {(u, admin.value)};
      assert holders == others + {(u, admin.value)};
      if others != {} {
        var x := SomeMember(others);
        assert x == (x.0, admin.value) && x.0 != u && x in s.bindings;
        assert |others| >= 1;
      }
      if other :| other != u && (other, admin.value) in s.bindings {
        assert (other, admin.value) in others;
      }
    }
  }

  /** Exactly which users there are after an operation. */
  lemma UsersExactly(s: Store, op: Op, u: int)
    ensures u in Apply(s, op).users <==> Creates(s, op, u) || (u in s.users && !Removes(s, op, u))
  {
    if op.DeleteOwnAccount? {
      OnlyAdminExact(s, op.user, op.adminRole);
    }
  }

  /** Exactly which roles: new ones are no system roles, and only those can go. */
  lemma RolesExactly(s: Store, op: Op, r: int)
    ensures r in Apply(s, op).roles <==> op == CreateRole(r) || (r in s.roles && !(op == DeleteRole(r) && !s.roles[r]))
    ensures r in Apply(s, op).roles ==> Apply(s, op).roles[r] == (r in s.roles && s.roles[r])
  {
  }

  /**
   * Exactly which role each user holds: an accepted role list replaces the user's roles, and a user or a role takes its
   * bindings along when it goes.
   */
  lemma HoldsExactly(s: Store, op: Op, u: int, r: int)
    ensures (u, r) in Apply(s, op).bindings <==>
            if Creates(s, op, u) then r in op.roleIds || (u, r) in s.bindings
            else if op.UpdateUser? && op.user == u && u in s.users && op.newRoles.Some? && Givable(s, op.newRoles.value)
            then r in op.newRoles.value
            else (u, r) in s.bindings && !Removes(s, op, u) && !(op == DeleteRole(r) && r in s.roles && !s.roles[r])
  {
    if op.DeleteOwnAccount? {
      OnlyAdminExact(s, op.user, op.adminRole);
    }
  }

  /** The rows that an operation appends to the audit log, in their order. */
  ghost predicate Appends(s: Store, op: Op, rows: seq<AuditEvent>) {
    match op
    case CreateUser(u, ids) =>
      if Creates(s, op, u) then rows == Assigned(u, Elements(ids)) + [UserCreated(u)] else rows == []
    case UpdateUser(u, None) => if u in s.users then rows == [UserUpdated(u)] else rows == []
    case UpdateUser(u, Some(ids)) =>
      if u in s.users && Givable(s, ids) then rows == Changes(u, RolesOf(s, u), Elements(ids)) + [UserUpdated(u)]
      else rows == []
    case DeleteUser(u) => if Removes(s, op, u) then rows == [UserDeleted(u)] else rows == []
    case DeleteOwnAccount(u, _) => if Removes(s, op, u) then rows == [UserDeleted(u)] else rows == []
    case CreateRole(r) => if r in s.roles then rows == [] else rows == [RoleCreated(r)]
    case DeleteRole(r) => if r in s.roles && !s.roles[r] then rows == [RoleDeleted(r)] else rows == []
  }

  lemma LogExactly(s: Store, op: Op)
    ensures exists rows :: Apply(s, op).log == s.log + rows && Appends(s, op, rows)
  {
    if op.DeleteOwnAccount? {
      OnlyAdminExact(s, op.user, op.adminRole);
    }
    var t := Apply(s, op);
    var rows := t.log[|s.log|..];
    assert t.log == s.log + rows;
    assert Appends(s, op, rows);
  }

  lemma {:induction false} RunsCompose(s: Store, a: seq<Op>, b: seq<Op>)
    ensures RunAll(s, a + b) == RunAll(RunAll(s, a), b)
  {
    if b == [] {
      assert a + b == a;
    } else {
      assert (a + b)[..|a + b| - 1] == a + b[..|b| - 1];
      RunsCompose(s, a, b[..|b| - 1]);
    }
  }

  lemma RunOne(s: Store, op: Op)
    ensures RunAll(s, [op]) == Apply(s, op)
  {
    assert [op][..0] == [];
  }

  // ---------------------------------------------------------------- the handlers

  class RoleStore {
    var users: set<int>
    var roles: map<int, bool>
    var bindings: set<(int, int)>
    var log: seq<AuditEvent>

    constructor (s: Store)
      ensures Contents() == s
    {
      users, roles, bindings, log := s.users, s.roles, s.bindings, s.log;
    }

    function Contents(): Store
      reads this
    {
      Store(users, roles, bindings, log)
    }

    /** Inserts one binding row per listed role; fails on a repeated key or a missing role. */
    method InsertBindings(user: int, roleIds: seq<int>) returns (ok: bool)
      requires forall b | b in bindings :: b.0 != user
      modifies this`bindings
      ensures ok <==> Insertable(old(Contents()), roleIds)
      ensures ok ==> bindings == old(bindings) + BindAll(user, Elements(roleIds))
    {
      for i := 0 to |roleIds|
        invariant Distinct(roleIds[..i]) && forall r | r in roleIds[..i] :: r in roles
        invariant bindings == old(bindings) + BindAll(user, Elements(roleIds[..i]))
      {
        var role := roleIds[i];
        assert roleIds[..i + 1] == roleIds[..i] + [role];
        if role !in roles || (user, role) in bindings {
          assert roleIds[i] in roleIds;
          if (user, role) in bindings {
            assert role in roleIds[..i];
          }
          return false;
        }
        bindings := bindings + {(user, role)};
        assert Elements(roleIds[..i + 1]) == Elements(roleIds[..i]) + {role};
      }
      assert roleIds[..|roleIds|] == roleIds;
      return true;
    }

    method LogAssigned(user: int, changed: set<int>)
      modifies this`log
      ensures log == old(log) + Assigned(user, changed)
    {
      var order := InOrder(changed);
      for i := 0 to |order|
        invariant log == old(log) + Assigned(user, changed)[..i]
      {
        log := log + [RoleAssigned(order[i], user)];
      }
    }

    method LogUnassigned(user: int, changed: set<int>)
      modifies this`log
      ensures log == old(log) + Unassigned(user, changed)
    {
      var order := InOrder(changed);
      for i := 0 to |order|
        invariant log == old(log) + Unassigned(user, changed)[..i]
      {
        log := log + [RoleUnassigned(order[i], user)];
      }
    }

    method LogChanges(user: int, was: set<int>, now: set<int>)
      modifies this`log
      ensures log == old(log) + Changes(user, was, now)
    {
      LogUnassigned(user, was - now);
      LogAssigned(user, now - was);
    }

    method Create(user: int, roleIds: seq<int>) returns (ok: bool)
      requires Referential(Contents())
      modifies this
      ensures Contents() == Apply(old(Contents()), CreateUser(user, roleIds))
      ensures ok <==> Accepted(old(Contents()), CreateUser(user, roleIds))
    {
      if user in users {
        return false;
      }
      var before := Contents();
      users := users + {user};
      ok := InsertBindings(user, roleIds);
      if !ok {
        users, bindings := before.users, before.bindings;
        return;
      }
      LogAssigned(user, Elements(roleIds));
      log := log + [UserCreated(user)];
    }

    method Update(user: int, newRoles: Option<seq<int>>) returns (ok: bool)
      modifies this
      ensures Contents() == Apply(old(Contents()), UpdateUser(user, newRoles))
      ensures ok <==> Accepted(old(Contents()), UpdateUser(user, newRoles))
    {
      if user !in users {
        return false;
      }
      if newRoles.Some? {
        ok := ReplaceRoles(user, newRoles.value);
        if !ok {
          return;
        }
      }
      log := log + [UserUpdated(user)];
      return true;
    }

    /** Deletes a user's bindings, inserts the new ones and logs the difference; rolls back if an insert fails. */
    method ReplaceRoles(user: int, roleIds: seq<int>) returns (ok: bool)
      modifies this`bindings, this`log
      ensures ok <==> Insertable(old(Contents()), roleIds)
      ensures !ok ==> Contents() == old(Contents())
      ensures ok ==> bindings == WithoutUserRows(old(bindings), user) + BindAll(user, Elements(roleIds))
      ensures ok ==> log == old(log) + Changes(user, RolesOf(old(Contents()), user), Elements(roleIds))
    {
      var before := bindings;
      var was := RolesOf(Contents(), user);
      bindings := WithoutUserRows(bindings, user);
      ok := InsertBindings(user, roleIds);
      if !ok {
        bindings := before;
        return;
      }
      LogChanges(user, was, Elements(roleIds));
    }

    method Delete(user: int) returns (ok: bool)
      modifies this
      ensures Contents() == Apply(old(Contents()), DeleteUser(user))
      ensures ok <==> Accepted(old(Contents()), DeleteUser(user))
    {
      if user !in users {
        return false;
      }
      users := users - {user};
      bindings := WithoutUserRows(bindings, user);
      log := log + [UserDeleted(user)];
      return true;
    }

    method DeleteOwn(user: int, admin: Option<int>) returns (ok: bool)
      modifies this
      ensures Contents() == Apply(old(Contents()), DeleteOwnAccount(user, admin))
      ensures ok <==> Accepted(old(Contents()), DeleteOwnAccount(user, admin))
    {
      if user !in users {
        return false;
      }
      if admin.Some? && (user, admin.value) in bindings {
        var admins := |RoleRows(bindings, admin.value)|;
        if admins == 1 {
          return false;
        }
      }
      ok := Delete(user);
    }

    method AddRole(role: int) returns (ok: bool)
      modifies this
      ensures Contents() == Apply(old(Contents()), CreateRole(role))
      ensures ok <==> Accepted(old(Contents()), CreateRole(role))
    {
      if role in roles {
        return false;
      }
      roles := roles[role := false];
      log := log + [RoleCreated(role)];
      return true;
    }

    method RemoveRole(role: int) returns (ok: bool)
      modifies this
      ensures Contents() == Apply(old(Contents()), DeleteRole(role))
      ensures ok <==> Accepted(old(Contents()), DeleteRole(role))
    {
      if role !in roles || roles[role] {
        return false;
      }
      roles := roles - {role};
      bindings := WithoutRoleRows(bindings, role);
      log := log + [RoleDeleted(role)];
      return true;
    }
  }
}
