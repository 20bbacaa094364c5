/** Role permissions: one writer that splits the list over two tables, and the readers that join them again. */
module RolePermissions {
  import opened Common
  import opened Ordering
  import opened Strings

  const APP: string := "app."
  const WILDCARD: string := "app.*"

  /** `role_permissions`, `role_app_permissions` and `user_roles`, grouped by role and by user. */
  datatype Store = Store(regular: map<int, seq<string>>, apps: map<int, seq<string>>, userRoles: map<int, set<int>>)

  // ------------------------------------------------------------------ writing

  /** The permissions that stay in `role_permissions`. */
  function RegularOf(perms: seq<string>): seq<string> {
    if perms == [] then []
    else
      var n := |perms| - 1;
      RegularOf(perms[..n]) + if StartsWith(perms[n], APP) then [] else [perms[n]]
  }

  /** The app names that go to `role_app_permissions`. */
  function AppsOf(perms: seq<string>): seq<string> {
    if perms == [] then []
    else
      var n := |perms| - 1;
      AppsOf(perms[..n]) + if StartsWith(perms[n], APP) then [perms[n][|APP|..]] else []
  }

  datatype Op =
    | CreateRole(role: int, names: seq<string>)
    | SetPermissions(role: int, perms: seq<string>)
    | SetApps(role: int, names: seq<string>)
    | DeleteRole(role: int)
    | SetUserRoles(user: int, roles: set<int>)

  /** The unique indexes on both tables refuse a repeated row, and the transaction rolls back. */
  predicate Accepted(s: Store, op: Op) {
    match op
    case CreateRole(role, names) => role !in s.regular && Distinct(names)
    case SetPermissions(role, perms) => role in s.regular && Distinct(RegularOf(perms)) && Distinct(AppsOf(perms))
    case SetApps(role, names) => role in s.regular && Distinct(names)
    case DeleteRole(role) => role in s.regular
    case SetUserRoles(user, roles) => roles <= s.regular.Keys
  }

  function Apply(s: Store, op: Op): Store {
    if !Accepted(s, op) then s else
    match op
    case CreateRole(role, names) => s.(regular := s.regular[role := []], apps := s.apps[role := names])
    case SetPermissions(role, perms) =>
      s.(regular := s.regular[role := RegularOf(perms)], apps := s.apps[role := AppsOf(perms)])
    case SetApps(role, names) => s.(apps := s.apps[role := names])
    case DeleteRole(role) =>
      s.(regular := s.regular - {role}, apps := s.apps - {role},
         userRoles := map u | u in s.userRoles :: s.userRoles[u] - {role})
    case SetUserRoles(user, roles) => s.(userRoles := s.userRoles[user := roles])
  }

  function RunAll(s: Store, ops: seq<Op>): Store {
    if ops == [] then s else Apply(RunAll(s, ops[..|ops| - 1]), ops[|ops| - 1])
  }

  /** Rows belong to existing roles, and the only regular permission that starts with "app." is the wildcard. */
  ghost predicate Inv(s: Store) {
    && s.apps.Keys == s.regular.Keys
    && (forall u | u in s.userRoles :: s.userRoles[u] <= s.regular.Keys)
    && (forall r, p | r in s.regular && p in s.regular[r] && StartsWith(p, APP) :: p == WILDCARD)
  }

  lemma {:induction false} RegularHasNoApps(perms: seq<string>)
    ensures forall p :: p in RegularOf(perms) <==> p in perms && !StartsWith(p, APP)
    ensures forall a :: a in AppsOf(perms) <==> APP + a in perms
  {
    if perms != [] {
      var n := |perms| - 1;
      RegularHasNoApps(perms[..n]);
      var last := perms[n];
      assert perms == perms[..n] + [last];
      forall a ensures a in AppsOf(perms) <==> APP + a in perms {
        if StartsWith(last, APP) {
          assert last == APP + last[|APP|..];
        }
        if APP + a == last {
          assert StartsWith(last, APP) && last[|APP|..] == a;
        }
      }
    }
  }

  /** No handler ever stores another "app." permission in the regular table. */
  lemma {:induction false} InvHolds(s0: Store, ops: seq<Op>)
    requires Inv(s0)
    ensures Inv(RunAll(s0, ops))
  {
    if ops != [] {
      var op := ops[|ops| - 1];
      InvHolds(s0, ops[..|ops| - 1]);
      if op.SetPermissions? {
        RegularHasNoApps(op.perms);
      }
    }
  }

  // ------------------------------------------------------------------- the seed

  const ADMIN_PERMISSIONS: seq<string> := [
    "app.*", "apps.view", "apps.install", "apps.delete", "apps.restart", "storage.view", "storage.write",
    "storage.delete", "storage.download", "logs.view", "monitoring.view", "networking.view", "networking.manage",
    "users.view", "users.manage", "users.reset_password", "roles.view", "roles.manage", "settings.view",
    "settings.manage", "vpn.view", "vpn.manage", "audit.view", "audit.manage"
  ]
  const VIEWER_PERMISSIONS: seq<string> := ["apps.view", "logs.view", "monitoring.view", "storage.view", "storage.download"]
  const VIEWER_APPS: seq<string> := ["jellyfin", "jellyseerr"]
  const DOWNLOADER_PERMISSIONS: seq<string> := ["apps.view", "apps.restart", "storage.view", "storage.download"]
  const DOWNLOADER_APPS: seq<string> := [
    "qbittorrent", "transmission", "deluge", "rutorrent", "sabnzbd", "jackett", "prowlarr"
  ]

  /** The tables after the seeding migration, for the ids that the three roles were given. */
  function Seed(admin: int, viewer: int, downloader: int): Store {
    Store(map[admin := ADMIN_PERMISSIONS, viewer := VIEWER_PERMISSIONS, downloader := DOWNLOADER_PERMISSIONS],
          map[admin := [], viewer := VIEWER_APPS, downloader := DOWNLOADER_APPS], map[])
  }

  /** The first and the fourth character tell "app." from every other seeded name. */
  lemma SeedNames(p: string)
    requires p in ADMIN_PERMISSIONS || p in VIEWER_PERMISSIONS || p in DOWNLOADER_PERMISSIONS
    ensures p == WILDCARD || (|p| > 3 && (p[0] != 'a' || p[3] != '.'))
  {
  }

  lemma SeedInv(admin: int, viewer: int, downloader: int)
    requires admin != viewer && admin != downloader && viewer != downloader
    ensures Inv(Seed(admin, viewer, downloader))
  {
    var s := Seed(admin, viewer, downloader);
    forall r, p | r in s.regular && p in s.regular[r] && StartsWith(p, APP) ensures p == WILDCARD {
      SeedNames(p);
      assert p[0] == APP[0] == 'a' && p[3] == APP[3] == '.';
    }
  }

  /** From the seed, in every reachable state, the only regular permission that starts with "app." is the wildcard. */
  lemma SeededInvHolds(admin: int, viewer: int, downloader: int, ops: seq<Op>)
    requires admin != viewer && admin != downloader && viewer != downloader
    ensures Inv(RunAll(Seed(admin, viewer, downloader), ops))
  {
    SeedInv(admin, viewer, downloader);
    InvHolds(Seed(admin, viewer, downloader), ops);
  }

  // ---------------------------------------------------------------- reading back

  function Prefixed(names: seq<string>): seq<string> {
    seq(|names|, i requires 0 <= i < |names| => APP + names[i])
  }

  /** The permissions field of `get_role_with_apps`. */
  function ReadBack(s: Store, role: int): seq<string>
    requires role in s.regular && role in s.apps
  {
    s.regular[role] + Prefixed(s.apps[role])
  }

  lemma {:induction false} SplitKeepsAll(perms: seq<string>)
    ensures multiset(RegularOf(perms)) + multiset(Prefixed(AppsOf(perms))) == multiset(perms)
  {
    if perms != [] {
      var n := |perms| - 1;
      var last := perms[n];
      SplitKeepsAll(perms[..n]);
      assert multiset(perms) == multiset(perms[..n]) + multiset{last} by {
        assert perms == perms[..n] + [last];
      }
      if StartsWith(last, APP) {
        SplitApp(perms);
      } else {
        SplitRegular(perms);
      }
    }
  }

  lemma SplitApp(perms: seq<string>)
    requires perms != [] && StartsWith(perms[|perms| - 1], APP)
    ensures var n := |perms| - 1;
      && RegularOf(perms) == RegularOf(perms[..n])
      && multiset(Prefixed(AppsOf(perms))) == multiset(Prefixed(AppsOf(perms[..n]))) + multiset{perms[n]}
  {
    var n := |perms| - 1;
    assert perms[n] == APP + perms[n][|APP|..];
    assert Prefixed(AppsOf(perms)) == Prefixed(AppsOf(perms[..n])) + [perms[n]];
  }

  lemma SplitRegular(perms: seq<string>)
    requires perms != [] && !StartsWith(perms[|perms| - 1], APP)
    ensures var n := |perms| - 1;
      && AppsOf(perms) == AppsOf(perms[..n])
      && multiset(RegularOf(perms)) == multiset(RegularOf(perms[..n])) + multiset{perms[n]}
  {
    var n := |perms| - 1;
    assert RegularOf(perms) == RegularOf(perms[..n]) + [perms[n]];
  }

  lemma {:induction false} DistinctSplits(perms: seq<string>)
    ensures Distinct(perms) <==> Distinct(RegularOf(perms)) && Distinct(AppsOf(perms))
  {
    if perms != [] {
      var n := |perms| - 1;
      var last := perms[n];
      var front := perms[..n];
      DistinctSplits(front);
      RegularHasNoApps(front);
      assert perms == front + [last];
      DistinctSnoc(front, last);
      if StartsWith(last, APP) {
        var name := last[|APP|..];
        assert last == APP + name;
        DistinctSnoc(AppsOf(front), name);
        assert AppsOf(perms) == AppsOf(front) + [name] && RegularOf(perms) == RegularOf(front);
      } else {
        assert RegularOf(perms) == RegularOf(front) + [last] && AppsOf(perms) == AppsOf(front);
        DistinctSnoc(RegularOf(front), last);
      }
    }
  }

  lemma DistinctSnoc(s: seq<string>, x: string)
    ensures Distinct(s + [x]) <==> Distinct(s) && x !in s
  {
    var t := s + [x];
    if Distinct(t) {
      forall i | 0 <= i < |s| ensures s[i] != x {
        assert t[i] == s[i] && t[|s|] == x;
      }
      forall i, j | 0 <= i < j < |s| ensures s[i] != s[j] {
        assert t[i] == s[i] && t[j] == s[j];
      }
    }
  }

  /** A permission list is stored exactly when it has no repetition, and then reads back as itself, in some order. */
  lemma PermissionsRoundTrip(s: Store, role: int, perms: seq<string>)
    requires Inv(s)
    ensures Accepted(s, SetPermissions(role, perms)) <==> role in s.regular && Distinct(perms)
    ensures var t := Apply(s, SetPermissions(role, perms));
      role in s.regular && Distinct(perms) ==>
        role in t.regular && role in t.apps && multiset(ReadBack(t, role)) == multiset(perms)
  {
    DistinctSplits(perms);
    SplitKeepsAll(perms);
  }

  /** The endpoint that lists only the regular table returns what was set exactly when no app was granted. */
  lemma RegularTableAlone(s: Store, role: int, perms: seq<string>)
    requires Accepted(s, SetPermissions(role, perms))
    ensures var t := Apply(s, SetPermissions(role, perms));
      (forall p :: p in t.regular[role] <==> p in perms) <==> (forall p | p in perms :: !StartsWith(p, APP))
  {
    RegularHasNoApps(perms);
  }

  /** A granted app that the regular table does not show. */
  lemma RegularTableMissesApps()
    ensures var s := Store(map[1 := []], map[1 := []], map[]);
      var written := SetPermissions(1, ["apps.view", "app.jellyfin"]);
      Accepted(s, written) && "app.jellyfin" !in Apply(s, written).regular[1] && "app.jellyfin" in ReadBack(Apply(s, written), 1)
  {
    var s := Store(map[1 := []], map[1 := []], map[]);
    var perms := ["apps.view", "app.jellyfin"];
    assert perms[0] != perms[1] && Distinct(perms);
    DistinctSplits(perms);
    RegularHasNoApps(perms);
    assert StartsWith(perms[1], APP) && perms[1] in perms;
    assert perms[1] == APP + "jellyfin";
    PrefixedExact(AppsOf(perms), "jellyfin");
  }

  // ------------------------------------------------------ what each operation decides

  /** Both tables keep the order of the list. */
  lemma {:induction false} SplitConcat(a: seq<string>, b: seq<string>)
    ensures RegularOf(a + b) == RegularOf(a) + RegularOf(b)
    ensures AppsOf(a + b) == AppsOf(a) + AppsOf(b)
  {
    if b == [] {
      assert a + b == a;
    } else {
      var n := |b| - 1;
      assert (a + b)[..|a + b| - 1] == a + b[..n];
      SplitConcat(a, b[..n]);
    }
  }

  lemma SplitOne(p: string)
    ensures RegularOf([p]) == if |p| >= 4 && p[..4] == "app." then [] else [p]
    ensures AppsOf([p]) == if |p| >= 4 && p[..4] == "app." then [p[4..]] else []
  {
    assert [p][..0] == [];
  }

  ghost predicate NoRepeats(list: seq<string>) {
    forall i, j | 0 <= i < j < |list| :: list[i] != list[j]
  }

  /** The operation gives a role its whole list, and the list repeats nothing. */
  ghost predicate Lists(s: Store, op: Op, role: int) {
    op.SetPermissions? && op.role == role && role in s.regular && NoRepeats(op.perms)
  }

  ghost predicate Makes(s: Store, op: Op, role: int) {
    op.CreateRole? && op.role == role && role !in s.regular && NoRepeats(op.names)
  }

  ghost predicate GivesApps(s: Store, op: Op, role: int) {
    op.SetApps? && op.role == role && role in s.regular && NoRepeats(op.names)
  }

  /** Exactly which roles there are after an operation, and what stands in their two tables. */
  lemma TablesExactly(s: Store, op: Op, role: int)
    requires Inv(s)
    ensures var t := Apply(s, op);
      && (role in t.regular <==> (role in s.regular && op != DeleteRole(role)) || Makes(s, op, role))
      && (role in t.regular ==>
            t.regular[role] ==
              if Lists(s, op, role) then RegularOf(op.perms) else if Makes(s, op, role) then [] else s.regular[role])
    ensures var t := Apply(s, op);
      && t.apps.Keys == t.regular.Keys
      && (role in t.apps ==>
            t.apps[role] ==
              if Lists(s, op, role) then AppsOf(op.perms)
              else if Makes(s, op, role) || GivesApps(s, op, role) then op.names
              else s.apps[role])
  {
    if op.SetPermissions? {
      DistinctSplits(op.perms);
    }
  }

  /** Exactly which roles a user has after an operation: a list of existing roles replaces them, and deleted ones go. */
  lemma RolesExactly(s: Store, op: Op, user: int, role: int)
    ensures role in RolesOf(Apply(s, op), user) <==>
            if op.SetUserRoles? && op.user == user && forall r | r in op.roles :: r in s.regular then role in op.roles
            else role in RolesOf(s, user) && !(op == DeleteRole(role) && role in s.regular)
  {
    if op.SetUserRoles? {
      if forall r | r in op.roles :: r in s.regular {
        assert op.roles <= s.regular.Keys;
      } else {
        var r :| r in op.roles && r !in s.regular;
        assert r !in s.regular.Keys;
      }
    }
  }

  lemma {:induction false} RunsCompose(s: Store, a: seq<Op>, b: seq<Op>)
    ensures RunAll(s, a + b) == RunAll(RunAll(s, a), b)
  {
    if b == [] {
      assert a + b == a;
    } else {
      assert (a + b)[..|a + b| - 1] == a + b[..|b| - 1];
      RunsCompose(s, a, b[..|b| - 1]);
    }
  }

  lemma RunOne(s: Store, op: Op)
    ensures RunAll(s, [op]) == Apply(s, op)
  {
    assert [op][..0] == [];
  }

  // ------------------------------------------------------------------ readers

  function Insert(s: seq<string>, x: string): (r: seq<string>)
    ensures forall y :: y in r <==> y in s || y == x
  {
    if s == [] then [x]
    else
      assert s == [s[0]] + s[1..];
      if x == s[0] then s
      else if Before(x, s[0]) then [x] + s
      else [s[0]] + Insert(s[1..], x)
  }

  lemma {:induction false} InsertAscends(s: seq<string>, x: string)
    requires Sorted(s, Before)
    ensures Sorted(Insert(s, x), Before)
  {
    if s != [] {
      BeforeTotal(x, s[0]);
      if Before(x, s[0]) {
        forall i | 0 < i < |s| ensures Before(x, s[i]) {
          BeforeTransitive(x, s[0], s[i]);
        }
      } else if x != s[0] {
        InsertAscends(s[1..], x);
        var rest := Insert(s[1..], x);
        forall y | y in rest ensures Before(s[0], y) {
          if y != x {
            assert y in s[1..];
          }
        }
        var r := Insert(s, x);
        forall i, j | 0 <= i < j < |r| ensures Before(r[i], r[j]) {
          if i == 0 {
            assert r[j] == rest[j - 1] && rest[j - 1] in rest;
          } else {
            assert r[i] == rest[i - 1] && r[j] == rest[j - 1];
          }
        }
      }
    }
  }

  /** `sort` followed by `dedup`. */
  method SortDedup(list: seq<string>) returns (r: seq<string>)
    ensures Sorted(r, Before) && forall x :: x in r <==> x in list
  {
    r := [];
    for i := 0 to |list|
      invariant Sorted(r, Before) && forall x :: x in r <==> x in list[..i]
    {
      assert list[..i + 1] == list[..i] + [list[i]];
      InsertAscends(r, list[i]);
      r := Insert(r, list[i]);
    }
    assert list[..|list|] == list;
  }

  function RolesOf(s: Store, user: int): set<int> {
    if user in s.userRoles then s.userRoles[user] else {}
  }

  ghost predicate Holds(s: Store, user: int, p: string) {
    exists r | r in RolesOf(s, user) ::
      (r in s.regular && p in s.regular[r]) || (r in s.apps && p in Prefixed(s.apps[r]))
  }

  ghost predicate GrantedApp(s: Store, user: int, name: string) {
    exists r | r in RolesOf(s, user) :: r in s.apps && name in s.apps[r]
  }

  ghost predicate HasWildcardRow(s: Store, user: int) {
    exists r | r in RolesOf(s, user) :: r in s.regular && WILDCARD in s.regular[r]
  }

  /**
   * `get_user_permissions` and `fetch_user_permissions`: the rows of all of the user's roles. The program fetches them
   * with one query per table; the loop gathers them role by role.
   */
  method UserPermissions(s: Store, user: int) returns (perms: seq<string>)
    ensures Sorted(perms, Before) && forall p :: p in perms <==> Holds(s, user, p)
  {
    var todo := RolesOf(s, user);
    var list: seq<string> := [];
    while todo != {}
      invariant todo <= RolesOf(s, user)
      invariant forall p :: p in list <==> exists r | r in RolesOf(s, user) - todo ::
        (r in s.regular && p in s.regular[r]) || (r in s.apps && p in Prefixed(s.apps[r]))
      decreases |todo|
    {
      ghost var x := SomeMember(todo);
      var role :| role in todo;
      var rows := (if role in s.regular then s.regular[role] else []) + (if role in s.apps then Prefixed(s.apps[role]) else []);
      ghost var before := list;
      list := list + rows;
      assert forall p :: p in list <==> p in before || p in rows;
      assert RolesOf(s, user) - (todo - {role}) == (RolesOf(s, user) - todo) + {role};
      todo := todo - {role};
    }
    perms := SortDedup(list);
  }

  /** `get_user_app_access`. */
  method UserAppAccess(s: Store, user: int) returns (names: seq<string>)
    ensures HasWildcardRow(s, user) ==> names == ["*"]
    ensures !HasWildcardRow(s, user) ==> Sorted(names, Before) && forall a :: a in names <==> GrantedApp(s, user, a)
  {
    if exists r :: r in RolesOf(s, user) && r in s.regular && WILDCARD in s.regular[r] {
      return ["*"];
    }
    var todo := RolesOf(s, user);
    var list: seq<string> := [];
    while todo != {}
      invariant todo <= RolesOf(s, user)
      invariant forall a :: a in list <==> exists r | r in RolesOf(s, user) - todo :: r in s.apps && a in s.apps[r]
      decreases |todo|
    {
      ghost var x := SomeMember(todo);
      var role :| role in todo;
      var rows := if role in s.apps then s.apps[role] else [];
      ghost var before := list;
      list := list + rows;
      assert forall p :: p in list <==> p in before || p in rows;
      assert RolesOf(s, user) - (todo - {role}) == (RolesOf(s, user) - todo) + {role};
      todo := todo - {role};
    }
    names := SortDedup(list);
  }

  /** `has_app_access` over a permission list. */
  predicate HasAppAccess(perms: seq<string>, app: string) {
    WILDCARD in perms || APP + app in perms
  }

  lemma PrefixedExact(names: seq<string>, a: string)
    ensures APP + a in Prefixed(names) <==> a in names
  {
    if a in names {
      var i :| 0 <= i < |names| && names[i] == a;
      assert Prefixed(names)[i] == APP + a;
    }
    if APP + a in Prefixed(names) {
      var i :| 0 <= i < |names| && Prefixed(names)[i] == APP + a;
      assert (APP + names[i])[|APP|..] == names[i] && (APP + a)[|APP|..] == a;
    }
  }

  /**
   * Whatever the two readers return, they agree: the permission list lets a user into an app exactly when the
   * access list contains a star or the app's name.
   */
  lemma ReadersAgree(s: Store, user: int, app: string, perms: seq<string>, names: seq<string>)
    requires Inv(s)
    requires forall p :: p in perms <==> Holds(s, user, p)
    requires HasWildcardRow(s, user) ==> names == ["*"]
    requires !HasWildcardRow(s, user) ==> forall a :: a in names <==> GrantedApp(s, user, a)
    ensures HasAppAccess(perms, app) <==> "*" in names || app in names
  {
    assert APP + "*" == WILDCARD;
    HoldsExact(s, user, "*");
    HoldsExact(s, user, app);
  }

  /** From the seed, the readers agree in every reachable state, for every user and app. */
  lemma SeededReadersAgree(
    admin: int, viewer: int, downloader: int, ops: seq<Op>, user: int, app: string, perms: seq<string>, names: seq<string>)
    requires admin != viewer && admin != downloader && viewer != downloader
    requires var s := RunAll(Seed(admin, viewer, downloader), ops);
      && (forall p :: p in perms <==> Holds(s, user, p))
      && (HasWildcardRow(s, user) ==> names == ["*"])
      && (!HasWildcardRow(s, user) ==> forall a :: a in names <==> GrantedApp(s, user, a))
    ensures HasAppAccess(perms, app) <==> "*" in names || app in names
  {
    SeededInvHolds(admin, viewer, downloader, ops);
    ReadersAgree(RunAll(Seed(admin, viewer, downloader), ops), user, app, perms, names);
  }

  /** Holding an "app." permission means the wildcard row or the grant itself. */
  lemma HoldsExact(s: Store, user: int, a: string)
    requires Inv(s)
    ensures Holds(s, user, APP + a) <==> (a == "*" && HasWildcardRow(s, user)) || GrantedApp(s, user, a)
  {
    assert APP + "*" == WILDCARD;
    forall r | r in s.apps ensures APP + a in Prefixed(s.apps[r]) <==> a in s.apps[r] {
      PrefixedExact(s.apps[r], a);
    }
    if Holds(s, user, APP + a) {
      var r :| r in RolesOf(s, user) &&
        ((r in s.regular && APP + a in s.regular[r]) || (r in s.apps && APP + a in Prefixed(s.apps[r])));
      if r in s.regular && APP + a in s.regular[r] {
        assert StartsWith(APP + a, APP);
        assert (APP + a)[|APP|..] == a && WILDCARD[|APP|..] == "*";
      }
    }
  }

  // ---------------------------------------------------------------- the handlers

  class PermissionStore {
    var regular: map<int, seq<string>>
    var apps: map<int, seq<string>>
    var userRoles: map<int, set<int>>

    constructor (s: Store)
      ensures Contents() == s
    {
      regular, apps, userRoles := s.regular, s.apps, s.userRoles;
    }

    function Contents(): Store
      reads this
    {
      Store(regular, apps, userRoles)
    }

    /** Inserts rows one by one; the unique index refuses a repetition. */
    static method InsertRows(rows: seq<string>) returns (ok: bool, table: seq<string>)
      ensures ok <==> Distinct(rows)
      ensures ok ==> table == rows
    {
      table := [];
      for i := 0 to |rows|
        invariant table == rows[..i] && Distinct(rows[..i])
      {
        if rows[i] in table {
          var k :| 0 <= k < i && rows[k] == rows[i];
          return false, [];
        }
        assert rows[..i + 1] == rows[..i] + [rows[i]];
        DistinctSnoc(rows[..i], rows[i]);
        table := table + [rows[i]];
      }
      assert rows[..|rows|] == rows;
      ok := true;
    }

    method SetRolePermissions(role: int, perms: seq<string>) returns (ok: bool)
      modifies this
      ensures Contents() == Apply(old(Contents()), SetPermissions(role, perms))
      ensures ok <==> Accepted(old(Contents()), SetPermissions(role, perms))
    {
      if role !in regular {
        return false;
      }
      var plain: seq<string>, names: seq<string> := [], [];
      for i := 0 to |perms|
        invariant plain == RegularOf(perms[..i]) && names == AppsOf(perms[..i])
      {
        assert perms[..i + 1][..i] == perms[..i];
        if StartsWith(perms[i], APP) {
          names := names + [perms[i][|APP|..]];
        } else {
          plain := plain + [perms[i]];
        }
      }
      assert perms[..|perms|] == perms;
      var plainOk, plainRows := InsertRows(plain);
      var namesOk, nameRows := InsertRows(names);
      ok := plainOk && namesOk;
      if ok {
        regular, apps := regular[role := plainRows], apps[role := nameRows];
      }
    }

    method SetRoleApps(role: int, names: seq<string>) returns (ok: bool)
      modifies this
      ensures Contents() == Apply(old(Contents()), SetApps(role, names))
      ensures ok <==> Accepted(old(Contents()), SetApps(role, names))
    {
      if role !in regular {
        return false;
      }
      var rows;
      ok, rows := InsertRows(names);
      if ok {
        apps := apps[role := rows];
      }
    }

    method AddRole(role: int, names: seq<string>) returns (ok: bool)
      modifies this
      ensures Contents() == Apply(old(Contents()), CreateRole(role, names))
      ensures ok <==> Accepted(old(Contents()), CreateRole(role, names))
    {
      if role in regular {
        return false;
      }
      var rows;
      ok, rows := InsertRows(names);
      if ok {
        regular, apps := regular[role := []], apps[role := rows];
      }
    }
  }
}
