# Kubarr: verified model of the deep endpoint logic

Kubarr is a dashboard and gateway for self-hosted apps on Kubernetes. This project models the parts of its API
server (Rust) and of its TransIP DNS webhook (Go) that carry real obligations, and proves what they keep.

- **Host transfer** (`TransferCodec`, `HostTransfer`, `TransferProtocol`, `TransferExample`): a signed-in session moves
  to an app's own host through a one-shot ticket row. The codec, the handlers on their tables, and any interleaving of
  completions with sign-ins, new tickets, logouts, revocations and administration.
- **Registration** (`Registration`, `RegistrationResults`, `RegistrationHandler`, `RegistrationSettings`): concurrent
  registrations that compete for invites inside transactions.
- **Roles** (`RoleAudit`, `RolePermissions`): the audit log that rebuilds the live bindings, and one permission writer
  with three readers that must agree.
- **Two-factor** (`TwoFactor`): enrolment and recovery, paid for with eight codes.
- **Domains and routes** (`Domains`, `Routes`): references, primary flags, and the agreement between ticket targets and
  the gateway.
- **Logs** (`LogQuery`, `LogStreams`): the LogQL to LogsQL translation and the grouping of lines into streams.
- **Traffic** (`FlowTotals`, `FlowSeries`, `Topology`): sums, series and graph edges made from metric rows.
- **GPUs** (`GpuMetrics`): the join of value and timestamp queries.
- **Storage** (`StorageUsage`): the recursive usage scan.
- **DNS challenges** (`DnsZone`): whole-zone edits with an in-place filter.

`Common`, `Ordering` and `Strings` hold options, ordered traversal and the string primitives of both standard
libraries. `dafny verify dfyconfig.toml` checks everything.

## Reading the model

Tables are finite maps, sequences or sets; a handler is one step (`Apply`) and a run is a list of steps (`RunAll`), and
each class method is proved equal to its step. The two compare-and-set protocols are written statement by statement
(`Next`, `Run`), down to each query: reads see committed rows, and an update or delete of a row waits for the
transaction that holds it.
What the program asks of the outside world is a parameter and every theorem holds for all of its values: the
classifier of flow destinations, the regular expression engine, password and code checks, Unicode lower-casing (of
which only its agreement with ASCII lower-casing, and that it leaves no ASCII capital, is used where stated).

The code does not keep everything its checks and comments suggest. Each such case is proved with its condition and an
input:

- Domain validation asks dynamic DNS domains for a profile, but deleting a profile that only domains use clears it
  (`Domains.DynamicProfileExact`, `Domains.UsedDdnsCanBeDeleted`).
- A LogQL literal that starts with a tilde, or a value that holds " AND ", changes its meaning in translation
  (`LogQuery.MeaningExact`, `LogQuery.ReadBackExact`, `LogQuery.TildeCollides`, `LogQuery.SeparatorCollides`).
- A ticket's permission and assignment are read query by query after the commit: undisturbed, the answer is what the
  commit's database says; otherwise a token can be issued that no state allows (`TransferProtocol.UndisturbedAccess`,
  `TransferProtocol.AccessNeverTogether`, `TransferExample.SampleNeverTogether`).
- A registration's two settings are read one after the other: whether registration was still open when the approval
  setting was read is decided by the changes in between (`RegistrationSettings.OpenAtApproval`, `RegistrationSettings.OpenNeverFree`).
- A domain request for the primary flag clears the old flags before its row is written; a dangling reference then leaves
  no domain primary (`Domains.RefusedChanges`, `Domains.PrimaryCanBeLost`).
- Log lines whose names hold slashes can appear under another line's labels (`LogStreams.FaithfulExactly`,
  `LogStreams.SlashesCollide`).
- The graph is said to draw one edge per pair, but it can hold an edge together with its reverse, and byte rates are
  then counted twice (`Topology.MergedTwinFree`, `Topology.TwinsCountTwice`, `Topology.RepliesMakeTwins`); bytes to the
  local network are drawn on the internet's node although flows use a node of its own (`Topology.LanBytesMoved`,
  `Topology.LanEdgesRight`, `Topology.LanBytesOnInternetEdge`).
- The endpoint that lists a role's permissions reads one of the two tables only (`RolePermissions.RegularTableAlone`,
  `RolePermissions.RegularTableMissesApps`).

## Model

| member | source | states |
|---|---|---|
| `TransferCodec.AppNameExact` | code/api/src/endpoints/auth.rs:155-160 | app names are the non-empty texts of lower-case letters, digits and hyphens |
| `TransferCodec.HostnameExact` | code/api/src/endpoints/auth.rs:162-174 | host names are labels joined by dots, up to 253 characters, each of 1 to 63 letters, digits and hyphens with no hyphen at its ends |
| `TransferCodec.UuidExact` | code/api/src/endpoints/auth.rs:141-153 | session ids are five groups of 8, 4, 4, 4 and 12 lower-case hexadecimal digits with hyphens between |
| `TransferCodec.PortExact` | code/api/src/endpoints/auth.rs:176-189 | a port is a decimal number from 1 to 65535, with or without a plus sign |
| `TransferCodec.SourceOfMetadata` | code/api/src/endpoints/auth.rs:136-153 | parsing printed ticket text returns the app and session at the target host and nothing at any other host |
| `TransferCodec.MetadataOfSource` | code/api/src/endpoints/auth.rs:141-153 | text is accepted only if it is exactly what the printer writes for a valid host, app and canonical UUID |
| `TransferCodec.MetadataFits` | code/api/src/endpoints/auth.rs:135-139 | the 255-character column refuses exactly the hosts and apps of more than 203 characters together |
| `TransferCodec.RequestHostExact` | code/api/src/endpoints/auth.rs:176-189 | every letter case of a valid host, with no port or one in 1..65535, is read as the lower-case host and that port |
| `TransferCodec.RequestHostOnly` | code/api/src/endpoints/auth.rs:176-189 | nothing else is read: an accepted header is such a spelling |
| `Routes.TargetIsAssignmentHost` | code/api/src/endpoints/auth.rs:191-208 | whenever a ticket target exists, the gateway computes the same host for the assignment |
| `Routes.TargetExact` | code/api/src/endpoints/auth.rs:191-208 | a ticket can be issued for a host exactly when row and domain are enabled host routes and the host is the typed name, or has it as a label before the labels of the domain, and is valid |
| `Routes.NormalizeHostExact` | code/api/src/endpoints/proxy.rs:198-200 | a valid host with any port is looked up under its lower-case form |
| `Routes.PathMatchesSegments` | code/api/src/endpoints/proxy.rs:213-215 | a prefix matches on whole path segments only, in both directions |
| `Routes.NormalizePathExact` | code/api/src/endpoints/proxy.rs:202-211 | the query is cut off, spaces around the path go, and a slash is put in front when there is none |
| `Routes.HostMatchesLabels` | code/api/src/endpoints/proxy.rs:193-196 | a host belongs to a domain exactly when the domain's labels end the host's labels |
| `Routes.StripPathRebuilds` | code/api/src/endpoints/proxy.rs:217-227 | the slash-trimmed prefix followed by the target path is the request path, or the target is "/" |
| `Routes.TryRow` | code/api/src/endpoints/proxy.rs:134-168 | one turn of the resolver loop contributes exactly the row's route |
| `Routes.RouteExact` | code/api/src/endpoints/proxy.rs:134-168 | a row answers exactly when its domain is enabled and, for path rows, the labels of the domain end those of the host and the segments of the prefix open the path, which prefix and target rebuild; for host rows, the host is the typed one; other modes never answer |
| `Routes.FirstMatch` | code/api/src/endpoints/proxy.rs:134-172 | the loop stops at the first row that has a route, and runs through exactly when none has |
| `Routes.Resolve` | code/api/src/endpoints/proxy.rs:120-173 | the resolver returns the route of the first enabled row that has one, and none exactly when no row has one |
| `Routes.ResolveExact` | code/api/src/endpoints/proxy.rs:120-173 | the answer read off the table: the route of the first enabled row on an enabled domain that serves host and path in that sense, and none exactly when no row does |
| `Routes.FirstRouteUnique` | code/api/src/endpoints/proxy.rs:120-173 | that answer is unique |
| `Routes.ServedByOwnRow` | code/api/src/endpoints/proxy.rs:150-158 | a row serves its own ticket target, on any port and path, exactly when the target is lower case |
| `Routes.TransferTargetIsServed` | code/api/src/endpoints/proxy.rs:120-191 | on a lower-case domain, a request for any ticket target finds a route |
| `HostTransfer.ChooseHost` | code/api/src/endpoints/auth.rs:256-268 | the loop picks the first primary host, or else the first host |
| `HostTransfer.ChosenHostExact` | code/api/src/endpoints/auth.rs:256-268 | a host is chosen exactly when some live row has one: that of the first primary row with a host, or of the first row with one when no primary row has any |
| `HostTransfer.AllowsIsPermission` | code/api/src/endpoints/extractors.rs:9-47 | the role rows open an app exactly when the user's permission list holds the wildcard or the app |
| `HostTransfer.OpensExact` | code/api/src/endpoints/extractors.rs:9-47 | a permission row opens exactly the app that it names, or all apps under the wildcard, in either table |
| `HostTransfer.CheckTicketExact` | code/api/src/endpoints/auth.rs:327-337 | a row passes for a ticket exactly when it carries the printed text for this host, names another session, and is unspent and in time |
| `HostTransfer.StartExact` | code/api/src/endpoints/auth.rs:222-292 | a ticket for a host is written exactly when header, session, account and permission are in order, the app goes to that host, it is not the presented one, and the text fits; it is one row with that text and 45 seconds, and nothing else ever changes |
| `HostTransfer.StayExact` | code/api/src/endpoints/auth.rs:256-275 | the request stays exactly when it is in order and the app has no host or has the presented one |
| `HostTransfer.CompleteExact` | code/api/src/endpoints/auth.rs:326-380 | the session is carried over exactly when ticket, session, account, permission and host rows are all in order; the ticket is wasted exactly when only permission or host is missing; otherwise nothing changes |
| `HostTransfer.StartedRow` | code/api/src/endpoints/auth.rs:222-292 | a successful start writes one fresh row with the printed text and a 45 second lifetime, for a live user whose claim is authorised |
| `HostTransfer.StartedTicketAccepted` | code/api/src/endpoints/auth.rs:222-380 | with nothing changed in between, a ticket is accepted exactly at its host within its lifetime while its session lives; elsewhere it is refused and stays unspent |
| `HostTransfer.SpentTicketRefused` | code/api/src/endpoints/auth.rs:335-346 | a completion that spent its ticket makes every later one at any host a refusal without effect |
| `HostTransfer.Backend.StartTransfer` | code/api/src/endpoints/auth.rs:222-292 | the handler on the tables is the specified start |
| `HostTransfer.Backend.CompleteTransfer` | code/api/src/endpoints/auth.rs:315-381 | the handler, with its roll-backs, is the specified completion |
| `HostTransfer.Backend.Authorize` | code/api/src/endpoints/auth.rs:358-380 | the loop accepts exactly when permission and some current assignment grant the host |
| `TransferProtocol.Reachable` | code/api/src/endpoints/auth.rs:326-357 | in every interleaving, a ticket row held by a transaction is present, unspent and held once, and the history matches the requests |
| `TransferProtocol.AtMostOnce` | code/api/src/endpoints/auth.rs:338-357 | in every interleaving a ticket is committed by at most one request and issues at most one token |
| `TransferProtocol.TokenProvenance` | code/api/src/endpoints/auth.rs:327-377 | every token carries a session other than its ticket; the rows of ticket, session, account, role, permission, assignment and domain each were as the code asks when their own query read them |
| `TransferProtocol.UndisturbedAccess` | code/api/src/endpoints/auth.rs:357-380 | when no assignment, domain or permission changes after the commit, a request is let through only if permission and host were granted together at that commit, and, unless its connection ends, refused only if they were not |
| `TransferProtocol.AccessNeverTogether` | code/api/src/endpoints/auth.rs:326-381 | without that condition there is a run from an initial database, arrival to token, no state of which grants permission and host together |
| `TransferExample.SampleNeverTogether` | code/api/src/endpoints/auth.rs:326-381 | a concrete initial database with such a run |
| `TransferProtocol.CommittedExactly` | code/api/src/endpoints/auth.rs:357 | a request is in the history of commits exactly when its commit happened |
| `TransferProtocol.FailureChangesNothing` | code/api/src/endpoints/auth.rs:326-356 | a completion that fails before its commit changed the database in none of its steps |
| `TransferProtocol.FailureAfterCommit` | code/api/src/endpoints/auth.rs:357-380 | a completion that fails after its commit leaves the ticket spent and no token for it, in every continuation |
| `TransferProtocol.FailedForGood` | code/api/src/endpoints/auth.rs:326-380 | a failed request never changes again, whatever else happens |
| `TransferProtocol.AloneIsComplete` | code/api/src/endpoints/auth.rs:326-381 | the queries of a request that nobody interferes with are the handler |
| `TransferProtocol.AloneIsRun` | code/api/src/endpoints/auth.rs:326-381 | that uninterrupted request is a run of the protocol, of its own statements only |
| `TransferProtocol.WaitsExactly` | code/api/src/endpoints/auth.rs:338-346 | a completion waits exactly at its conditional update, for a transaction that holds the row of its ticket |
| `TransferProtocol.AbandonExactly` | code/api/src/endpoints/auth.rs:326-380 | a connection can end at any statement until the request has ended, and a spent ticket stays spent |
| `TransferProtocol.OutsideExactly` | code/api/src/endpoints/auth.rs:326-380 | what the rest of the system can do between two statements, when, and to what effect on each table |
| `Registration.Reachable` | code/api/src/endpoints/auth.rs:563-666 | the invariants over accounts, invites and history hold in every interleaving |
| `RegistrationResults.InvitesConserved` | code/api/src/endpoints/auth.rs:619-636 | invites and invited accounts match one to one; an invite is used exactly when it was before or was consumed, names its account, and invited accounts are approved |
| `RegistrationResults.LosersLeaveNothing` | code/api/src/endpoints/auth.rs:602-666 | the audit rows are exactly those of the commits in order, names stay unique, a request that has not committed has no entry, and an account held pending is not in the table |
| `RegistrationResults.CommittedExactly` | code/api/src/endpoints/auth.rs:663 | a request has an entry in the history exactly when its commit happened |
| `RegistrationResults.FailureChangesNothing` | code/api/src/endpoints/auth.rs:563-663 | a registration that ends refused, without its invite or abandoned changed accounts, invites, audit log and history in none of its steps |
| `RegistrationResults.AccountOrigins` | code/api/src/endpoints/auth.rs:602-663 | every account is an earlier one, one added otherwise, or has the names of one committed registration and the approval of its entry |
| `RegistrationResults.AccountProvenance` | code/api/src/endpoints/auth.rs:564-612 | an invited account read an invite row with its code, unused and not expired; any other first read that registration is open and then the approval setting, and is approved exactly when approval was not required at that second moment |
| `RegistrationResults.InviteReadExact` | code/api/src/endpoints/auth.rs:579-590 | the query finds the one invite with the code, and the request goes on exactly with an unused one that has not expired |
| `RegistrationSettings.OpenAtApproval` | code/api/src/endpoints/auth.rs:564-573 | every uninvited account comes from a query that found registration open and a later one that read the approval setting it went by; registration was open at that second query exactly when no change in between left it closed, and both settings held at both queries when nobody changed them |
| `RegistrationSettings.OpenNeverFree` | code/api/src/endpoints/auth.rs:564-573 | without that condition there is a run from an initial database that approves an account although registration was open without approval in no state of it |
| `RegistrationHandler.Accounts.TakeInvite` | code/api/src/endpoints/auth.rs:620-631 | the conditional update changes the invite row exactly while it is present and unused |
| `RegistrationHandler.Accounts.AddAccount` | code/api/src/endpoints/auth.rs:563-669 | the handler on the tables is the specified registration |
| `RegistrationHandler.RegisterExact` | code/api/src/endpoints/auth.rs:563-669 | an account is created exactly when registration is open or the invite row is unused and in time, and both names are free; the account, the used invite and the audit rows are given field by field, and a refusal changes nothing |
| `RegistrationHandler.AloneIsRegister` | code/api/src/endpoints/auth.rs:563-666 | the steps of a registration that nobody interferes with are the handler |
| `RegistrationHandler.AloneIsRun` | code/api/src/endpoints/auth.rs:563-666 | that uninterrupted request is a run of the protocol, of its own statements only |
| `RegistrationHandler.AbandonExactly` | code/api/src/endpoints/auth.rs:563-666 | a transaction can roll back at any statement until it has ended |
| `RegistrationResults.WaitsExactly` | code/api/src/endpoints/auth.rs:602-635 | a registration waits exactly for an account being created under its name or address, and for one that has taken its invite |
| `RegistrationResults.OutsideExactly` | code/api/src/endpoints/auth.rs:563-666 | what the rest of the system can do between two statements, when, and to what effect on each table |
| `RegistrationResults.SecondTakerFails` | code/api/src/endpoints/auth.rs:619-635 | the next step of a request whose invite has been consumed is its failure |
| `RegistrationResults.LoserNeverCommits` | code/api/src/endpoints/auth.rs:619-663 | a request whose invite was consumed while it waited never commits, in any continuation of any run |
| `RoleAudit.ReplayDifference` | code/api/src/endpoints/users.rs:813-834 | replaying the two difference lists turns one role set of a user into the other and touches nobody else |
| `RoleAudit.ReplayExact` | code/api/src/endpoints/users.rs:781-845 | in every reachable state, replaying the audit log from the initial bindings gives the live table exactly |
| `RoleAudit.BindingsStayReferential` | code/api/src/migrations/m20260226_000003_create_user_roles.rs:26-37 | bindings never outlive their user or role |
| `RoleAudit.UsersExactly` | code/api/src/endpoints/users.rs:669-977 | exactly which users there are after any operation; the only administrator cannot delete themselves |
| `RoleAudit.RolesExactly` | code/api/src/endpoints/roles.rs:203-360 | exactly which roles there are after any operation; new ones are no system roles, and system roles stay |
| `RoleAudit.HoldsExactly` | code/api/src/endpoints/users.rs:669-977 | exactly which role each user holds after any operation: an accepted list replaces the roles, and users and roles take their bindings along |
| `RoleAudit.LogExactly` | code/api/src/endpoints/users.rs:669-977 | exactly which audit rows any operation appends |
| `RoleAudit.OwnDeletionKeepsAnAdmin` | code/api/src/endpoints/users.rs:447-474 | an administrator who deletes their own account leaves another one behind |
| `RoleAudit.RoleStore.InsertBindings` | code/api/src/endpoints/users.rs:673-679 | rows go in exactly when the list repeats no role and names existing ones |
| `RoleAudit.RoleStore.LogChanges` | code/api/src/endpoints/users.rs:813-834 | the audit rows are the two set differences in ascending order |
| `RoleAudit.RoleStore.Create` | code/api/src/endpoints/users.rs:669-707 | creation, including its roll-back, is the specified step |
| `RoleAudit.RoleStore.ReplaceRoles` | code/api/src/endpoints/users.rs:795-834 | a replaced role list takes effect as a whole or leaves bindings and log alone |
| `RoleAudit.RoleStore.Update` | code/api/src/endpoints/users.rs:781-845 | an update is the specified step |
| `RoleAudit.RoleStore.Delete` | code/api/src/endpoints/users.rs:966-977 | deletion removes the user with all bindings and logs it |
| `RoleAudit.RoleStore.DeleteOwn` | code/api/src/endpoints/users.rs:447-488 | self-deletion is refused exactly to the only administrator |
| `RoleAudit.RoleStore.AddRole` | code/api/src/endpoints/roles.rs:203-254 | a new role adds itself and one audit row |
| `RoleAudit.RoleStore.RemoveRole` | code/api/src/endpoints/roles.rs:337-360 | deleting a non-system role removes its bindings and logs it |
| `RolePermissions.InvHolds` | code/api/src/endpoints/roles.rs:231-251 | no handler ever stores another regular permission that starts with "app." than "app.*" |
| `RolePermissions.SeededInvHolds` | code/api/src/migrations/m20260226_000018_seed_defaults.rs:60-174 | from the seed, in every reachable state the only regular permission that starts with "app." is "app.*" |
| `RolePermissions.PermissionsRoundTrip` | code/api/src/endpoints/roles.rs:613-668 | a permission list is stored exactly when it repeats nothing, and then reads back as itself up to order |
| `RolePermissions.TablesExactly` | code/api/src/endpoints/roles.rs:203-668 | exactly what stands in both tables for each role after any operation |
| `RolePermissions.RolesExactly` | code/api/src/endpoints/users.rs:795-834 | exactly which roles each user has after any operation |
| `RolePermissions.RegularTableAlone` | code/api/src/endpoints/roles.rs:568-587 | reading only the regular table returns what was set exactly when no app was granted |
| `RolePermissions.RegularTableMissesApps` | code/api/src/endpoints/roles.rs:568-587 | a stored list with a granted app that the regular table does not return |
| `RolePermissions.SortDedup` | code/api/src/endpoints/extractors.rs:43-46 | sort and dedup leave the members once each in ascending order |
| `RolePermissions.UserPermissions` | code/api/src/endpoints/extractors.rs:9-47 | the list holds exactly what the user's roles grant, sorted |
| `RolePermissions.UserAppAccess` | code/api/src/endpoints/extractors.rs:51-90 | the answer is a single star when a role has the wildcard, and otherwise exactly the granted apps, sorted |
| `RolePermissions.HoldsExact` | code/api/src/middleware/auth.rs:202-246 | holding an "app." permission means the wildcard row or the grant itself |
| `RolePermissions.ReadersAgree` | code/api/src/middleware/auth.rs:45-49 | the permission list opens an app exactly when the access list has a star or the app |
| `RolePermissions.SeededReadersAgree` | code/api/src/middleware/auth.rs:45-49 | from the seed, in every reachable state, the two readers open the same apps for every user |
| `RolePermissions.PermissionStore.SetRolePermissions` | code/api/src/endpoints/roles.rs:613-668 | the splitting loop with its unique indexes is the specified write |
| `RolePermissions.PermissionStore.SetRoleApps` | code/api/src/endpoints/roles.rs:384-411 | setting apps is the specified write |
| `RolePermissions.PermissionStore.AddRole` | code/api/src/endpoints/roles.rs:231-251 | creating a role is the specified write |
| `TwoFactor.InvHolds` | code/api/src/endpoints/users.rs:1357-1504 | in every run, enabled means a secret and an unused code, and disabled means no codes |
| `TwoFactor.OthersUntouched` | code/api/src/endpoints/users.rs:1398-1415 | an operation leaves the codes and account of every other user alone |
| `TwoFactor.EnabledExactly` | code/api/src/endpoints/users.rs:1357-1504 | two-factor is on after an operation exactly when a right code with a stored secret turned it on, or it was on and neither password, last code nor removal ended it |
| `TwoFactor.SecretExactly` | code/api/src/endpoints/users.rs:1298-1332 | the secret is what setup stored while two-factor was off, and goes when it is turned off |
| `TwoFactor.CodesExactly` | code/api/src/endpoints/users.rs:1398-1504 | exactly which code rows there are after any operation: which go, which one is marked, and which hashes are added under which ids |
| `TwoFactor.CodesCountDown` | code/api/src/endpoints/auth.rs:1419-1434 | while enabled, unused codes are the eight issued less the recoveries since |
| `TwoFactor.EighthRecoveryDisables` | code/api/src/endpoints/auth.rs:1419-1450 | a recovery spends one code, and exactly the eighth since enabling switches two-factor off and removes all codes |
| `TwoFactor.TwoFactorStore.SetUp` | code/api/src/endpoints/users.rs:1298-1332 | setup is the specified step |
| `TwoFactor.TwoFactorStore.SwitchOn` | code/api/src/endpoints/users.rs:1357-1420 | enabling replaces all codes by the new ones |
| `TwoFactor.TwoFactorStore.InsertCodes` | code/api/src/endpoints/users.rs:1406-1415 | the loop inserts one unused row per hash under fresh ids |
| `TwoFactor.TwoFactorStore.SwitchOff` | code/api/src/endpoints/users.rs:1444-1504 | disabling is the specified step, refused where a role requires two-factor |
| `TwoFactor.TwoFactorStore.RecoverWithCode` | code/api/src/endpoints/auth.rs:1392-1450 | the first unused code that verifies is spent; nothing changes when none verifies |
| `Domains.InvHolds` | code/api/src/endpoints/domains.rs:421-594 | in every reachable state no reference dangles, names are unique, at most one domain and one assignment per app is primary, and routes are well formed |
| `Domains.DomainExactly` | code/api/src/endpoints/domains.rs:421-494 | exactly which domains there are after any operation and every field of each row |
| `Domains.ProfileExactly` | code/api/src/endpoints/domains.rs:312-387 | exactly which certificate profiles there are after any operation, and their rows |
| `Domains.DdnsExactly` | code/api/src/endpoints/domains.rs:199-279 | exactly which dynamic DNS profiles there are after any operation, and their rows |
| `Domains.AssignmentExactly` | code/api/src/endpoints/domains.rs:528-605 | exactly which assignments there are after any operation and every field of each row |
| `Domains.AcceptedExactly` | code/api/src/endpoints/domains.rs:199-605 | a handler answers with success exactly when its row is written or free to go |
| `Domains.DomainNameExact` | code/api/src/endpoints/domains.rs:903-913 | a typed domain loses spaces, an http or https scheme and everything from the first slash, and is put in lower case |
| `Domains.PrefixExact` | code/api/src/endpoints/domains.rs:915-922 | a typed prefix loses spaces and slashes at its ends and gets one slash in front |
| `Domains.NormalizedName` | code/api/src/endpoints/domains.rs:903-913 | a stored name holds no capital letter and no slash, whatever was typed |
| `Domains.NamesStayLower` | code/api/src/endpoints/domains.rs:421-484 | stored domain names are lower case in every reachable state |
| `Domains.TicketHostsStayServed` | code/api/src/endpoints/proxy.rs:120-191 | in every reachable state, a request for any host that a ticket can be issued for finds a route |
| `Domains.DynamicProfileExact` | code/api/src/endpoints/domains.rs:261-279 | a dynamic DNS domain keeps its profile through every handler except the deletion of a profile that only domains use |
| `Domains.UsedDdnsCanBeDeleted` | code/api/src/endpoints/domains.rs:261-279 | a state in which that deletion breaks what domain validation asked for |
| `Domains.RefusedChanges` | code/api/src/endpoints/domains.rs:429-484 | a refused operation leaves everything as it was, except exactly a valid primary domain request with a dangling reference while some domain is primary: then no domain is primary any more and nothing else changed |
| `Domains.PrimaryCanBeLost` | code/api/src/endpoints/domains.rs:456-484 | a primary domain that a refused update leaves without the flag |
| `Domains.DomainStore.ClearPrimaryDomain` | code/api/src/endpoints/domains.rs:866-878 | the loop clears the flag on every domain and changes nothing else |
| `Domains.DomainStore.ClearPrimaryAssignment` | code/api/src/endpoints/domains.rs:880-893 | the loop clears the flag on every assignment of one app and changes nothing else |
| `Domains.DomainStore.PutDomain` | code/api/src/endpoints/domains.rs:429-452 | primaries are cleared first; a dangling reference makes only the write fail, and success is answered exactly without one |
| `Domains.DomainStore.AddDomain` | code/api/src/endpoints/domains.rs:421-454 | creation is the specified step and succeeds exactly for a new, valid row without a dangling reference |
| `Domains.DomainStore.ReplaceDomain` | code/api/src/endpoints/domains.rs:456-484 | update is the specified step and succeeds exactly for a present, valid row without a dangling reference |
| `Domains.DomainStore.RemoveDomain` | code/api/src/endpoints/domains.rs:487-494 | deletion cascades to the domain's assignments |
| `Domains.DomainStore.AddProfile` | code/api/src/endpoints/domains.rs:312-337 | creating a certificate profile is the specified step and succeeds exactly for a new, valid one whose DDNS profile exists |
| `Domains.DomainStore.ReplaceProfile` | code/api/src/endpoints/domains.rs:340-362 | updating a certificate profile is the specified step and succeeds exactly for a present, valid one whose DDNS profile exists |
| `Domains.DomainStore.RemoveProfile` | code/api/src/endpoints/domains.rs:369-387 | deletion is refused exactly while a domain names the profile |
| `Domains.DomainStore.RemoveDdns` | code/api/src/endpoints/domains.rs:261-279 | deletion is refused exactly while a certificate profile names it, and clears the reference in domains |
| `Domains.DomainStore.PutAssignment` | code/api/src/endpoints/domains.rs:814-863 | validation, clearing and writing are the specified step |
| `Domains.DomainStore.AddAssignment` | code/api/src/endpoints/domains.rs:528-560 | creation is the specified step and succeeds exactly for a new, valid row |
| `Domains.DomainStore.ReplaceAssignment` | code/api/src/endpoints/domains.rs:563-594 | update is the specified step and succeeds exactly for a present, valid row |
| `LogQuery.ConvertLokiToLogsql` | code/api/src/endpoints/logs.rs:559-604 | the loop computes the specified translation |
| `LogQuery.PartExact` | code/api/src/endpoints/logs.rs:576-593 | any part of a selector is a matcher exactly when it holds an operator: the first "=~" if there is one, otherwise the first "!=", otherwise the first "=", with what stands around it trimmed and unquoted |
| `LogQuery.SelectorConverted` | code/api/src/endpoints/logs.rs:568-600 | a printed selector, however spaced, becomes one conjunct per matcher in order, or a star when empty |
| `LogQuery.JoinedSeparable` | code/api/src/endpoints/logs.rs:600 | the joined text splits back into its conjuncts exactly when none can be mistaken for a separator |
| `LogQuery.ReadBackExact` | code/api/src/endpoints/logs.rs:568-600 | the output reads back as exactly the matchers, negated just for "!=", if and only if no value starts like a pattern or holds a separator |
| `LogQuery.MeaningPreserved` | code/api/src/endpoints/logs.rs:568-600 | when no value starts like a pattern or holds a separator, the output and the selector select the same streams for every label assignment |
| `LogQuery.MeaningExact` | code/api/src/endpoints/logs.rs:568-600 | for matchers on pairwise different labels the output means what the selector means exactly under that condition; otherwise some labels and engine tell them apart |
| `LogQuery.TildeCollides` | code/api/src/endpoints/logs.rs:580-592 | a literal that starts with a tilde becomes the pattern match of the rest |
| `LogQuery.SeparatorCollides` | code/api/src/endpoints/logs.rs:588-600 | an equality value that ends in a separator and a printed equality conjunct becomes two conjuncts |
| `LogQuery.FixedExactly` | code/api/src/endpoints/logs.rs:559-604 | exactly the non-empty trimmed texts that are not selectors are left alone |
| `LogQuery.TranslationStable` | code/api/src/endpoints/logs.rs:559-604 | translating a translated selector again changes nothing |
| `LogStreams.GroupLines` | code/api/src/endpoints/logs.rs:464-551 | the loop groups the parsed lines and counts them |
| `LogStreams.GroupExact` | code/api/src/endpoints/logs.rs:530-546 | a stream holds exactly its key's entries in order, under the labels of the first |
| `LogStreams.FaithfulExactly` | code/api/src/endpoints/logs.rs:489-538 | every line appears under its own labels exactly when no two label sets join to one key |
| `LogStreams.SlashFreeApart` | code/api/src/endpoints/logs.rs:489 | names without slashes never join to one key |
| `LogStreams.SlashesCollide` | code/api/src/endpoints/logs.rs:489 | two lines with slashes that collide |
| `LogStreams.TotalConserved` | code/api/src/endpoints/logs.rs:541-555 | the reported total is the number of entries over all streams |
| `FlowTotals.Totals.AbsorbTotals` | code/api/src/endpoints/networking.rs:1113-1129 | every class grows by the sum of its well-formed rows, in the one rate asked for, and nothing else changes |
| `FlowTotals.Totals.AbsorbClassBytes` | code/api/src/endpoints/networking.rs:1138-1151 | every class grows by the bytes of the rows that name it and nothing else changes |
| `FlowTotals.AbsorbRow` | code/api/src/endpoints/networking.rs:1222-1240 | a row changes its own app only, by its own value |
| `FlowTotals.AppsFromVm` | code/api/src/endpoints/networking.rs:1214-1255 | the result lists each app with a well-formed row once, in name order, with the sums of its own rows |
| `FlowTotals.AppsInExact` | code/api/src/endpoints/networking.rs:1222-1240 | an app is listed exactly when a row with a class and a value names it; rows without a source belong to "host" |
| `FlowTotals.SumsExact` | code/api/src/endpoints/networking.rs:1113-1151 | row by row, what a value adds: to the class of its destination, or to the class it names itself, once for its app and for all apps |
| `FlowTotals.BreakdownConservesFlow` | code/api/src/endpoints/networking.rs:1214-1255 | summed over apps the breakdown equals the class totals of the same rows, for flows and drops |
| `FlowTotals.SumOrderFree` | code/api/src/endpoints/networking.rs:1113-1129 | the order of the rows does not matter |
| `FlowSeries.SortSorts` | code/api/src/endpoints/networking.rs:1206 | the sort permutes the points into time order |
| `FlowSeries.MergePoints` | code/api/src/endpoints/networking.rs:1178-1207 | find-or-push and the sort compute the specified merge |
| `FlowSeries.MergeRefines` | code/api/src/endpoints/networking.rs:1178-1207 | merging keeps a series strictly sorted and is map addition at each timestamp |
| `FlowSeries.AddAllExact` | code/api/src/endpoints/networking.rs:1198-1205 | that addition keeps flows, gives new times none and adds up the values of each time |
| `FlowSeries.ByteRowsExact` | code/api/src/endpoints/networking.rs:1159-1176 | over any rows, the series of a class stays strictly sorted, keeps its flows and gains exactly the class's samples at each time |
| `FlowSeries.SamplesExact` | code/api/src/endpoints/networking.rs:1159-1297 | row by row, which samples count for a class: as flows by the destination, as bytes by the class name of the row |
| `FlowSeries.BytesConserved` | code/api/src/endpoints/networking.rs:1159-1176 | on any series total bytes grow by exactly the well-formed samples of the class |
| `FlowSeries.SeriesUnique` | code/api/src/endpoints/networking.rs:1206 | a strictly sorted series is determined by its map |
| `FlowSeries.AbsorbedExact` | code/api/src/endpoints/networking.rs:1263-1314 | a class that some row feeds is replaced by one point per sampled time with that time's sum; any other class stays |
| `FlowSeries.AbsorbedFromEmpty` | code/api/src/endpoints/networking.rs:1263-1314 | from an empty series the result is strictly sorted |
| `FlowSeries.BytesMeetFlows` | code/api/src/endpoints/networking.rs:1159-1314 | flow rows, classified by destination, and byte rows, named by the exporter, meet in one series of their class: each time carries the sum of both kinds of samples |
| `FlowSeries.CollectRows` | code/api/src/endpoints/networking.rs:1266-1297 | the loop collects the per-timestamp sums under the names of the classes |
| `FlowSeries.AddFlowSamples` | code/api/src/endpoints/networking.rs:1278-1296 | the inner loop computes the per-timestamp sums |
| `FlowSeries.Series.AbsorbByteSeries` | code/api/src/endpoints/networking.rs:1159-1169 | each class merges the rows that name it, storage stays |
| `FlowSeries.Series.AbsorbStorageSeries` | code/api/src/endpoints/networking.rs:1172-1176 | the storage series merges every row and nothing else changes |
| `FlowSeries.Series.AbsorbSeries` | code/api/src/endpoints/networking.rs:1263-1314 | each class is absorbed as specified, storage stays |
| `Topology.TargetsApart` | code/api/src/endpoints/networking.rs:1753-1766 | destinations share a node exactly when they share a non-cluster class, are both cluster identities, are the same namespace, or one is a namespace called like the other's shared node |
| `Topology.MergeObservedEdges` | code/api/src/endpoints/networking.rs:1832-1883 | the two loops compute the specified merge |
| `Topology.EdgeExact` | code/api/src/endpoints/networking.rs:1863-1879 | an edge keeps its service metadata, its rate grows by exactly its rows, it is observed when it was or a row counts for it, and a label it had stays |
| `Topology.GraphExact` | code/api/src/endpoints/networking.rs:1832-1883 | between two nodes there is an edge exactly when a service edge or a counting row connects them; the last service edge between them keeps all it had and gains the rates of the rows, or the edge is a new observed one with them |
| `Topology.LabelExact` | code/api/src/endpoints/networking.rs:1863-1879 | an edge without a label gets the rate that it has after its first row, and keeps that |
| `Topology.MergedSorted` | code/api/src/endpoints/networking.rs:1838-1841 | the result has one edge per pair of ends, in order |
| `Topology.FlowConserved` | code/api/src/endpoints/networking.rs:1832-1883 | the result carries the flow of the distinct service edges plus that of every row that counts |
| `Topology.DistinctServiceFlow` | code/api/src/endpoints/networking.rs:1838-1841 | when no two service edges share both ends, all of their flow is counted |
| `Topology.MergedOrderFree` | code/api/src/endpoints/networking.rs:1843-1880 | permuting the rows changes nothing but labels |
| `Topology.SumByPair` | code/api/src/endpoints/networking.rs:1799-1817 | the loop computes the directed sums |
| `Topology.PairsMakeLink` | code/api/src/endpoints/networking.rs:1819-1824 | forward and reverse sums together are the sum over the undirected link |
| `Topology.LinkSumExact` | code/api/src/endpoints/networking.rs:1779-1824 | the bytes of a link are those of the rows whose two names stand for its two ends: "internet" and "lan" for the outside, "host" for this host, any other name for the namespace of the pod with that address |
| `Topology.MergeEdgeBytes` | code/api/src/endpoints/networking.rs:1792-1830 | every edge gets exactly the bytes of all rows whose names stand for its two ends, when they add up to more than nothing; everything else stays |
| `Topology.SwapChangesNothing` | code/api/src/endpoints/networking.rs:1820-1824 | swapping the ends of every row weighs every edge the same |
| `Topology.CountedAtMostOnce` | code/api/src/endpoints/networking.rs:1819-1824 | without twin edges a row counts for at most one edge, and for one exactly when its link is drawn |
| `Topology.BytesCountedOnce` | code/api/src/endpoints/networking.rs:1819-1828 | without twin edges the link sums of the graph add up to the bytes of the drawn rows, each taken once |
| `Topology.TwinsCountTwice` | code/api/src/endpoints/networking.rs:1819-1828 | an edge present with its reverse takes every row on the link twice |
| `Topology.MergedTwinFree` | code/api/src/endpoints/networking.rs:1832-1883 | the merged graph has no twins exactly when no edge is drawn together with its reverse |
| `Topology.RepliesMakeTwins` | code/api/src/endpoints/networking.rs:1832-1883 | two apps that talk to each other give twins, and a byte row between them counts twice |
| `Topology.LanBytesMoved` | code/api/src/endpoints/networking.rs:1779-1785 | bytes between a node and the local network are missing on the edge that flows draw and are all on the internet's edge instead |
| `Topology.LanAndInternet` | code/api/src/endpoints/networking.rs:1779-1785 | between the two shared nodes, what is missing and what is drawn instead |
| `Topology.LanEdgesRight` | code/api/src/endpoints/networking.rs:1779-1785 | either edge weighs what it should exactly when the bytes exchanged with the local network add up to nothing |
| `Topology.LanEdgesGetNoBytes` | code/api/src/endpoints/networking.rs:1779-1785 | unless a pod belongs to a namespace called lan, the edges to the local network get no bytes at all |
| `Topology.LanBytesOnInternetEdge` | code/api/src/endpoints/networking.rs:1779-1785 | rows for which the flow edge to the local network gets nothing and the internet's edge gets the bytes |
| `GpuMetrics.BytesFit` | code/api/src/endpoints/monitoring.rs:445-446 | an accepted MiB value becomes its whole number of bytes, at most 2^64 - 2^20 |
| `GpuMetrics.AbsorbSeries` | code/api/src/endpoints/monitoring.rs:427-458 | the inner loop is the specified fold |
| `GpuMetrics.AssembleGpuMetrics` | code/api/src/endpoints/monitoring.rs:417-470 | the three passes and the final sum compute the specified records |
| `GpuMetrics.DevicesExact` | code/api/src/endpoints/monitoring.rs:417-470 | one record per reported device, with the last acceptable number of each kind for that device, and a total exactly when both parts are known and fit in 64 bits |
| `GpuMetrics.DevicesUnique` | code/api/src/endpoints/monitoring.rs:425-441 | devices are unique by node and device |
| `GpuMetrics.SampleExact` | code/api/src/endpoints/monitoring.rs:352-380 | a series counts for a device exactly when its trimmed labels name that node and GPU or MIG instance, and its value has a fresh time |
| `GpuMetrics.JoinExact` | code/api/src/endpoints/monitoring.rs:389-415 | a value is kept exactly when a timestamp series with the same labels, names apart, is fresh, and then carries the time of the last such series; order is kept |
| `GpuMetrics.NumbersTrace` | code/api/src/endpoints/monitoring.rs:389-415 | every number used was scraped for that very device between 120 seconds ago and 30 seconds ahead |
| `GpuMetrics.ReportSound` | code/api/src/endpoints/monitoring.rs:352-470 | from query results to report: utilisation, used memory and both parts of a total trace to fresh scrapes of the same device and stay in range |
| `GpuMetrics.TotalCanOverflow` | code/api/src/endpoints/monitoring.rs:460-467 | two legal readings whose sum does not fit, so a total can be absent |
| `GpuMetrics.DeviceNamesInjective` | code/api/src/endpoints/monitoring.rs:374-378 | while UUIDs and profiles hold no blank, a device name stands for one GPU or one MIG instance |
| `StorageUsage.Scan.Build` | code/api/src/endpoints/storage.rs:236-320 | the scan returns the specified tree and adds exactly its files, directories and warnings |
| `StorageUsage.Scan.BuildAll` | code/api/src/endpoints/storage.rs:296-298 | the loop over a listing |
| `StorageUsage.Scan.BuildEntry` | code/api/src/endpoints/storage.rs:296-298 | an entry that could not be read adds nothing |
| `StorageUsage.RankExact` | code/api/src/endpoints/storage.rs:300 | children are a permutation of the listing, larger first, then by name |
| `StorageUsage.SizeExact` | code/api/src/endpoints/storage.rs:301 | a node's size is that of every regular file the scan reaches beneath it |
| `StorageUsage.NothingUncounted` | code/api/src/endpoints/storage.rs:254-320 | files, directories, symlinks, unreadable entries and failed entries are together all there is, and there are as many warnings as symlinks, unreadable entries and closed directories |
| `StorageUsage.CountExact` | code/api/src/endpoints/storage.rs:254-320 | every counter is the number of places that hold a thing of its kind |
| `StorageUsage.WarningsExact` | code/api/src/endpoints/storage.rs:254-295 | the warnings name exactly the symlinks, unreadable entries and closed directories, by kind and by the names on the way to them, in scan order |
| `StorageUsage.AnswerLocated` | code/api/src/endpoints/storage.rs:242-320 | every node of the answer carries the path that the names on the way to it make, its own name or "Root", and its kind and size, and its children are nodes for entries of its directory |
| `StorageUsage.EveryEntryShown` | code/api/src/endpoints/storage.rs:296-320 | every entry that was read has its node in the answer |
| `StorageUsage.AnswerTidy` | code/api/src/endpoints/storage.rs:300-310 | throughout the answer, children are ranked and a directory is as large as its children |
| `StorageUsage.ChildrenExact` | code/api/src/endpoints/storage.rs:296-300 | a directory's children are the nodes of its readable entries, ranked |
| `DnsZone.FilterInPlace` | code/dns-webhook/main.go:124-130 | the in-place filter keeps exactly the entries that do not match, in order, and never writes at or past its result |
| `DnsZone.Zone.Present` | code/dns-webhook/main.go:95-103 | a TXT entry with the record and key and an expiry of 300 is appended exactly when the zone has no TXT entry with them |
| `DnsZone.Zone.CleanUp` | code/dns-webhook/main.go:121-134 | exactly the TXT entries with the record and key go, and the zone is written exactly when there was one |
| `DnsZone.BystandersSurvive` | code/dns-webhook/main.go:79-135 | over any run, every entry that no challenge is about keeps its content and order |
| `DnsZone.HoldsExactly` | code/dns-webhook/main.go:79-135 | after any run a challenge is in the zone exactly when it was presented last, or never touched and there before |
| `DnsZone.Idempotent` | code/dns-webhook/main.go:98-101 | a retried call changes nothing |
| `DnsZone.CleanCommutesWithRun` | code/dns-webhook/main.go:124-130 | cleaning up a challenge commutes with any run on other challenges |
| `DnsZone.CleanUpUndoesPresent` | code/dns-webhook/main.go:79-135 | presenting and cleaning up around a run on other challenges gives that run's zone, exactly when the challenge was absent before |
| `DnsZone.RecordNameExact` | code/dns-webhook/main.go:336-347 | a name is accepted exactly when it is the zone or ends in a dot and the zone, and its record names it |
| `DnsZone.RecordsApart` | code/dns-webhook/main.go:336-347 | two names share a record exactly when they are equal, or are the zone and "@." before it |

## Left out

- HTTP, Axum extractors, cookies as header text, OAuth, WebSockets, the VictoriaMetrics and Kubernetes clients, and DNS provider calls: I/O; their answers are inputs. A call that fails before it writes is no step.
- Serialised metric rows: a row is its labels and an optional parsed number; JSON shapes that the code skips are the absent number.
- Floating point: rates are reals, so rounding, NaN and infinities are not part of this model, and casts of timestamps to 64 bits are taken as done. File sizes are taken not to overflow 64 bits.
- The text of a ticket id in the query string: a ticket is its canonical UUID text, and freshness of generated ids is a condition.
- Strings: lengths count characters, which are bytes for the ASCII texts that the length checks accept. Lower-casing beyond ASCII is a parameter.
- Field checks of registration, its busy limit and password hashing: they refuse before the transaction starts.
- A failed query inside the permission reads counts as an empty answer in the program, which can only refuse more; in the model that refusal is the step `Abandon`.
- Transactions: read-committed visibility and row locks are how the protocols' steps are enabled; a serialization failure or a lock timeout is the step `Abandon`.
- Handlers other than ticket completion and registration are atomic steps; primary flags and two-factor counts under interleaving inside those handlers are not claimed.
- User deletions that a foreign key of another table refuses: `RoleAudit` lets them through, and a refused one changes nothing.
- The audit log is the whole log; retention clearing is not a step.
- Enumerated text columns (route mode, challenge, DNS and TLS mode) are enumerations; their textual checks are gone with them. The remaining columns of those rows are not part of the model.
- Uniqueness of host names over all assignments: rows in path mode skip the check, so it is not claimed.
- LogQuery.MeaningPreserved: reads LogsQL as conjuncts of `[NOT ]field:[~]value` joined by " AND " in which `field:value` is equality; VictoriaLogs matches words there, and its word splitting is not modelled. One regular expression engine stands for both languages, so that Loki anchors its patterns and VictoriaLogs does not is not modelled either.
- LogQuery.MeaningExact: for matchers on pairwise different labels only; matchers that contradict each other on one label select nothing, and so does every translation of them that never holds.
- LogStreams.GroupLines: the extraction of the message text from a line is taken as done, and streams are returned as a map because the program's order is unspecified.
- Topology.MergedOrderFree: says nothing about labels, because a label shows the first rate that was seen.
- FlowSeries.Series.AbsorbSeries: two calls do not add up, since the second replaces the classes it feeds; no such claim is made.
- The app manager, leader election, the pod cache, app storage, VPN services, the endpoint cache, rate smoothing and session slots: simpler members, or not part of the modelled files.
