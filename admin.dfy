/** AdminService: pushing every user's database role to the identity
    provider, and creating the realm roles the application needs. The
    identity provider's calls are parameters that report whether the call
    returned (true) or threw (false). */
module Admin {
  import opened Common
  import opened Tables
  import opened Users

  /** The outcome of one `syncUserRole(userId)`: whether it reported success,
      and the role assignment it asked the identity provider for, if any. */
  datatype SyncAttempt = SyncAttempt(ok: bool, call: Option<(Uuid, Role)>)

  /** `syncUserRole(userId)`. `assignRole` is `assignRoleToExistingUser`. */
  function SyncUserRole(users: seq<User>, userId: Uuid, assignRole: (Uuid, Role) -> bool): (r: SyncAttempt)
    ensures FindUserById(users, userId).None? ==> r == SyncAttempt(false, None)
    ensures FindUserById(users, userId).Some? ==>
              var role := FindUserById(users, userId).value.role;
              r.call == Some((userId, role)) && (r.ok <==> assignRole(userId, role))
  {
    match FindUserById(users, userId)
    case None => SyncAttempt(false, None)
    case Some(user) => SyncAttempt(assignRole(userId, user.role), Some((userId, user.role)))
  }

  /** `String.valueOf` of a nullable name. */
  function NameText(name: Option<string>): string {
    match name
    case Some(s) => s
    case None => "null"
  }

  /** How a user whose sync failed is listed: `name (id)`. */
  function FailedLabel(u: User): string {
    NameText(u.name) + " (" + u.id + ")"
  }

  /** The labels of the users of `rows` whose sync against the table `all` fails, in order. */
  function FailedLabels(rows: seq<User>, all: seq<User>, assignRole: (Uuid, Role) -> bool): (r: seq<string>)
    ensures |r| <= |rows|
  {
    if rows == [] then []
    else
      var n := |rows| - 1;
      FailedLabels(rows[..n], all, assignRole)
        + (if SyncUserRole(all, rows[n].id, assignRole).ok then [] else [FailedLabel(rows[n])])
  }

  /** The number of users of `rows` whose sync against `all` succeeds; the
      others are exactly the ones listed by `FailedLabels`. */
  function SucceededCount(rows: seq<User>, all: seq<User>, assignRole: (Uuid, Role) -> bool): (r: nat)
    ensures r + |FailedLabels(rows, all, assignRole)| == |rows|
  {
    if rows == [] then 0
    else
      var n := |rows| - 1;
      SucceededCount(rows[..n], all, assignRole) + (if SyncUserRole(all, rows[n].id, assignRole).ok then 1 else 0)
  }

  /** The outcomes of syncing the users of `rows` against the table `all`,
      one per user, in order. */
  function SyncAttempts(rows: seq<User>, all: seq<User>, assignRole: (Uuid, Role) -> bool): (r: seq<SyncAttempt>)
    ensures |r| == |rows|
    ensures forall i :: 0 <= i < |rows| ==> r[i] == SyncUserRole(all, rows[i].id, assignRole)
  {
    if rows == [] then []
    else
      var n := |rows| - 1;
      assert forall i :: 0 <= i < n ==> rows[..n][i] == rows[i];
      SyncAttempts(rows[..n], all, assignRole) + [SyncUserRole(all, rows[n].id, assignRole)]
  }

  /** What one more user adds to the running success count and failure list. */
  lemma SyncStep(all: seq<User>, i: nat, assignRole: (Uuid, Role) -> bool)
    requires i < |all|
    ensures SyncAttempts(all[..i + 1], all, assignRole)
         == SyncAttempts(all[..i], all, assignRole) + [SyncUserRole(all, all[i].id, assignRole)]
    ensures SucceededCount(all[..i + 1], all, assignRole)
         == SucceededCount(all[..i], all, assignRole) + (if SyncUserRole(all, all[i].id, assignRole).ok then 1 else 0)
    ensures FailedLabels(all[..i + 1], all, assignRole)
         == FailedLabels(all[..i], all, assignRole) + (if SyncUserRole(all, all[i].id, assignRole).ok then [] else [FailedLabel(all[i])])
  {
    var prefix := all[..i + 1];
    assert |prefix| - 1 == i && prefix[..i] == all[..i] && prefix[i] == all[i];
  }

  /** Syncing a user of the table always asks the identity provider for an
      assignment to that user's id; with unique ids, the role sent is the one
      stored in the user's own row. */
  lemma SyncSendsStoredRole(all: seq<User>, i: nat, assignRole: (Uuid, Role) -> bool)
    requires i < |all|
    ensures SyncUserRole(all, all[i].id, assignRole).call.Some?
    ensures SyncUserRole(all, all[i].id, assignRole).call.value.0 == all[i].id
    ensures UniqueIds(all) ==> SyncUserRole(all, all[i].id, assignRole).call == Some((all[i].id, all[i].role))
  {
    assert all[i].id == all[i].id;
    if UniqueIds(all) {
      FindUserByIdUnique(all, i);
    }
  }

  /** The map `syncAllUserRoles` returns. */
  datatype SyncReport = SyncReport(
    success: bool, totalUsers: nat, successCount: nat, failureCount: nat,
    failedUsers: seq<string>, message: string)

  function SyncMessage(total: nat, succeeded: nat, failed: nat): string {
    "Synced roles for " + Decimal(total) + " users. " + Decimal(succeeded) + " succeeded, " + Decimal(failed) + " failed."
  }

  /** `syncAllUserRoles()`: every user is attempted once, in table order;
      `attempts` are the outcomes of the `syncUserRole` calls. */
  method SyncAllUserRoles(users: UserTable, assignRole: (Uuid, Role) -> bool)
    returns (report: SyncReport, attempts: seq<SyncAttempt>)
    ensures report.success
    ensures report.totalUsers == |users.rows|
    ensures report.successCount + report.failureCount == report.totalUsers
    ensures report.successCount == SucceededCount(users.rows, users.rows, assignRole)
    ensures |report.failedUsers| == report.failureCount
    ensures report.failedUsers == FailedLabels(users.rows, users.rows, assignRole)
    ensures report.message == SyncMessage(report.totalUsers, report.successCount, report.failureCount)
    ensures attempts == SyncAttempts(users.rows, users.rows, assignRole)
  {
    var allUsers := users.rows;
    var successCount: nat := 0;
    var failureCount: nat := 0;
    var failedUsers: seq<string> := [];
    attempts := [];
    for i := 0 to |allUsers|
      invariant successCount + failureCount == i
      invariant successCount == SucceededCount(allUsers[..i], allUsers, assignRole)
      invariant failedUsers == FailedLabels(allUsers[..i], allUsers, assignRole)
      invariant |failedUsers| == failureCount
      invariant attempts == SyncAttempts(allUsers[..i], allUsers, assignRole)
    {
      var user := allUsers[i];
      SyncStep(allUsers, i, assignRole);
      var attempt := SyncUserRole(allUsers, user.id, assignRole);
      attempts := attempts + [attempt];
      if attempt.ok {
        successCount := successCount + 1;
      } else {
        failureCount := failureCount + 1;
        failedUsers := failedUsers + [FailedLabel(user)];
      }
    }
    assert allUsers[..|allUsers|] == allUsers;
    report := SyncReport(true, |allUsers|, successCount, failureCount, failedUsers,
                         SyncMessage(|allUsers|, successCount, failureCount));
  }

  // ------------------------------------------------------------- realm roles

  /** The roles `createRequiredRealmRoles` ensures exist, in this order. */
  const RequiredRoles: seq<string> := ["ROLE_ATTENDEE", "ROLE_ORGANIZER", "ROLE_STAFF"]

  /** `createRealmRoleIfNotExists(name)`: created, already there, or threw. */
  datatype RoleCreation = Created | AlreadyExisted | CreationFailed

  function HasOutcome(createRole: string -> RoleCreation, outcome: RoleCreation): string -> bool {
    (name: string) => createRole(name) == outcome
  }

  /** The three outcome lists of a run over `roles` split it: every name is
      listed under exactly one outcome, and together they are as long as `roles`. */
  lemma {:induction false} OutcomesPartition(roles: seq<string>, createRole: string -> RoleCreation)
    ensures var created := Filter(roles, HasOutcome(createRole, Created));
            var existing := Filter(roles, HasOutcome(createRole, AlreadyExisted));
            var failed := Filter(roles, HasOutcome(createRole, CreationFailed));
            && |created| + |existing| + |failed| == |roles|
            && (forall name :: name in roles ==>
                  || (name in created && name !in existing && name !in failed)
                  || (name !in created && name in existing && name !in failed)
                  || (name !in created && name !in existing && name in failed))
  {
    if roles != [] {
      var n := |roles| - 1;
      assert roles == roles[..n] + [roles[n]];
      OutcomesPartition(roles[..n], createRole);
      FilterAppend(roles[..n], roles[n], HasOutcome(createRole, Created));
      FilterAppend(roles[..n], roles[n], HasOutcome(createRole, AlreadyExisted));
      FilterAppend(roles[..n], roles[n], HasOutcome(createRole, CreationFailed));
    }
  }

  datatype RolesReport = RolesReport(
    success: bool, createdRoles: seq<string>, existingRoles: seq<string>, failedRoles: seq<string>, message: string)

  function RolesMessage(created: nat, existing: nat, failed: nat): string {
    "Created " + Decimal(created) + " roles, " + Decimal(existing) + " already existed, " + Decimal(failed) + " failed."
  }

  /** The three lists a run over `roles` builds, one role at a time: each
      name is appended to the list of its outcome. */
  function OutcomeLists(roles: seq<string>, createRole: string -> RoleCreation): (seq<string>, seq<string>, seq<string>) {
    if roles == [] then ([], [], [])
    else
      var n := |roles| - 1;
      var (created, existing, failed) := OutcomeLists(roles[..n], createRole);
      match createRole(roles[n])
      case Created => (created + [roles[n]], existing, failed)
      case AlreadyExisted => (created, existing + [roles[n]], failed)
      case CreationFailed => (created, existing, failed + [roles[n]])
  }

  /** The list of `outcome` among the three. */
  function ListOf(lists: (seq<string>, seq<string>, seq<string>), outcome: RoleCreation): seq<string> {
    match outcome
    case Created => lists.0
    case AlreadyExisted => lists.1
    case CreationFailed => lists.2
  }

  /** Each list built one role at a time is the role names filtered by its
      outcome, in their original order. */
  lemma {:induction false} OutcomeListIsFilter(roles: seq<string>, createRole: string -> RoleCreation, outcome: RoleCreation)
    ensures ListOf(OutcomeLists(roles, createRole), outcome) == Filter(roles, HasOutcome(createRole, outcome))
  {
    if roles != [] {
      var n := |roles| - 1;
      var front, last := roles[..n], roles[n];
      assert roles == front + [last];
      OutcomeListIsFilter(front, createRole, outcome);
      FilterAppend(front, last, HasOutcome(createRole, outcome));
    }
  }

  /** The loop of `createRequiredRealmRoles` over any list of role names. */
  method CreateRoles(roles: seq<string>, createRole: string -> RoleCreation)
    returns (createdRoles: seq<string>, existingRoles: seq<string>, failedRoles: seq<string>)
    ensures createdRoles == Filter(roles, HasOutcome(createRole, Created))
    ensures existingRoles == Filter(roles, HasOutcome(createRole, AlreadyExisted))
    ensures failedRoles == Filter(roles, HasOutcome(createRole, CreationFailed))
  {
    createdRoles, existingRoles, failedRoles := [], [], [];
    for i := 0 to |roles|
      invariant (createdRoles, existingRoles, failedRoles) == OutcomeLists(roles[..i], createRole)
    {
      var roleName := roles[i];
      assert roles[..i + 1][..i] == roles[..i];
      var outcome := createRole(roleName);
      if outcome == Created {
        createdRoles := createdRoles + [roleName];
      } else if outcome == AlreadyExisted {
        existingRoles := existingRoles + [roleName];
      } else {
        failedRoles := failedRoles + [roleName];
      }
    }
    assert roles[..|roles|] == roles;
    OutcomeListIsFilter(roles, createRole, Created);
    OutcomeListIsFilter(roles, createRole, AlreadyExisted);
    OutcomeListIsFilter(roles, createRole, CreationFailed);
  }

  /** `createRequiredRealmRoles()`: each required role is tried once, in
      order, and listed under its outcome. */
  method CreateRequiredRealmRoles(createRole: string -> RoleCreation) returns (report: RolesReport)
    ensures report.createdRoles == Filter(RequiredRoles, HasOutcome(createRole, Created))
    ensures report.existingRoles == Filter(RequiredRoles, HasOutcome(createRole, AlreadyExisted))
    ensures report.failedRoles == Filter(RequiredRoles, HasOutcome(createRole, CreationFailed))
    ensures forall name :: name in RequiredRoles ==>
              || (name in report.createdRoles && name !in report.existingRoles && name !in report.failedRoles)
              || (name !in report.createdRoles && name in report.existingRoles && name !in report.failedRoles)
              || (name !in report.createdRoles && name !in report.existingRoles && name in report.failedRoles)
    ensures |report.createdRoles| + |report.existingRoles| + |report.failedRoles| == |RequiredRoles|
    ensures report.success <==> report.failedRoles == []
    ensures report.message == RolesMessage(|report.createdRoles|, |report.existingRoles|, |report.failedRoles|)
  {
    var createdRoles, existingRoles, failedRoles := CreateRoles(RequiredRoles, createRole);
    OutcomesPartition(RequiredRoles, createRole);
    report := RolesReport(failedRoles == [], createdRoles, existingRoles, failedRoles,
                          RolesMessage(|createdRoles|, |existingRoles|, |failedRoles|));
  }
}
