/** The administrative routes backed by the document store: two permission
    gates, the request-body schemas as predicates, and nine handlers as store
    transitions. A handler either fails with an error tag, changing nothing,
    or returns the new store with its reply. The caller is the id the JWT
    middleware put on the request. */
module AdminRoutes {
  import opened Wrappers
  import opened AssocList
  import opened ApiErrors
  import opened RoleSchema
  import opened MongoStore
  import opened Requests
  import opened RoleMethods
  import Text
  import Seqs

  const CREDITS: string := "credits"
  const SET_CONTEXT: string := "admin_balance_set"
  const ADJUST_CONTEXT: string := "admin_balance_adjust"

  /** `requireAdminPermission`: the caller's role must set `ROLE_MANAGEMENT.UPDATE`. */
  predicate AdminPermission(s: Store, caller: string) {
    HasRoleManagementPermission(s, caller, UPDATE)
  }

  /** `requireBalancePermission`: the caller's role must set `BALANCE_MANAGEMENT.UPDATE`. */
  predicate BalancePermission(s: Store, caller: string) {
    HasBalanceManagementPermission(s, caller)
  }

  /** `updateBalanceSchema`: the new balance is not negative. */
  predicate ValidBalanceBody(b: BalanceBody) {
    b.balance >= 0
  }

  /** `createRoleSchema`: a non-empty name and in-range coefficients. */
  predicate ValidCreateRoleBody(b: CreateRoleBody) {
    |b.name| >= 1 && (b.modelAccess.Some? ==> ValidModelAccess(b.modelAccess.value))
  }

  /** `updateRoleSchema`: in-range coefficients. */
  predicate ValidRolePatch(p: RolePatch) {
    p.modelAccess.Some? ==> ValidModelAccess(p.modelAccess.value)
  }

  /** GET /users: every user with their balance, or 403. */
  function ListUsers(s: Store, caller: string): (r: Result<seq<UserView>, ApiError>)
    ensures r.Err? <==> !AdminPermission(s, caller)
    ensures r.Err? ==> r.error == InsufficientPermissions
    ensures r.Ok? ==> |r.value| == |s.users|
    ensures r.Ok? ==> forall i :: 0 <= i < |r.value| ==>
              r.value[i].user == s.users[i] && r.value[i].balance == CreditsOf(s, s.users[i].id)
  {
    if !AdminPermission(s, caller) then Err(InsufficientPermissions)
    else Ok(UsersWithBalances(s))
  }

  /** After a balance is set, the user list shows the new balance for that
      user and the old one for everybody else, to the same callers. */
  lemma ListUsersAfterSetBalance(s: Store, caller: string, viewer: string, userId: string, body: BalanceBody)
    requires SetBalance(s, caller, userId, body).Ok?
    ensures var s' := SetBalance(s, caller, userId, body).value.0;
            && (ListUsers(s', viewer).Ok? <==> ListUsers(s, viewer).Ok?)
            && (ListUsers(s, viewer).Ok? ==>
                  && |ListUsers(s', viewer).value| == |ListUsers(s, viewer).value|
                  && forall i :: 0 <= i < |s.users| ==>
                       && ListUsers(s', viewer).value[i].user == ListUsers(s, viewer).value[i].user
                       && ListUsers(s', viewer).value[i].balance
                          == if s.users[i].id == userId then body.balance else ListUsers(s, viewer).value[i].balance)
  {
    var s' := SetBalance(s, caller, userId, body).value.0;
    assert s'.users == s.users && s'.roles == s.roles;
    assert ResolvedRole(s', viewer) == ResolvedRole(s, viewer);
  }

  /** PUT /users/:userId/balance: gate, schema, user lookup, then the credits
      become exactly `balance` and one `admin_balance_set` record logs the
      difference. Nothing else changes. */
  function SetBalance(s: Store, caller: string, userId: string, body: BalanceBody)
    : (r: Result<(Store, BalanceChange), ApiError>)
    ensures !BalancePermission(s, caller) ==> r == Err(InsufficientPermissions)
    ensures BalancePermission(s, caller) && body.balance < 0 ==> r == Err(ValidationError)
    ensures BalancePermission(s, caller) && body.balance >= 0 && FindUser(s.users, userId).None? ==>
              r == Err(UserNotFound)
    ensures r.Ok? <==> BalancePermission(s, caller) && body.balance >= 0 && FindUser(s.users, userId).Some?
    ensures r.Ok? ==>
              var (s', c) := r.value;
              && c.oldBalance == CreditsOf(s, userId)
              && c.newBalance == body.balance == CreditsOf(s', userId)
              && c.change == c.newBalance - c.oldBalance
              && s'.users == s.users && s'.roles == s.roles
              && (forall u :: u != userId ==> CreditsOf(s', u) == CreditsOf(s, u))
              && s'.ledger == s.ledger + [Transaction(userId, CREDITS, SET_CONTEXT, c.change, body.reason, caller)]
  {
    if !BalancePermission(s, caller) then Err(InsufficientPermissions)
    else if !ValidBalanceBody(body) then Err(ValidationError)
    else if FindUser(s.users, userId).None? then Err(UserNotFound)
    else
      var before := CreditsOf(s, userId);
      var t := Transaction(userId, CREDITS, SET_CONTEXT, body.balance - before, body.reason, caller);
      Ok((s.(balances := s.balances[userId := body.balance], ledger := s.ledger + [t]),
          BalanceChange(before, body.balance, body.balance - before)))
  }

  /** Setting a balance keeps the log explaining every balance. */
  lemma SetBalanceKeepsLedgerBalanced(s: Store, caller: string, userId: string, body: BalanceBody)
    requires LedgerBalanced(s)
    requires SetBalance(s, caller, userId, body).Ok?
    ensures LedgerBalanced(SetBalance(s, caller, userId, body).value.0)
  {
    var s' := SetBalance(s, caller, userId, body).value.0;
    BalancedAfterLoggedWrite(s, s', s'.ledger[|s.ledger|]);
  }

  /** PATCH /users/:userId/balance: the credits become `max(0, old + amount)`,
      and the `admin_balance_adjust` record and the reply both carry the
      requested `amount`, also when the result was clamped at 0. */
  function AdjustBalance(s: Store, caller: string, userId: string, body: AdjustBody)
    : (r: Result<(Store, BalanceChange), ApiError>)
    ensures !BalancePermission(s, caller) ==> r == Err(InsufficientPermissions)
    ensures BalancePermission(s, caller) && FindUser(s.users, userId).None? ==> r == Err(UserNotFound)
    ensures r.Ok? <==> BalancePermission(s, caller) && FindUser(s.users, userId).Some?
    ensures r.Ok? ==>
              var (s', c) := r.value;
              && c.oldBalance == CreditsOf(s, userId)
              && c.newBalance == CreditsOf(s', userId) >= 0
              && (c.oldBalance + body.amount >= 0 ==> c.newBalance == c.oldBalance + body.amount)
              && (c.oldBalance + body.amount < 0 ==> c.newBalance == 0)
              && c.change == body.amount
              && s'.users == s.users && s'.roles == s.roles
              && (forall u :: u != userId ==> CreditsOf(s', u) == CreditsOf(s, u))
              && s'.ledger == s.ledger + [Transaction(userId, CREDITS, ADJUST_CONTEXT, body.amount, body.reason, caller)]
  {
    if !BalancePermission(s, caller) then Err(InsufficientPermissions)
    else if FindUser(s.users, userId).None? then Err(UserNotFound)
    else
      var before := CreditsOf(s, userId);
      var after := if before + body.amount > 0 then before + body.amount else 0;
      var t := Transaction(userId, CREDITS, ADJUST_CONTEXT, body.amount, body.reason, caller);
      Ok((s.(balances := s.balances[userId := after], ledger := s.ledger + [t]),
          BalanceChange(before, after, body.amount)))
  }

  /** Because the requested amount is logged, an adjustment keeps the log
      explaining the balances exactly when it was not clamped. */
  lemma AdjustBalanceLedgerIffNotClamped(s: Store, caller: string, userId: string, body: AdjustBody)
    requires LedgerBalanced(s)
    requires AdjustBalance(s, caller, userId, body).Ok?
    ensures LedgerBalanced(AdjustBalance(s, caller, userId, body).value.0)
            <==> CreditsOf(s, userId) + body.amount >= 0
  {
    var s' := AdjustBalance(s, caller, userId, body).value.0;
    var t := s'.ledger[|s.ledger|];
    LedgerSumAppend(s.ledger, t, userId);
    if CreditsOf(s, userId) + body.amount >= 0 {
      BalancedAfterLoggedWrite(s, s', t);
    } else {
      assert CreditsOf(s', userId) != LedgerSum(s'.ledger, userId);
    }
  }

  /** PATCH /users/:userId/balance as evidently intended: the same clamped
      update, but the record and the reply carry the change actually applied. */
  function AdjustBalanceApplied(s: Store, caller: string, userId: string, body: AdjustBody)
    : (r: Result<(Store, BalanceChange), ApiError>)
    ensures r.Ok? <==> BalancePermission(s, caller) && FindUser(s.users, userId).Some?
    ensures r.Ok? ==>
              var (s', c) := r.value;
              && c.oldBalance == CreditsOf(s, userId)
              && c.newBalance == CreditsOf(s', userId) >= 0
              && c.change == c.newBalance - c.oldBalance
              && s'.ledger == s.ledger + [Transaction(userId, CREDITS, ADJUST_CONTEXT, c.change, body.reason, caller)]
  {
    if !BalancePermission(s, caller) then Err(InsufficientPermissions)
    else if FindUser(s.users, userId).None? then Err(UserNotFound)
    else
      var before := CreditsOf(s, userId);
      var after := if before + body.amount > 0 then before + body.amount else 0;
      var t := Transaction(userId, CREDITS, ADJUST_CONTEXT, after - before, body.reason, caller);
      Ok((s.(balances := s.balances[userId := after], ledger := s.ledger + [t]),
          BalanceChange(before, after, after - before)))
  }

  /** The corrected adjustment always keeps the log explaining every balance. */
  lemma AdjustBalanceAppliedKeepsLedgerBalanced(s: Store, caller: string, userId: string, body: AdjustBody)
    requires LedgerBalanced(s)
    requires AdjustBalanceApplied(s, caller, userId, body).Ok?
    ensures LedgerBalanced(AdjustBalanceApplied(s, caller, userId, body).value.0)
  {
    var s' := AdjustBalanceApplied(s, caller, userId, body).value.0;
    BalancedAfterLoggedWrite(s, s', s'.ledger[|s.ledger|]);
  }

  /** PUT /users/:userId/role: gate, then the shared reassignment (404 for an
      unknown user, 400 for a role that does not exist). */
  function ChangeUserRole(s: Store, caller: string, userId: string, role: string)
    : (r: Result<(Store, RoleChange), ApiError>)
    ensures !AdminPermission(s, caller) ==> r == Err(InsufficientPermissions)
    ensures AdminPermission(s, caller) && FindUser(s.users, userId).None? ==> r == Err(UserNotFound)
    ensures AdminPermission(s, caller) && FindUser(s.users, userId).Some? && FindRole(s.roles, role).None? ==>
              r == Err(InvalidRole)
    ensures r.Ok? <==> AdminPermission(s, caller) && FindUser(s.users, userId).Some? && FindRole(s.roles, role).Some?
    ensures r.Ok? ==>
              && r.value.1 == RoleChange(FindUser(s.users, userId).value.role, role)
              && FindUser(r.value.0.users, userId) == Some(FindUser(s.users, userId).value.(role := role))
              && r.value.0 == s.(users := r.value.0.users)
              && |r.value.0.users| == |s.users|
              && (forall j :: 0 <= j < |s.users| && s.users[j].id != userId ==> r.value.0.users[j] == s.users[j])
  {
    if !AdminPermission(s, caller) then Err(InsufficientPermissions)
    else ReassignRole(s, userId, role)
  }

  /** After a role change the user resolves to the new role, so the models
      listed for them are exactly the enabled entries of that role. */
  lemma UserModelsAfterChangeUserRole(s: Store, caller: string, viewer: string, userId: string, role: string)
    requires ChangeUserRole(s, caller, userId, role).Ok?
    ensures var s' := ChangeUserRole(s, caller, userId, role).value.0;
            && ResolvedRole(s', userId) == FindRole(s.roles, role)
            && (UserModels(s', viewer, userId).Ok? ==>
                  UserModels(s', viewer, userId).value == EnabledModels(AccessOf(FindRole(s.roles, role).value)))
  {
  }

  /** A lookup that already succeeds is not changed by appending a role. */
  lemma FindRoleAfterAppend(roles: seq<Role>, extra: Role, name: string)
    requires FindRole(roles, name).Some?
    ensures FindRole(roles + [extra], name) == FindRole(roles, name)
  {
    var i := RoleIndex(roles, name).value;
    assert (roles + [extra])[i] == roles[i];
    Seqs.FirstIndexAt(roles + [extra], (x: Role) => x.name == name, i);
  }

  /** GET /roles: every role, with an absent access map listed as empty. */
  function ListRoles(s: Store, caller: string): (r: Result<seq<Role>, ApiError>)
    ensures r.Err? <==> !AdminPermission(s, caller)
    ensures r.Ok? ==> |r.value| == |s.roles|
    ensures r.Ok? ==> forall i :: 0 <= i < |r.value| ==>
              && r.value[i].name == s.roles[i].name
              && r.value[i].permissions == s.roles[i].permissions
              && r.value[i].modelAccess.Some?
              && AccessOf(r.value[i]) == AccessOf(s.roles[i])
  {
    if !AdminPermission(s, caller) then Err(InsufficientPermissions)
    else Ok(seq(|s.roles|, i requires 0 <= i < |s.roles| => s.roles[i].(modelAccess := Some(AccessOf(s.roles[i])))))
  }

  /** POST /roles: gate and schema; a role named exactly `name` gives 400;
      otherwise a role named `name` upper-cased is appended. The unique index
      on role names refuses the write (a 500) when the upper-cased name is
      already taken, so the store never holds two roles of one name, and the
      `Map` cast of the access map refuses a model name that is not a
      `MapKey` (a 500 too). */
  function CreateRole(s: Store, caller: string, body: CreateRoleBody): (r: Result<(Store, Role), ApiError>)
    ensures !AdminPermission(s, caller) ==> r == Err(InsufficientPermissions)
    ensures AdminPermission(s, caller) && !ValidCreateRoleBody(body) ==> r == Err(ValidationError)
    ensures AdminPermission(s, caller) && ValidCreateRoleBody(body) && FindRole(s.roles, body.name).Some? ==>
              r == Err(RoleAlreadyExists)
    ensures AdminPermission(s, caller) && ValidCreateRoleBody(body) && FindRole(s.roles, body.name).None?
            && !AccessKeysValid(body.modelAccess.GetOr([]))
            ==> r == Err(StorageError)
    ensures r.Ok? <==>
              && AdminPermission(s, caller) && ValidCreateRoleBody(body)
              && FindRole(s.roles, body.name).None? && FindRole(s.roles, Text.Upper(body.name)).None?
              && AccessKeysValid(body.modelAccess.GetOr([]))
    ensures r.Ok? ==>
              && r.value.1 == Role(Text.Upper(body.name), Some(body.permissions.GetOr(map[])), Some(body.modelAccess.GetOr([])))
              && r.value.0 == s.(roles := s.roles + [r.value.1])
  {
    if !AdminPermission(s, caller) then Err(InsufficientPermissions)
    else if !ValidCreateRoleBody(body) then Err(ValidationError)
    else if FindRole(s.roles, body.name).Some? then Err(RoleAlreadyExists)
    else if !AccessKeysValid(body.modelAccess.GetOr([])) then Err(StorageError)
    else if FindRole(s.roles, Text.Upper(body.name)).Some? then Err(StorageError)
    else
      var role := Role(Text.Upper(body.name), Some(body.permissions.GetOr(map[])), Some(body.modelAccess.GetOr([])));
      Ok((s.(roles := s.roles + [role]), role))
  }

  /** After a role is created the creator's role list has grown by exactly
      that role, at the end. */
  lemma ListRolesAfterCreate(s: Store, caller: string, body: CreateRoleBody)
    requires CreateRole(s, caller, body).Ok?
    ensures var (s', role) := CreateRole(s, caller, body).value;
            && ListRoles(s, caller).Ok? && ListRoles(s', caller).Ok?
            && |ListRoles(s', caller).value| == |ListRoles(s, caller).value| + 1
            && ListRoles(s', caller).value[..|s.roles|] == ListRoles(s, caller).value
            && ListRoles(s', caller).value[|s.roles|] == role
  {
    var s' := CreateRole(s, caller, body).value.0;
    var role := CreateRole(s, caller, body).value.1;
    var u := FindUser(s.users, caller).value;
    FindRoleAfterAppend(s.roles, role, u.role);
    assert ResolvedRole(s', caller) == ResolvedRole(s, caller);
  }

  /** As written, the create schema strips the permissions it is given, so a
      created role grants no action whatever the request asked for. */
  lemma StrippedCreateGrantsNothing(s: Store, caller: string, body: CreateRoleBody, group: string, action: string)
    requires CreateRole(s, caller, body.(permissions := ParsedPermissionsAsWritten(body.permissions))).Ok?
    ensures !Granted(CreateRole(s, caller, body.(permissions := ParsedPermissionsAsWritten(body.permissions))).value.1, group, action)
  {
  }

  /** Creating a role keeps role names unique. */
  lemma CreateRoleKeepsNamesUnique(s: Store, caller: string, body: CreateRoleBody)
    requires NamesUnique(s.roles)
    requires CreateRole(s, caller, body).Ok?
    ensures NamesUnique(CreateRole(s, caller, body).value.0.roles)
  {
  }

  /** PUT /roles/:roleName: gate, schema, 404 for an absent role; a
      permissions patch is spread over the old permissions (its groups replace
      whole groups, other groups stay) and an access-map patch replaces the
      whole map; the `Map` cast refuses a patch with a model name that is not
      a `MapKey` (a 500). Only that role changes, and it keeps its name. */
  function UpdateRole(s: Store, caller: string, roleName: string, patch: RolePatch)
    : (r: Result<(Store, Role), ApiError>)
    ensures !AdminPermission(s, caller) ==> r == Err(InsufficientPermissions)
    ensures AdminPermission(s, caller) && !ValidRolePatch(patch) ==> r == Err(ValidationError)
    ensures AdminPermission(s, caller) && ValidRolePatch(patch) && FindRole(s.roles, roleName).None? ==>
              r == Err(RoleNotFound)
    ensures AdminPermission(s, caller) && ValidRolePatch(patch) && FindRole(s.roles, roleName).Some?
            && patch.modelAccess.Some? && !AccessKeysValid(patch.modelAccess.value)
            ==> r == Err(StorageError)
    ensures r.Ok? <==>
              && AdminPermission(s, caller) && ValidRolePatch(patch) && FindRole(s.roles, roleName).Some?
              && (patch.modelAccess.Some? ==> AccessKeysValid(patch.modelAccess.value))
    ensures r.Ok? ==>
              var (s', role) := r.value;
              var before := FindRole(s.roles, roleName).value;
              && role.name == roleName
              && (patch.permissions.None? ==> role.permissions == before.permissions)
              && (patch.permissions.Some? ==> role.permissions == Some(PermissionsOf(before) + patch.permissions.value))
              && role.modelAccess == (if patch.modelAccess.Some? then patch.modelAccess else before.modelAccess)
              && FindRole(s'.roles, roleName) == Some(role)
              && |s'.roles| == |s.roles|
              && (forall j :: 0 <= j < |s.roles| && s.roles[j].name != roleName ==> s'.roles[j] == s.roles[j])
              && s' == s.(roles := s'.roles)
  {
    if !AdminPermission(s, caller) then Err(InsufficientPermissions)
    else if !ValidRolePatch(patch) then Err(ValidationError)
    else
      match RoleIndex(s.roles, roleName)
      case None => Err(RoleNotFound)
      case Some(i) =>
        if patch.modelAccess.Some? && !AccessKeysValid(patch.modelAccess.value) then Err(StorageError)
        else
          var before := s.roles[i];
          var perms := if patch.permissions.Some? then Some(PermissionsOf(before) + patch.permissions.value) else before.permissions;
          var access := if patch.modelAccess.Some? then patch.modelAccess else before.modelAccess;
          var role := before.(permissions := perms, modelAccess := access);
          var roles' := s.roles[i := role];
          assert RoleIndex(roles', roleName) == Some(i) by {
            Seqs.FirstIndexAt(roles', (x: Role) => x.name == roleName, i);
          }
          Ok((s.(roles := roles'), role))
  }

  /** A model name the `Map` cast refuses, such as the demo server's
      `gpt-3.5-turbo`, can be neither created with a role nor patched into
      one: whatever else the request holds, the router answers an error. */
  lemma InvalidModelNameRefused(s: Store, caller: string, roleName: string, body: CreateRoleBody, patch: RolePatch, i: nat)
    requires body.modelAccess.Some? && i < |body.modelAccess.value| && !MapKey(body.modelAccess.value[i].0)
    requires patch.modelAccess == body.modelAccess
    ensures CreateRole(s, caller, body).Err? && UpdateRole(s, caller, roleName, patch).Err?
  {
  }

  /** The demo server's model names are not all keys a `Map` accepts. */
  lemma DemoModelNameIsNotMapKey()
    ensures !MapKey("gpt-3.5-turbo")
  {
  }

  /** What an updated role grants: a group named in the permissions patch is
      read from the patch alone, every other group as before. */
  lemma UpdateRoleGrants(s: Store, caller: string, roleName: string, patch: RolePatch, group: string, action: string)
    requires UpdateRole(s, caller, roleName, patch).Ok?
    requires patch.permissions.Some?
    ensures var role := UpdateRole(s, caller, roleName, patch).value.1;
            var before := FindRole(s.roles, roleName).value;
            var p := patch.permissions.value;
            Granted(role, group, action)
            == if group in p then action in p[group] && p[group][action] else Granted(before, group, action)
  {
  }

  /** `z.object({})` keeps none of the keys it is given, so the permissions
      that reach the create and update handlers are always `{}`. */
  function ParsedPermissionsAsWritten(p: Option<Permissions>): (q: Option<Permissions>)
    ensures q.Some? <==> p.Some?
    ensures q.Some? ==> q.value == map[]
  {
    if p.Some? then Some(map[]) else None
  }

  /** As written, a permissions patch can never change what a role grants. */
  lemma StrippedPatchGrantsNothingNew(s: Store, caller: string, roleName: string, patch: RolePatch,
                                      group: string, action: string)
    requires UpdateRole(s, caller, roleName, patch.(permissions := ParsedPermissionsAsWritten(patch.permissions))).Ok?
    ensures var role := UpdateRole(s, caller, roleName, patch.(permissions := ParsedPermissionsAsWritten(patch.permissions))).value.1;
            Granted(role, group, action) == Granted(FindRole(s.roles, roleName).value, group, action)
  {
  }

  /** DELETE /roles/:roleName: gate, 404 for an absent role, 400 while any
      user has exactly that role name; otherwise the first role of that name
      is removed and the others stay in order. */
  function DeleteRole(s: Store, caller: string, roleName: string): (r: Result<(Store, string), ApiError>)
    ensures !AdminPermission(s, caller) ==> r == Err(InsufficientPermissions)
    ensures AdminPermission(s, caller) && FindRole(s.roles, roleName).None? ==> r == Err(RoleNotFound)
    ensures (&& AdminPermission(s, caller) && FindRole(s.roles, roleName).Some?
             && exists j :: 0 <= j < |s.users| && s.users[j].role == roleName)
            ==> r == Err(RoleInUse)
    ensures r.Ok? <==>
              && AdminPermission(s, caller) && FindRole(s.roles, roleName).Some?
              && forall j :: 0 <= j < |s.users| ==> s.users[j].role != roleName
    ensures r.Ok? ==>
              && r.value.1 == roleName
              && r.value.0 == s.(roles := r.value.0.roles)
              && exists i :: && 0 <= i < |s.roles| && s.roles[i].name == roleName
                             && (forall j :: 0 <= j < i ==> s.roles[j].name != roleName)
                             && r.value.0.roles == Seqs.RemoveAt(s.roles, i)
  {
    if !AdminPermission(s, caller) then Err(InsufficientPermissions)
    else
      match RoleIndex(s.roles, roleName)
      case None => Err(RoleNotFound)
      case Some(i) =>
        if Seqs.Count(s.users, (u: User) => u.role == roleName) > 0 then Err(RoleInUse)
        else Ok((s.(roles := Seqs.RemoveAt(s.roles, i)), roleName))
  }

  /** With unique names, a deleted role is gone, every other role is found
      as before, and the names stay unique. */
  lemma DeleteRoleRemovesOnlyThatRole(s: Store, caller: string, roleName: string, other: string)
    requires NamesUnique(s.roles)
    requires DeleteRole(s, caller, roleName).Ok?
    ensures FindRole(DeleteRole(s, caller, roleName).value.0.roles, roleName).None?
    ensures other != roleName ==> FindRole(DeleteRole(s, caller, roleName).value.0.roles, other) == FindRole(s.roles, other)
    ensures NamesUnique(DeleteRole(s, caller, roleName).value.0.roles)
  {
    var i := RoleIndex(s.roles, roleName).value;
    FindRoleRemoveAt(s.roles, i, other);
  }

  /** After a role is deleted the role list no longer shows it, and shows
      one role fewer, to the caller who deleted it. */
  lemma ListRolesAfterDelete(s: Store, caller: string, roleName: string)
    requires NamesUnique(s.roles)
    requires DeleteRole(s, caller, roleName).Ok?
    ensures var s' := DeleteRole(s, caller, roleName).value.0;
            && ListRoles(s', caller).Ok?
            && |ListRoles(s', caller).value| == |ListRoles(s, caller).value| - 1
            && forall k :: 0 <= k < |ListRoles(s', caller).value| ==> ListRoles(s', caller).value[k].name != roleName
  {
    var s' := DeleteRole(s, caller, roleName).value.0;
    var i := RoleIndex(s.roles, roleName).value;
    var u := FindUser(s.users, caller).value;
    assert u.role != roleName;
    FindRoleRemoveAt(s.roles, i, u.role);
    assert ResolvedRole(s', caller) == ResolvedRole(s, caller);
  }

  /** GET /users/:userId/models: gate, 404 for an unknown user, then the
      enabled models of the user's role (`[]` when the role is missing). */
  function UserModels(s: Store, caller: string, userId: string): (r: Result<seq<ModelInfo>, ApiError>)
    ensures !AdminPermission(s, caller) ==> r == Err(InsufficientPermissions)
    ensures AdminPermission(s, caller) && FindUser(s.users, userId).None? ==> r == Err(UserNotFound)
    ensures r.Ok? <==> AdminPermission(s, caller) && FindUser(s.users, userId).Some?
    ensures r.Ok? && ResolvedRole(s, userId).None? ==> r.value == []
    ensures r.Ok? && ResolvedRole(s, userId).Some? ==>
              var m := AccessOf(ResolvedRole(s, userId).value);
              && r.value == EnabledModels(m)
              && (forall i :: 0 <= i < |r.value| ==> (r.value[i].name, AccessEntry(true, r.value[i].coefficient)) in m)
              && (forall j :: 0 <= j < |m| && m[j].1.enabled ==> ModelInfo(m[j].0, m[j].1.coefficient) in r.value)
  {
    if !AdminPermission(s, caller) then Err(InsufficientPermissions)
    else if FindUser(s.users, userId).None? then Err(UserNotFound)
    else Ok(AvailableModels(s, userId))
  }
}
