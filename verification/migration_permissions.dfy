/** What a migration means for the permission checks the admin routes rely on. */
module MigrationPermissions {
  import opened Wrappers
  import opened RoleSchema
  import opened MongoStore
  import opened RoleMethods
  import opened Migration

  /** What a migration does to the permission checks: for a user whose role
      lacked a management group, the check answers true exactly when the role
      is `ADMIN`; for a group the role already had, the answer is unchanged. */
  lemma MigrationSetsManagementPermissions(s: Store, defaults: Defaults, userId: string, action: string)
    requires ResolvedRole(s, userId).Some?
    ensures var s' := s.(roles := Migrate(s.roles, defaults).0);
            var before := ResolvedRole(s, userId).value;
            && (ROLE_MANAGEMENT !in PermissionsOf(before) && action in {CREATE, UPDATE, DELETE} ==>
                  HasRoleManagementPermission(s', userId, action) == (before.name == ADMIN))
            && (BALANCE_MANAGEMENT !in PermissionsOf(before) ==>
                  HasBalanceManagementPermission(s', userId) == (before.name == ADMIN))
            && (ROLE_MANAGEMENT in PermissionsOf(before) ==>
                  HasRoleManagementPermission(s', userId, action) == HasRoleManagementPermission(s, userId, action))
            && (BALANCE_MANAGEMENT in PermissionsOf(before) ==>
                  HasBalanceManagementPermission(s', userId) == HasBalanceManagementPermission(s, userId))
  {
    var s' := s.(roles := Migrate(s.roles, defaults).0);
    var before := ResolvedRole(s, userId).value;
    var u := FindUser(s.users, userId).value;
    FindRoleFillAll(s.roles, u.role);
    FindRoleInExtension(FillAll(s.roles), s'.roles, u.role);
    assert ResolvedRole(s', userId) == Some(FillRole(before).0);
    FillRoleGrants(before, action);
  }

  /** The grants of one filled role: an added group grants its actions
      exactly to `ADMIN`, and a kept group grants what it granted before. */
  lemma FillRoleGrants(r: Role, action: string)
    ensures ROLE_MANAGEMENT !in PermissionsOf(r) && action in {CREATE, UPDATE, DELETE} ==>
              Granted(FillRole(r).0, ROLE_MANAGEMENT, action) == (r.name == ADMIN)
    ensures BALANCE_MANAGEMENT !in PermissionsOf(r) ==> Granted(FillRole(r).0, BALANCE_MANAGEMENT, UPDATE) == (r.name == ADMIN)
    ensures ROLE_MANAGEMENT in PermissionsOf(r) ==>
              Granted(FillRole(r).0, ROLE_MANAGEMENT, action) == Granted(r, ROLE_MANAGEMENT, action)
    ensures BALANCE_MANAGEMENT in PermissionsOf(r) ==>
              Granted(FillRole(r).0, BALANCE_MANAGEMENT, UPDATE) == Granted(r, BALANCE_MANAGEMENT, UPDATE)
  {
    FillRoleGroups(r);
  }
}
