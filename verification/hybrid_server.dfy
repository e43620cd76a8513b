/** The in-memory demo server: two fixture arrays, mutated in place by handlers
    that check nothing about the caller and validate nothing in the body. */
module HybridServer {
  import opened Wrappers
  import opened AssocList
  import opened ApiErrors
  import opened RoleSchema
  import opened Requests
  import Text
  import Seqs

  /** A user fixture; the balance lives on the user itself. */
  datatype MockUser = MockUser(id: string, email: string, username: string, name: string, role: string, balance: int)

  /** The `mockUsers` and `mockRoles` arrays. */
  datatype MockStore = MockStore(users: seq<MockUser>, roles: seq<Role>)

  /** Position of the user with this id (`mockUsers.find(u => u._id === userId)`). */
  function UserIndex(users: seq<MockUser>, id: string): Option<nat> {
    Seqs.FirstIndex(users, (u: MockUser) => u.id == id)
  }

  /** The fixtures the server starts with: an ADMIN role holding every
      management permission and three enabled models, and a USER role holding
      none and only `gpt-3.5-turbo`; one user of each role. */
  function InitialStore(): (s: MockStore)
    ensures NamesUnique(s.roles)
    ensures FindRole(s.roles, ADMIN).Some? && FindRole(s.roles, USER).Some?
    ensures var admin := FindRole(s.roles, ADMIN).value;
            && Granted(admin, ROLE_MANAGEMENT, CREATE) && Granted(admin, ROLE_MANAGEMENT, UPDATE)
            && Granted(admin, ROLE_MANAGEMENT, DELETE) && Granted(admin, BALANCE_MANAGEMENT, UPDATE)
    ensures forall g, a :: !Granted(FindRole(s.roles, USER).value, g, a)
    ensures forall m :: Lookup(AccessOf(FindRole(s.roles, USER).value), m).Some?
                        ==> m == "gpt-3.5-turbo" && Lookup(AccessOf(FindRole(s.roles, USER).value), m).value.enabled
    ensures Lookup(AccessOf(FindRole(s.roles, USER).value), "gpt-3.5-turbo") == Some(AccessEntry(true, 1.0))
    ensures forall i :: 0 <= i < |s.users| ==> FindRole(s.roles, s.users[i].role).Some?
  {
    var adminRole := Role(ADMIN, Some(ManagementGroups(true)),
                          Some([("gpt-4", AccessEntry(true, 1.5)),
                                ("claude-3", AccessEntry(true, 1.8)),
                                ("gpt-3.5-turbo", AccessEntry(true, 1.0))]));
    var userRole := Role(USER, Some(ManagementGroups(false)),
                         Some([("gpt-3.5-turbo", AccessEntry(true, 1.0))]));
    var roles := [adminRole, userRole];
    assert FindRole(roles, ADMIN) == Some(adminRole) by {
      Seqs.FirstIndexAt(roles, (r: Role) => r.name == ADMIN, 0);
    }
    assert FindRole(roles, USER) == Some(userRole) by {
      Seqs.FirstIndexAt(roles, (r: Role) => r.name == USER, 1);
    }
    MockStore(
      [MockUser("68b786243650bd18a0ebfe45", "test@example.com", "testuser", "Test User", USER, 2000),
       MockUser("68b786243650bd18a0ebfe46", "admin@example.com", "admin", "Admin User", ADMIN, 5000)],
      roles)
  }

  /** POST /api/admin/roles: 400 exactly when some role's name equals the raw
      `name`; otherwise a role named `name` upper-cased is appended, with
      absent permissions and access map stored as empty. */
  function CreateRole(s: MockStore, body: CreateRoleBody): (r: Result<(MockStore, Role), ApiError>)
    ensures r.Err? <==> FindRole(s.roles, body.name).Some?
    ensures r.Err? ==> r.error == RoleAlreadyExists
    ensures r.Ok? ==>
              && r.value.1 == Role(Text.Upper(body.name), Some(body.permissions.GetOr(map[])), Some(body.modelAccess.GetOr([])))
              && r.value.0 == s.(roles := s.roles + [r.value.1])
  {
    if FindRole(s.roles, body.name).Some? then Err(RoleAlreadyExists)
    else
      var role := Role(Text.Upper(body.name), Some(body.permissions.GetOr(map[])), Some(body.modelAccess.GetOr([])));
      Ok((s.(roles := s.roles + [role]), role))
  }

  /** Because the duplicate check sees the raw name and the store keeps the
      upper-cased one, creating a name with a lower-case letter twice succeeds
      twice and leaves two roles of the same name. */
  lemma CreateRoleTwiceDuplicates(s: MockStore, body: CreateRoleBody)
    requires FindRole(s.roles, body.name).None?
    requires exists i :: 0 <= i < |body.name| && 'a' <= body.name[i] <= 'z'
    ensures CreateRole(s, body).Ok?
    ensures CreateRole(CreateRole(s, body).value.0, body).Ok?
    ensures !NamesUnique(CreateRole(CreateRole(s, body).value.0, body).value.0.roles)
  {
    var s1 := CreateRole(s, body).value.0;
    var role := CreateRole(s, body).value.1;
    var i :| 0 <= i < |body.name| && 'a' <= body.name[i] <= 'z';
    assert role.name[i] != body.name[i];
    FindRoleAppend(s.roles, role, body.name);
    var roles2 := CreateRole(s1, body).value.0.roles;
    assert roles2[|s.roles|].name == roles2[|s.roles| + 1].name;
  }

  /** POST /api/admin/roles as evidently intended: the duplicate check uses
      the name that will be stored. */
  function CreateRoleNormalized(s: MockStore, body: CreateRoleBody): (r: Result<(MockStore, Role), ApiError>)
    ensures r.Err? <==> FindRole(s.roles, Text.Upper(body.name)).Some?
    ensures r.Ok? ==> r.value.1.name == Text.Upper(body.name) && r.value.0 == s.(roles := s.roles + [r.value.1])
    ensures r.Ok? && NamesUnique(s.roles) ==> NamesUnique(r.value.0.roles)
  {
    if FindRole(s.roles, Text.Upper(body.name)).Some? then Err(RoleAlreadyExists)
    else
      var role := Role(Text.Upper(body.name), Some(body.permissions.GetOr(map[])), Some(body.modelAccess.GetOr([])));
      Ok((s.(roles := s.roles + [role]), role))
  }

  /** With the corrected check, a second creation of a name in any letter case
      is refused. */
  lemma CreateRoleNormalizedRefusesSecond(s: MockStore, body: CreateRoleBody, again: CreateRoleBody)
    requires CreateRoleNormalized(s, body).Ok?
    requires Text.Upper(again.name) == Text.Upper(body.name)
    ensures CreateRoleNormalized(CreateRoleNormalized(s, body).value.0, again) == Err(RoleAlreadyExists)
  {
    var s1 := CreateRoleNormalized(s, body).value.0;
    FindRoleAppend(s.roles, CreateRoleNormalized(s, body).value.1, Text.Upper(again.name));
  }

  /** PUT /api/admin/users/:userId/balance: 404 for an unknown id; otherwise
      that user's balance becomes `balance`, negative or not, and the reply
      reports the difference. Nothing else changes. */
  function SetBalance(s: MockStore, userId: string, body: BalanceBody): (r: Result<(MockStore, BalanceChange), ApiError>)
    ensures r.Err? <==> forall j :: 0 <= j < |s.users| ==> s.users[j].id != userId
    ensures r.Err? ==> r.error == UserNotFound
    ensures r.Ok? ==>
              var (s', c) := r.value;
              && s'.roles == s.roles && |s'.users| == |s.users|
              && (exists i :: 0 <= i < |s.users| && s.users[i].id == userId
                             && c.oldBalance == s.users[i].balance
                             && s'.users[i] == s.users[i].(balance := body.balance)
                             && forall j :: 0 <= j < |s.users| && j != i ==> s'.users[j] == s.users[j])
              && c.newBalance == body.balance
              && c.change == body.balance - c.oldBalance
  {
    match UserIndex(s.users, userId)
    case None => Err(UserNotFound)
    case Some(i) =>
      var before := s.users[i].balance;
      Ok((s.(users := s.users[i := s.users[i].(balance := body.balance)]),
          BalanceChange(before, body.balance, body.balance - before)))
  }

  /** PUT /api/admin/users/:userId/role: 404 for an unknown user, 400 when no
      role has exactly that name; otherwise only that user's role changes. */
  function ChangeUserRole(s: MockStore, userId: string, role: string): (r: Result<(MockStore, RoleChange), ApiError>)
    ensures (forall j :: 0 <= j < |s.users| ==> s.users[j].id != userId) ==> r == Err(UserNotFound)
    ensures (exists j :: 0 <= j < |s.users| && s.users[j].id == userId) && FindRole(s.roles, role).None? ==>
              r == Err(InvalidRole)
    ensures r.Ok? <==> (exists j :: 0 <= j < |s.users| && s.users[j].id == userId) && FindRole(s.roles, role).Some?
    ensures r.Ok? ==>
              var (s', c) := r.value;
              && FindRole(s.roles, role).Some?
              && s'.roles == s.roles && |s'.users| == |s.users|
              && c.newRole == role
              && (exists i :: 0 <= i < |s.users| && s.users[i].id == userId
                             && c.oldRole == s.users[i].role
                             && s'.users[i] == s.users[i].(role := role)
                             && forall j :: 0 <= j < |s.users| && j != i ==> s'.users[j] == s.users[j])
  {
    match UserIndex(s.users, userId)
    case None => Err(UserNotFound)
    case Some(i) =>
      if FindRole(s.roles, role).None? then Err(InvalidRole)
      else Ok((s.(users := s.users[i := s.users[i].(role := role)]), RoleChange(s.users[i].role, role)))
  }

  /** GET /api/admin/users/:userId/models: 404 for an unknown user or a
      missing role; otherwise the role's name and its whole access map,
      disabled entries included. */
  function UserModels(s: MockStore, userId: string): (r: Result<(string, Option<ModelAccess>), ApiError>)
    ensures (forall j :: 0 <= j < |s.users| ==> s.users[j].id != userId) ==> r == Err(UserNotFound)
    ensures r.Err? ==> r.error in {UserNotFound, RoleNotFound}
    ensures r == Err(RoleNotFound) <==>
              exists i :: 0 <= i < |s.users| && s.users[i].id == userId && FindRole(s.roles, s.users[i].role).None?
                          && forall j :: 0 <= j < i ==> s.users[j].id != userId
    ensures r.Ok? <==>
              exists i :: 0 <= i < |s.users| && s.users[i].id == userId && FindRole(s.roles, s.users[i].role).Some?
                          && forall j :: 0 <= j < i ==> s.users[j].id != userId
    ensures r.Ok? ==>
              exists i :: 0 <= i < |s.users| && s.users[i].id == userId
                          && FindRole(s.roles, s.users[i].role).Some?
                          && FindRole(s.roles, s.users[i].role).value.name == r.value.0
                          && FindRole(s.roles, s.users[i].role).value.modelAccess == r.value.1
  {
    match UserIndex(s.users, userId)
    case None => Err(UserNotFound)
    case Some(i) =>
      match FindRole(s.roles, s.users[i].role)
      case None => Err(RoleNotFound)
      case Some(role) => Ok((role.name, role.modelAccess))
  }

  /** DELETE /api/admin/roles/:roleName: 404 when absent, 400 while any user
      has that role; otherwise exactly the first role of that name is spliced
      out and the others keep their order. */
  function DeleteRole(s: MockStore, roleName: string): (r: Result<(MockStore, Role), ApiError>)
    ensures FindRole(s.roles, roleName).None? ==> r == Err(RoleNotFound)
    ensures r.Ok? <==>
              FindRole(s.roles, roleName).Some? && forall j :: 0 <= j < |s.users| ==> s.users[j].role != roleName
    ensures r.Err? ==> r.error in {RoleNotFound, RoleInUse}
    ensures r.Ok? ==>
              && r.value.0.users == s.users
              && r.value.1 == FindRole(s.roles, roleName).value
              && exists i :: && 0 <= i < |s.roles| && s.roles[i] == r.value.1
                             && (forall j :: 0 <= j < i ==> s.roles[j].name != roleName)
                             && r.value.0.roles == Seqs.RemoveAt(s.roles, i)
  {
    match RoleIndex(s.roles, roleName)
    case None => Err(RoleNotFound)
    case Some(i) =>
      if Seqs.Count(s.users, (u: MockUser) => u.role == roleName) > 0 then Err(RoleInUse)
      else Ok((s.(roles := Seqs.RemoveAt(s.roles, i)), s.roles[i]))
  }

  /** With unique names, deleting a role makes it unreachable and leaves every
      other role's lookup as it was. */
  lemma DeleteRoleRemovesOnlyThatRole(s: MockStore, roleName: string, other: string)
    requires NamesUnique(s.roles)
    requires DeleteRole(s, roleName).Ok?
    ensures FindRole(DeleteRole(s, roleName).value.0.roles, roleName).None?
    ensures other != roleName ==> FindRole(DeleteRole(s, roleName).value.0.roles, other) == FindRole(s.roles, other)
  {
    FindRoleRemoveAt(s.roles, RoleIndex(s.roles, roleName).value, other);
  }

  /** PUT /api/admin/roles/:roleName: 404 when absent; otherwise the
      permissions patch and the access-map patch are each spread over the old
      value. Only that role changes, and it keeps its name. */
  function UpdateRole(s: MockStore, roleName: string, patch: RolePatch): (r: Result<(MockStore, Role), ApiError>)
    ensures r.Err? <==> FindRole(s.roles, roleName).None?
    ensures r.Err? ==> r.error == RoleNotFound
    ensures r.Ok? ==>
              var (s', role) := r.value;
              var before := FindRole(s.roles, roleName).value;
              && role.name == roleName
              && s'.users == s.users && |s'.roles| == |s.roles|
              && FindRole(s'.roles, roleName) == Some(role)
              && (forall j :: 0 <= j < |s.roles| && s.roles[j].name != roleName ==> s'.roles[j] == s.roles[j])
              && (patch.permissions.None? ==> role.permissions == before.permissions)
              && (patch.permissions.Some? ==> role.permissions == Some(PermissionsOf(before) + patch.permissions.value))
              && (patch.modelAccess.None? ==> role.modelAccess == before.modelAccess)
              && (patch.modelAccess.Some? ==> role.modelAccess == Some(Merge(AccessOf(before), patch.modelAccess.value)))
  {
    match RoleIndex(s.roles, roleName)
    case None => Err(RoleNotFound)
    case Some(i) =>
      var before := s.roles[i];
      var perms := if patch.permissions.Some? then Some(PermissionsOf(before) + patch.permissions.value) else before.permissions;
      var access := if patch.modelAccess.Some? then Some(Merge(AccessOf(before), patch.modelAccess.value)) else before.modelAccess;
      var role := before.(permissions := perms, modelAccess := access);
      var roles' := s.roles[i := role];
      assert RoleIndex(roles', roleName) == Some(i) by {
        Seqs.FirstIndexAt(roles', (x: Role) => x.name == roleName, i);
      }
      Ok((s.(roles := roles'), role))
  }

  /** After an update, a model named in the access-map patch reads its entry
      from the patch and every other model keeps its old entry. */
  lemma UpdateRoleMergesAccess(s: MockStore, roleName: string, patch: RolePatch, model: string)
    requires UpdateRole(s, roleName, patch).Ok?
    requires patch.modelAccess.Some? && UniqueKeys(patch.modelAccess.value)
    ensures var role := UpdateRole(s, roleName, patch).value.1;
            var before := FindRole(s.roles, roleName).value;
            var p := patch.modelAccess.value;
            Lookup(AccessOf(role), model) == if model in Keys(p) then Lookup(p, model) else Lookup(AccessOf(before), model)
  {
    MergeLookup(AccessOf(FindRole(s.roles, roleName).value), patch.modelAccess.value, model);
  }

  /** GET /api/admin/users: every fixture user, in order, with their number. */
  function ListUsers(s: MockStore): (r: (seq<MockUser>, nat))
    ensures r.1 == |r.0|
  {
    (s.users, |s.users|)
  }

  /** GET /api/admin/roles: every role, in order, with their number. */
  function ListRoles(s: MockStore): (r: (seq<Role>, nat))
    ensures r.1 == |r.0|
  {
    (s.roles, |s.roles|)
  }

  /** After a balance is set, the listing shows the same users in the same
      order, the new balance for the first user with that id (the one `find`
      returns) and the old one for everybody else. */
  lemma ListUsersAfterSetBalance(s: MockStore, userId: string, body: BalanceBody)
    requires SetBalance(s, userId, body).Ok?
    ensures var after := ListUsers(SetBalance(s, userId, body).value.0);
            var before := ListUsers(s);
            && after.1 == before.1
            && forall i :: 0 <= i < before.1 ==>
                 && after.0[i].id == before.0[i].id
                 && after.0[i].role == before.0[i].role
                 && after.0[i].balance
                    == if before.0[i].id == userId && forall j :: 0 <= j < i ==> before.0[j].id != userId
                       then body.balance else before.0[i].balance
  {
    var k := UserIndex(s.users, userId).value;
    var s' := SetBalance(s, userId, body).value.0;
    assert s'.users == s.users[k := s.users[k].(balance := body.balance)];
  }

  /** After a role is created the listing has one more role, the new one,
      at the end. */
  lemma ListRolesAfterCreate(s: MockStore, body: CreateRoleBody)
    requires CreateRole(s, body).Ok?
    ensures var after := ListRoles(CreateRole(s, body).value.0);
            && after.1 == ListRoles(s).1 + 1
            && after.0[..ListRoles(s).1] == ListRoles(s).0
            && after.0[ListRoles(s).1] == CreateRole(s, body).value.1
  {
  }

  /** With unique names, after a role is deleted the listing has one role
      fewer and none of that name. */
  lemma ListRolesAfterDelete(s: MockStore, roleName: string)
    requires NamesUnique(s.roles)
    requires DeleteRole(s, roleName).Ok?
    ensures var after := ListRoles(DeleteRole(s, roleName).value.0);
            && after.1 == ListRoles(s).1 - 1
            && forall k :: 0 <= k < after.1 ==> after.0[k].name != roleName
  {
    DeleteRoleRemovesOnlyThatRole(s, roleName, roleName);
  }

  /** After a role change, the models reply names the new role and carries
      its access map. */
  lemma UserModelsAfterChangeUserRole(s: MockStore, userId: string, role: string)
    requires ChangeUserRole(s, userId, role).Ok?
    ensures UserModels(ChangeUserRole(s, userId, role).value.0, userId)
            == Ok((FindRole(s.roles, role).value.name, FindRole(s.roles, role).value.modelAccess))
  {
    var i := UserIndex(s.users, userId).value;
    var s' := ChangeUserRole(s, userId, role).value.0;
    Seqs.FirstIndexAt(s'.users, (u: MockUser) => u.id == userId, i);
  }

  /** With the corrected check, creating the stored (upper-cased) name after
      any spelling of it is refused too. */
  lemma CreateRoleNormalizedRefusesStoredName(s: MockStore, body: CreateRoleBody)
    requires CreateRoleNormalized(s, body).Ok?
    ensures var s1 := CreateRoleNormalized(s, body).value.0;
            CreateRoleNormalized(s1, body.(name := Text.Upper(body.name))) == Err(RoleAlreadyExists)
  {
    Text.UpperIdempotent(body.name);
    CreateRoleNormalizedRefusesSecond(s, body, body.(name := Text.Upper(body.name)));
  }

  /** Deleting a role created under a fresh name, after any number of
      updates to it, gives back the store as it was before the creation:
      creation appends at the end, updates keep the position and the name,
      and deletion splices out that last position. */
  lemma {:induction false} CreateUpdateDeleteRestores(s: MockStore, body: CreateRoleBody, patch: RolePatch)
    requires FindRole(s.roles, body.name).None?
    requires FindRole(s.roles, Text.Upper(body.name)).None?
    requires forall j :: 0 <= j < |s.users| ==> s.users[j].role != Text.Upper(body.name)
    ensures CreateRole(s, body).Ok?
    ensures var s1 := CreateRole(s, body).value.0;
            && UpdateRole(s1, Text.Upper(body.name), patch).Ok?
            && DeleteRole(UpdateRole(s1, Text.Upper(body.name), patch).value.0, Text.Upper(body.name)).Ok?
            && DeleteRole(UpdateRole(s1, Text.Upper(body.name), patch).value.0, Text.Upper(body.name)).value.0 == s
    ensures DeleteRole(CreateRole(s, body).value.0, Text.Upper(body.name)) == Ok((s, CreateRole(s, body).value.1))
  {
    var name := Text.Upper(body.name);
    var (s1, role) := CreateRole(s, body).value;
    var n := |s.roles|;
    assert s1.roles[n] == role && role.name == name;
    Seqs.FirstIndexAt(s1.roles, (x: Role) => x.name == name, n);
    assert Seqs.RemoveAt(s1.roles, n) == s.roles;

    FindRoleAppend(s.roles, role, name);
    var s2 := UpdateRole(s1, name, patch).value.0;
    assert s2.roles[n].name == name;
    assert forall j :: 0 <= j < n ==> s2.roles[j] == s.roles[j];
    Seqs.FirstIndexAt(s2.roles, (x: Role) => x.name == name, n);
    assert Seqs.RemoveAt(s2.roles, n) == s.roles;
  }

  /** Updating a freshly created role spreads the patch's access map over
      the one it was created with. */
  lemma CreateThenUpdateAccess(s: MockStore, body: CreateRoleBody, patch: RolePatch)
    requires FindRole(s.roles, body.name).None?
    requires FindRole(s.roles, Text.Upper(body.name)).None?
    ensures CreateRole(s, body).Ok?
    ensures UpdateRole(CreateRole(s, body).value.0, Text.Upper(body.name), patch).Ok?
    ensures var role := UpdateRole(CreateRole(s, body).value.0, Text.Upper(body.name), patch).value.1;
            role.modelAccess == Some(if patch.modelAccess.Some? then Merge(body.modelAccess.GetOr([]), patch.modelAccess.value)
                                     else body.modelAccess.GetOr([]))
  {
    var (s1, role) := CreateRole(s, body).value;
    FindRoleAppend(s.roles, role, role.name);
    Seqs.FirstIndexAt(s1.roles, (x: Role) => x.name == role.name, |s.roles|);
  }

  /** The role scenario the admin-API walkthrough drives, on any store that
      holds no `TEST_ROLE`: the role can be created, updating its
      `gpt-4-turbo` entry to coefficient 1.6 replaces that entry in place, and
      deleting it afterwards gives back the store it started from. */
  lemma TestRoleScenario(s: MockStore, permissions: Permissions)
    requires FindRole(s.roles, "TEST_ROLE").None?
    requires forall j :: 0 <= j < |s.users| ==> s.users[j].role != "TEST_ROLE"
    ensures var body := CreateRoleBody("TEST_ROLE", Some(permissions),
                          Some([("gpt-4-turbo", AccessEntry(true, 1.5)), ("claude-3-opus", AccessEntry(true, 1.8))]));
            var patch := RolePatch(None, Some([("gpt-4-turbo", AccessEntry(true, 1.6))]));
            && CreateRole(s, body).Ok?
            && UpdateRole(CreateRole(s, body).value.0, "TEST_ROLE", patch).Ok?
            && AccessOf(UpdateRole(CreateRole(s, body).value.0, "TEST_ROLE", patch).value.1)
               == [("gpt-4-turbo", AccessEntry(true, 1.6)), ("claude-3-opus", AccessEntry(true, 1.8))]
            && DeleteRole(UpdateRole(CreateRole(s, body).value.0, "TEST_ROLE", patch).value.0, "TEST_ROLE").Ok?
            && DeleteRole(UpdateRole(CreateRole(s, body).value.0, "TEST_ROLE", patch).value.0, "TEST_ROLE").value.0 == s
  {
    var a := [("gpt-4-turbo", AccessEntry(true, 1.5)), ("claude-3-opus", AccessEntry(true, 1.8))];
    var p := [("gpt-4-turbo", AccessEntry(true, 1.6))];
    var body := CreateRoleBody("TEST_ROLE", Some(permissions), Some(a));
    var patch := RolePatch(None, Some(p));
    assert Text.Upper("TEST_ROLE") == "TEST_ROLE";
    CreateThenUpdateAccess(s, body, patch);
    CreateUpdateDeleteRestores(s, body, patch);
    assert Put(a, "gpt-4-turbo", AccessEntry(true, 1.6)) == [p[0], a[1]];
    assert Merge(a, p) == [p[0], a[1]];
  }

  /** The fixtures meet the scenario's preconditions: they hold no
      `TEST_ROLE` and no fixture user has it. */
  lemma InitialStoreAdmitsTestRole()
    ensures FindRole(InitialStore().roles, "TEST_ROLE").None?
    ensures forall j :: 0 <= j < |InitialStore().users| ==> InitialStore().users[j].role != "TEST_ROLE"
  {
  }
}
