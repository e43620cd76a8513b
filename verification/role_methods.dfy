/** The permission and model-access resolvers: every lookup goes user, then
    role, then flag or entry, and every failure denies. */
module RoleMethods {
  import opened Wrappers
  import opened AssocList
  import opened RoleSchema
  import opened MongoStore

  /** `getUserRole`: fails with "User not found" when no user has the id;
      otherwise the role named by the user (`None` when no such role exists). */
  function GetUserRole(s: Store, userId: string): (r: Result<Option<Role>, string>)
    ensures r.Err? <==> FindUser(s.users, userId).None?
    ensures r.Err? ==> r.error == "User not found"
    ensures r.Ok? && r.value.Some? ==>
              r.value.value in s.roles && r.value.value.name == FindUser(s.users, userId).value.role
    ensures r.Ok? && r.value.None? ==>
              forall i :: 0 <= i < |s.roles| ==> s.roles[i].name != FindUser(s.users, userId).value.role
  {
    match FindUser(s.users, userId)
    case None => Err("User not found")
    case Some(u) => Ok(FindRole(s.roles, u.role))
  }

  /** The role every caller below works with; an unknown user and a missing
      role both end in the callers' `catch`, so both resolve to `None`. */
  function ResolvedRole(s: Store, userId: string): Option<Role> {
    match GetUserRole(s, userId)
    case Ok(Some(role)) => Some(role)
    case _ => None
  }

  /** The reply message of `checkModelAccess`. */
  datatype AccessMessage = NotConfigured | AccessGranted | ModelDisabled | CheckFailed

  datatype AccessInfo = AccessInfo(hasAccess: bool, coefficient: real, message: AccessMessage)

  /** `checkModelAccess`: a resolved role with an entry for the model gives the
      entry's flag and coefficient; no entry gives no access at the neutral
      coefficient; any failure gives no access at the neutral coefficient.
      It never fails. */
  function CheckModelAccess(s: Store, userId: string, model: string): (info: AccessInfo)
    ensures ResolvedRole(s, userId).None? ==> info == AccessInfo(false, 1.0, CheckFailed)
    ensures ResolvedRole(s, userId).Some? && Lookup(AccessOf(ResolvedRole(s, userId).value), model).None? ==>
              info == AccessInfo(false, 1.0, NotConfigured)
    ensures ResolvedRole(s, userId).Some? && Lookup(AccessOf(ResolvedRole(s, userId).value), model).Some? ==>
              var e := Lookup(AccessOf(ResolvedRole(s, userId).value), model).value;
              && info.hasAccess == e.enabled
              && info.coefficient == e.coefficient
              && info.message == (if e.enabled then AccessGranted else ModelDisabled)
    ensures info.hasAccess ==>
              ResolvedRole(s, userId).Some? &&
              Lookup(AccessOf(ResolvedRole(s, userId).value), model) == Some(AccessEntry(true, info.coefficient))
  {
    match ResolvedRole(s, userId)
    case None => AccessInfo(false, 1.0, CheckFailed)
    case Some(role) =>
      match Lookup(AccessOf(role), model)
      case None => AccessInfo(false, 1.0, NotConfigured)
      case Some(e) => AccessInfo(e.enabled, e.coefficient, if e.enabled then AccessGranted else ModelDisabled)
  }

  /** `getModelCoefficient`: the configured coefficient when the user's role
      has an entry for the model, the neutral 1.0 otherwise. */
  function GetModelCoefficient(s: Store, userId: string, model: string): (c: real)
    ensures ResolvedRole(s, userId).None? ==> c == 1.0
    ensures ResolvedRole(s, userId).Some? ==>
              c == Lookup(AccessOf(ResolvedRole(s, userId).value), model).GetOr(NewAccessEntry()).coefficient
  {
    CheckModelAccess(s, userId, model).coefficient
  }

  /** Every role's access map is within the schema's coefficient bounds. */
  ghost predicate CoefficientsValid(s: Store) {
    forall i :: 0 <= i < |s.roles| ==> ValidModelAccess(AccessOf(s.roles[i]))
  }

  /** Pricing always receives an in-range multiplier: the configured one, which
      the schema bounds, or the neutral default. */
  lemma {:induction false} CoefficientInRange(s: Store, userId: string, model: string)
    requires CoefficientsValid(s)
    ensures ValidCoefficient(GetModelCoefficient(s, userId, model))
  {
    match ResolvedRole(s, userId)
    case None =>
    case Some(role) =>
      var i :| 0 <= i < |s.roles| && s.roles[i] == role;
      assert ValidModelAccess(AccessOf(role));
      match Lookup(AccessOf(role), model)
      case None =>
      case Some(e) =>
        var j :| 0 <= j < |AccessOf(role)| && AccessOf(role)[j] == (model, e);
        assert ValidCoefficient(AccessOf(role)[j].1.coefficient);
  }

  /** `hasRoleManagementPermission`: true exactly when the user resolves to a
      role whose `ROLE_MANAGEMENT` group sets `action`; false on any failure. */
  function HasRoleManagementPermission(s: Store, userId: string, action: string): (b: bool)
    ensures b <==> ResolvedRole(s, userId).Some? && Granted(ResolvedRole(s, userId).value, ROLE_MANAGEMENT, action)
    ensures FindUser(s.users, userId).None? ==> !b
  {
    match ResolvedRole(s, userId)
    case None => false
    case Some(role) => Granted(role, ROLE_MANAGEMENT, action)
  }

  /** `hasBalanceManagementPermission`: true exactly when the user resolves to
      a role with `BALANCE_MANAGEMENT.UPDATE` set; false on any failure. */
  function HasBalanceManagementPermission(s: Store, userId: string): (b: bool)
    ensures b <==> ResolvedRole(s, userId).Some? && Granted(ResolvedRole(s, userId).value, BALANCE_MANAGEMENT, UPDATE)
    ensures FindUser(s.users, userId).None? ==> !b
  {
    match ResolvedRole(s, userId)
    case None => false
    case Some(role) => Granted(role, BALANCE_MANAGEMENT, UPDATE)
  }

  /** After a user is moved to another role, both permission checks answer
      from that role's flags alone: moving a user to a role that grants an
      action grants it to them, and moving them to one that does not takes it
      away. */
  lemma PermissionsFollowReassignment(s: Store, userId: string, role: string, action: string)
    requires ReassignRole(s, userId, role).Ok?
    ensures var s' := ReassignRole(s, userId, role).value.0;
            var target := FindRole(s.roles, role).value;
            && HasRoleManagementPermission(s', userId, action) == Granted(target, ROLE_MANAGEMENT, action)
            && HasBalanceManagementPermission(s', userId) == Granted(target, BALANCE_MANAGEMENT, UPDATE)
  {
  }

  /** One entry of the available-models list. */
  datatype ModelInfo = ModelInfo(name: string, coefficient: real)

  /** The enabled entries of an access map as `{ name, coefficient }`, in the
      map's iteration order. */
  function EnabledModels(m: ModelAccess): (r: seq<ModelInfo>)
    ensures |r| <= |m|
    ensures forall i :: 0 <= i < |r| ==> (r[i].name, AccessEntry(true, r[i].coefficient)) in m
    ensures forall i :: 0 <= i < |m| && m[i].1.enabled ==> ModelInfo(m[i].0, m[i].1.coefficient) in r
  {
    if |m| == 0 then []
    else
      var init := m[..|m| - 1];
      var last := m[|m| - 1];
      assert forall x :: x in init ==> x in m;
      EnabledModels(init) + (if last.1.enabled then [ModelInfo(last.0, last.1.coefficient)] else [])
  }

  /** The models a user may use, by the reference definition; `[]` on failure. */
  function AvailableModels(s: Store, userId: string): seq<ModelInfo> {
    match ResolvedRole(s, userId)
    case None => []
    case Some(role) => EnabledModels(AccessOf(role))
  }

  /** `getUserAvailableModels`: walks the role's access map and collects the
      enabled entries; an unknown user or a missing role gives `[]`. */
  method GetUserAvailableModels(s: Store, userId: string) returns (models: seq<ModelInfo>)
    ensures models == AvailableModels(s, userId)
    ensures ResolvedRole(s, userId).None? ==> models == []
  {
    models := [];
    var role := ResolvedRole(s, userId);
    if role.None? {
      return;
    }
    var m := AccessOf(role.value);
    var i := 0;
    while i < |m|
      invariant 0 <= i <= |m|
      invariant models == EnabledModels(m[..i])
    {
      assert m[..i + 1][..i] == m[..i];
      if m[i].1.enabled {
        models := models + [ModelInfo(m[i].0, m[i].1.coefficient)];
      }
      i := i + 1;
    }
    assert m[..|m|] == m;
  }
}
