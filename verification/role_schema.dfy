/** The role document: a name, nested permission flags grouped by capability,
    and a per-model access map carrying an enable flag and a price coefficient. */
module RoleSchema {
  import opened Wrappers
  import opened AssocList
  import Seqs

  /** The actions of one capability, each granted or not (`{ CREATE: true, ... }`). */
  type Group = map<string, bool>

  /** Capability name to its action flags (`role.permissions`). Key order is
      never observed, so a map suffices. */
  type Permissions = map<string, Group>

  /** One model's configuration (`modelAccessSchema`). */
  datatype AccessEntry = AccessEntry(enabled: bool, coefficient: real)

  /** Model name to its configuration, in insertion order (`role.modelAccess`). */
  type ModelAccess = Assoc<AccessEntry>

  /** A role document; a field a document lacks is `None`. */
  datatype Role = Role(name: string, permissions: Option<Permissions>, modelAccess: Option<ModelAccess>)

  const ADMIN: string := "ADMIN"
  const USER: string := "USER"

  const ROLE_MANAGEMENT: string := "ROLE_MANAGEMENT"
  const BALANCE_MANAGEMENT: string := "BALANCE_MANAGEMENT"
  const CREATE: string := "CREATE"
  const UPDATE: string := "UPDATE"
  const DELETE: string := "DELETE"

  const MIN_COEFFICIENT: real := 0.1
  const MAX_COEFFICIENT: real := 10.0
  /** The neutral price multiplier. */
  const DEFAULT_COEFFICIENT: real := 1.0

  /** The `min: 0.1, max: 10.0` bounds on a coefficient. */
  predicate ValidCoefficient(c: real) {
    MIN_COEFFICIENT <= c <= MAX_COEFFICIENT
  }

  /** Every entry of an access map has a coefficient within bounds. */
  predicate ValidModelAccess(m: ModelAccess) {
    forall i :: 0 <= i < |m| ==> ValidCoefficient(m[i].1.coefficient)
  }

  /** A key a Mongoose `Map` field accepts when a document is cast: it does
      not start with `$` and contains no `.`. */
  predicate MapKey(k: string) {
    !(|k| > 0 && k[0] == '$') && '.' !in k
  }

  /** Every model name of an access map is a key a Mongoose `Map` accepts. */
  predicate AccessKeysValid(m: ModelAccess) {
    forall i :: 0 <= i < |m| ==> MapKey(m[i].0)
  }

  /** Every capability name of a permissions object is a key a Mongoose
      `Map` accepts. */
  predicate PermissionKeysValid(p: Permissions) {
    forall g :: g in p ==> MapKey(g)
  }

  /** A model-access entry created with no fields given takes the schema
      defaults: disabled, at the neutral coefficient, which is within bounds. */
  function NewAccessEntry(): (e: AccessEntry)
    ensures !e.enabled
    ensures e.coefficient == DEFAULT_COEFFICIENT && ValidCoefficient(e.coefficient)
  {
    AccessEntry(false, 1.0)
  }

  /** The permissions of a role, empty when the document has none. */
  function PermissionsOf(r: Role): Permissions {
    r.permissions.GetOr(map[])
  }

  /** The access map of a role, empty when the document has none. */
  function AccessOf(r: Role): ModelAccess {
    r.modelAccess.GetOr([])
  }

  /** `role.permissions?.[group]?.[action] || false`: total and deny-by-default;
      it holds only when the group and the action are both present and set. */
  function Granted(r: Role, group: string, action: string): (b: bool)
    ensures b ==> r.permissions.Some? && group in r.permissions.value
    ensures b ==> action in r.permissions.value[group] && r.permissions.value[group][action]
  {
    group in PermissionsOf(r) && action in PermissionsOf(r)[group] && PermissionsOf(r)[group][action]
  }

  /** The two management capabilities with every action set to `allowed`:
      `ROLE_MANAGEMENT` has exactly `CREATE`, `UPDATE`, `DELETE`, and
      `BALANCE_MANAGEMENT` has exactly `UPDATE`. */
  function ManagementGroups(allowed: bool): (p: Permissions)
    ensures p.Keys == {ROLE_MANAGEMENT, BALANCE_MANAGEMENT}
    ensures p[ROLE_MANAGEMENT].Keys == {CREATE, UPDATE, DELETE}
    ensures p[BALANCE_MANAGEMENT].Keys == {UPDATE}
    ensures forall a :: a in p[ROLE_MANAGEMENT] ==> p[ROLE_MANAGEMENT][a] == allowed
    ensures p[BALANCE_MANAGEMENT][UPDATE] == allowed
  {
    map[ROLE_MANAGEMENT := RoleManagementGroup(allowed),
        BALANCE_MANAGEMENT := BalanceManagementGroup(allowed)]
  }

  function RoleManagementGroup(allowed: bool): Group {
    map[CREATE := allowed, UPDATE := allowed, DELETE := allowed]
  }

  function BalanceManagementGroup(allowed: bool): Group {
    map[UPDATE := allowed]
  }

  /** The `unique: true` constraint on role names. */
  predicate NamesUnique(roles: seq<Role>) {
    forall i, j :: 0 <= i < j < |roles| ==> roles[i].name != roles[j].name
  }

  /** Position of the first role with exactly this name (`findIndex`). */
  function RoleIndex(roles: seq<Role>, name: string): Option<nat> {
    Seqs.FirstIndex(roles, (r: Role) => r.name == name)
  }

  /** The first role with exactly this name (`find`, `findOne({ name })`,
      `getRoleByName`); names are compared case-sensitively. */
  function FindRole(roles: seq<Role>, name: string): (r: Option<Role>)
    ensures r.Some? ==> r.value in roles && r.value.name == name
    ensures r.None? <==> forall i :: 0 <= i < |roles| ==> roles[i].name != name
  {
    match RoleIndex(roles, name)
    case Some(i) => Some(roles[i])
    case None => None
  }

  /** A name present in a collection stays present after appending. */
  lemma FindRoleAppend(roles: seq<Role>, extra: Role, name: string)
    ensures FindRole(roles + [extra], name).Some? <==> FindRole(roles, name).Some? || extra.name == name
  {
    var all := roles + [extra];
    if FindRole(roles, name).Some? {
      var i :| 0 <= i < |roles| && roles[i].name == name;
      assert all[i].name == name;
    }
    if extra.name == name {
      assert all[|roles|].name == name;
    }
  }

  /** With unique names, removing the role at `i` makes its name absent, keeps
      every other name's lookup, and keeps the names unique. */
  lemma {:induction false} FindRoleRemoveAt(roles: seq<Role>, i: nat, other: string)
    requires NamesUnique(roles) && i < |roles|
    ensures FindRole(Seqs.RemoveAt(roles, i), roles[i].name).None?
    ensures other != roles[i].name ==> FindRole(Seqs.RemoveAt(roles, i), other) == FindRole(roles, other)
    ensures NamesUnique(Seqs.RemoveAt(roles, i))
  {
    var rest := Seqs.RemoveAt(roles, i);
    if other != roles[i].name && FindRole(roles, other).Some? {
      var k := RoleIndex(roles, other).value;
      var k' := if k < i then k else k - 1;
      assert rest[k'] == roles[k];
      Seqs.FirstIndexAt(rest, (y: Role) => y.name == other, k');
    }
  }
}
