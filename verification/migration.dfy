/** The role migration shared by both migration scripts: every stored role
    gets the management permission groups and an access map it lacks, and
    each default role is created when no role of its name exists. */
module Migration {
  import opened Wrappers
  import opened AssocList
  import opened RoleSchema
  import Seqs

  /** A role the fill step leaves alone: it has permissions holding both
      management groups, and an access map. */
  predicate Filled(r: Role) {
    && r.permissions.Some?
    && ROLE_MANAGEMENT in r.permissions.value
    && BALANCE_MANAGEMENT in r.permissions.value
    && r.modelAccess.Some?
  }

  /** The per-role step: missing permissions become empty; a missing
      `ROLE_MANAGEMENT` group gets `CREATE`, `UPDATE` and `DELETE` all equal
      to whether the role is `ADMIN`, and a missing `BALANCE_MANAGEMENT` group
      gets `UPDATE` likewise; a missing access map becomes empty. Groups and
      access maps that exist are kept as they are. The flag says whether the
      role is saved (and counted), which is exactly when it changed. */
  function FillRole(r: Role): (p: (Role, bool))
    ensures p.1 <==> !Filled(r)
    ensures Filled(p.0) && p.0.name == r.name
    ensures forall g :: g in PermissionsOf(r) ==> g in p.0.permissions.value && p.0.permissions.value[g] == PermissionsOf(r)[g]
    ensures r.modelAccess.Some? ==> p.0.modelAccess == r.modelAccess
    ensures r.modelAccess.None? ==> p.0.modelAccess == Some([])
  {
    var perms := PermissionsOf(r);
    var isAdmin := r.name == ADMIN;
    var withRoles := if ROLE_MANAGEMENT in perms then perms else perms[ROLE_MANAGEMENT := RoleManagementGroup(isAdmin)];
    var withBalance := if BALANCE_MANAGEMENT in withRoles then withRoles
                       else withRoles[BALANCE_MANAGEMENT := BalanceManagementGroup(isAdmin)];
    var access := if r.modelAccess.None? then Some([]) else r.modelAccess;
    var changed := r.permissions.None? || ROLE_MANAGEMENT !in perms || BALANCE_MANAGEMENT !in perms || r.modelAccess.None?;
    (Role(r.name, Some(withBalance), access), changed)
  }

  /** The groups the per-role step adds: no other group appears; a missing
      `ROLE_MANAGEMENT` gets exactly `CREATE`, `UPDATE` and `DELETE`, each
      set iff the role is `ADMIN`; a missing `BALANCE_MANAGEMENT` gets exactly
      `UPDATE`, set iff the role is `ADMIN`. */
  lemma FillRoleGroups(r: Role)
    ensures var p := FillRole(r).0.permissions.value;
            && p.Keys == PermissionsOf(r).Keys + {ROLE_MANAGEMENT, BALANCE_MANAGEMENT}
            && (ROLE_MANAGEMENT !in PermissionsOf(r) ==>
                  && p[ROLE_MANAGEMENT].Keys == {CREATE, UPDATE, DELETE}
                  && forall a :: a in p[ROLE_MANAGEMENT] ==> p[ROLE_MANAGEMENT][a] == (r.name == ADMIN))
            && (BALANCE_MANAGEMENT !in PermissionsOf(r) ==> p[BALANCE_MANAGEMENT] == map[UPDATE := r.name == ADMIN])
  {
  }

  /** A role is saved exactly when the step changed it. */
  lemma FillRoleSavesIffChanged(r: Role)
    ensures FillRole(r).1 <==> FillRole(r).0 != r
  {
  }

  /** The per-role step is idempotent: a filled role is neither changed nor
      saved again. */
  lemma FillRoleIdempotent(r: Role)
    ensures FillRole(FillRole(r).0) == (FillRole(r).0, false)
  {
  }

  /** The fill step applied to every stored role, in order. */
  function FillAll(roles: seq<Role>): (r: seq<Role>)
    ensures |r| == |roles|
    ensures forall i :: 0 <= i < |roles| ==> r[i] == FillRole(roles[i]).0
  {
    seq(|roles|, i requires 0 <= i < |roles| => FillRole(roles[i]).0)
  }

  /** The number of stored roles the fill step changes. */
  function ChangedCount(roles: seq<Role>): (n: nat)
    ensures n <= |roles|
  {
    if |roles| == 0 then 0
    else ChangedCount(roles[..|roles| - 1]) + (if Filled(roles[|roles| - 1]) then 0 else 1)
  }

  /** Nothing is counted exactly when every role is already filled. */
  lemma {:induction false} ChangedCountZero(roles: seq<Role>)
    ensures ChangedCount(roles) == 0 <==> forall i :: 0 <= i < |roles| ==> Filled(roles[i])
  {
    if |roles| > 0 {
      var init := roles[..|roles| - 1];
      ChangedCountZero(init);
      assert forall i :: 0 <= i < |init| ==> init[i] == roles[i];
    }
  }

  /** The default roles, each under the name it is looked up by; the stored
      copy gets an empty access map. */
  type Defaults = seq<(string, Role)>

  /** Each default is keyed by its own name, as the default tables are. */
  predicate DefaultsNamed(defaults: Defaults) {
    forall i :: 0 <= i < |defaults| ==> defaults[i].1.name == defaults[i].0
  }

  /** Each default already has both management groups. */
  predicate DefaultsFilled(defaults: Defaults) {
    forall i :: 0 <= i < |defaults| ==> Filled(defaults[i].1.(modelAccess := Some([])))
  }

  /** Every default's key names some role. */
  predicate DefaultsPresent(roles: seq<Role>, defaults: Defaults) {
    forall i :: 0 <= i < |defaults| ==> FindRole(roles, defaults[i].0).Some?
  }

  /** The second loop: in order, each default whose key names no role yet
      (roles created earlier in the loop included) is appended with an empty
      access map and counted. Existing roles are kept in place. */
  function AddDefaults(current: seq<Role>, defaults: Defaults): (r: (seq<Role>, nat))
    ensures |current| <= |r.0| && r.0[..|current|] == current
    ensures r.1 == |r.0| - |current| && r.1 <= |defaults|
    decreases |defaults|
  {
    if |defaults| == 0 then (current, 0)
    else
      var key := defaults[0].0;
      var absent := FindRole(current, key).None?;
      var next := if absent then current + [defaults[0].1.(modelAccess := Some([]))] else current;
      var rest := AddDefaults(next, defaults[1..]);
      assert rest.0[..|current|] == rest.0[..|next|][..|current|];
      (rest.0, rest.1 + (if absent then 1 else 0))
  }

  /** `DefaultsNamed` holds of every suffix. */
  lemma DefaultsNamedTail(defaults: Defaults)
    requires DefaultsNamed(defaults) && |defaults| > 0
    ensures DefaultsNamed(defaults[1..])
  {
    forall i | 0 <= i < |defaults[1..]| ensures defaults[1..][i].1.name == defaults[1..][i].0 {
      assert defaults[1..][i] == defaults[i + 1];
    }
  }

  /** After the second loop every default's key names a role. */
  lemma {:induction false} AddDefaultsPresent(current: seq<Role>, defaults: Defaults)
    requires DefaultsNamed(defaults)
    ensures DefaultsPresent(AddDefaults(current, defaults).0, defaults)
    decreases |defaults|
  {
    if |defaults| > 0 {
      var key := defaults[0].0;
      var d := defaults[0].1.(modelAccess := Some([]));
      var next := if FindRole(current, key).None? then current + [d] else current;
      FindRoleAppend(current, d, key);
      DefaultsNamedTail(defaults);
      AddDefaultsPresent(next, defaults[1..]);
      var final := AddDefaults(next, defaults[1..]).0;
      PresentAfterGrowth(next, final, key);
      forall i | 1 <= i < |defaults| ensures FindRole(final, defaults[i].0).Some? {
        assert defaults[1..][i - 1] == defaults[i];
      }
    }
  }

  /** When every default is already present the second loop does nothing. */
  lemma {:induction false} AddDefaultsNoop(current: seq<Role>, defaults: Defaults)
    requires DefaultsPresent(current, defaults)
    ensures AddDefaults(current, defaults) == (current, 0)
    decreases |defaults|
  {
    if |defaults| > 0 {
      assert DefaultsPresent(current, defaults[1..]) by {
        forall i | 0 <= i < |defaults[1..]| ensures FindRole(current, defaults[1..][i].0).Some? {
          assert defaults[1..][i] == defaults[i + 1];
        }
      }
      AddDefaultsNoop(current, defaults[1..]);
    }
  }

  /** Every role the second loop appends is one of the defaults with an
      empty access map. */
  lemma {:induction false} AddDefaultsAppendsDefaults(current: seq<Role>, defaults: Defaults)
    ensures var r := AddDefaults(current, defaults).0;
            forall i :: |current| <= i < |r| ==>
              exists k :: 0 <= k < |defaults| && r[i] == defaults[k].1.(modelAccess := Some([]))
    decreases |defaults|
  {
    if |defaults| > 0 {
      var d := defaults[0].1.(modelAccess := Some([]));
      var next := if FindRole(current, defaults[0].0).None? then current + [d] else current;
      AddDefaultsAppendsDefaults(next, defaults[1..]);
      var r := AddDefaults(current, defaults).0;
      assert r == AddDefaults(next, defaults[1..]).0;
      forall i | |current| <= i < |r|
        ensures exists k :: 0 <= k < |defaults| && r[i] == defaults[k].1.(modelAccess := Some([]))
      {
        if i < |next| {
          assert r[..|next|] == next;
          assert r[i] == next[i] == defaults[0].1.(modelAccess := Some([]));
        } else {
          var k :| 0 <= k < |defaults[1..]| && r[i] == defaults[1..][k].1.(modelAccess := Some([]));
          assert defaults[1..][k] == defaults[k + 1];
        }
      }
    }
  }

  /** A name present in a collection stays present in any extension of it. */
  lemma PresentAfterGrowth(prefix: seq<Role>, whole: seq<Role>, name: string)
    requires |prefix| <= |whole| && whole[..|prefix|] == prefix
    requires FindRole(prefix, name).Some?
    ensures FindRole(whole, name).Some?
  {
    var i :| 0 <= i < |prefix| && prefix[i].name == name;
    assert whole[i] == prefix[i];
  }

  /** Looking a name up among the filled roles finds the filled copy of the
      role the same lookup found before. */
  lemma FindRoleFillAll(roles: seq<Role>, name: string)
    ensures FindRole(FillAll(roles), name)
            == if FindRole(roles, name).Some? then Some(FillRole(FindRole(roles, name).value).0) else None
  {
    var filled := FillAll(roles);
    if FindRole(roles, name).Some? {
      var i := RoleIndex(roles, name).value;
      Seqs.FirstIndexAt(filled, (x: Role) => x.name == name, i);
    } else {
      assert forall j :: 0 <= j < |filled| ==> filled[j].name == roles[j].name;
    }
  }

  /** A lookup that succeeds in a prefix finds the same role in any
      extension of it. */
  lemma FindRoleInExtension(prefix: seq<Role>, whole: seq<Role>, name: string)
    requires |prefix| <= |whole| && whole[..|prefix|] == prefix
    requires FindRole(prefix, name).Some?
    ensures FindRole(whole, name) == FindRole(prefix, name)
  {
    var i := RoleIndex(prefix, name).value;
    assert forall j :: 0 <= j <= i ==> whole[j] == prefix[j];
    Seqs.FirstIndexAt(whole, (x: Role) => x.name == name, i);
  }

  /** `migrateRoles`: the fill step over every stored role, then the
      defaults; the count is the number of roles saved by the first loop plus
      the number created by the second. */
  function Migrate(roles: seq<Role>, defaults: Defaults): (r: (seq<Role>, nat))
    ensures |roles| <= |r.0| && r.0[..|roles|] == FillAll(roles)
    ensures forall i :: 0 <= i < |roles| ==> Filled(r.0[i]) && r.0[i].name == roles[i].name
    ensures r.1 == ChangedCount(roles) + (|r.0| - |roles|)
  {
    assert forall i :: 0 <= i < |roles| ==>
             AddDefaults(FillAll(roles), defaults).0[i] == AddDefaults(FillAll(roles), defaults).0[..|roles|][i];
    (AddDefaults(FillAll(roles), defaults).0, ChangedCount(roles) + AddDefaults(FillAll(roles), defaults).1)
  }

  /** After a migration every role is filled, provided the defaults are, and
      every default is present, provided each is keyed by its name. */
  lemma MigrateFillsEverything(roles: seq<Role>, defaults: Defaults)
    requires DefaultsNamed(defaults)
    ensures DefaultsPresent(Migrate(roles, defaults).0, defaults)
    ensures DefaultsFilled(defaults) ==> forall i :: 0 <= i < |Migrate(roles, defaults).0| ==> Filled(Migrate(roles, defaults).0[i])
  {
    var filled := FillAll(roles);
    AddDefaultsPresent(filled, defaults);
    if DefaultsFilled(defaults) {
      AddDefaultsAppendsDefaults(filled, defaults);
      var r := Migrate(roles, defaults).0;
      assert r == AddDefaults(filled, defaults).0;
      forall i | 0 <= i < |r| ensures Filled(r[i]) {
        if i >= |roles| {
          var k :| 0 <= k < |defaults| && r[i] == defaults[k].1.(modelAccess := Some([]));
        }
      }
    }
  }

  /** A store whose roles are all filled and that holds every default is
      left exactly as it is, with nothing counted. */
  lemma {:induction false} MigrateStable(roles: seq<Role>, defaults: Defaults)
    requires forall i :: 0 <= i < |roles| ==> Filled(roles[i])
    requires DefaultsPresent(roles, defaults)
    ensures Migrate(roles, defaults) == (roles, 0)
  {
    assert FillAll(roles) == roles;
    ChangedCountZero(roles);
    AddDefaultsNoop(roles, defaults);
  }

  /** Running the migration a second time changes and counts nothing, when
      the defaults are complete (as the hard-coded ones are). */
  lemma {:induction false} MigrateIdempotent(roles: seq<Role>, defaults: Defaults)
    requires DefaultsNamed(defaults) && DefaultsFilled(defaults)
    ensures var once := Migrate(roles, defaults).0;
            Migrate(once, defaults) == (once, 0)
  {
    MigrateFillsEverything(roles, defaults);
    MigrateStable(Migrate(roles, defaults).0, defaults);
  }

  /** Whatever the defaults, a third run changes and counts nothing: the
      second run fills the defaults the first one created and creates
      nothing itself. */
  lemma {:induction false} MigrateSettlesAfterTwoRuns(roles: seq<Role>, defaults: Defaults)
    requires DefaultsNamed(defaults)
    ensures var once := Migrate(roles, defaults).0;
            |Migrate(once, defaults).0| == |once|
    ensures var twice := Migrate(Migrate(roles, defaults).0, defaults).0;
            Migrate(twice, defaults) == (twice, 0)
  {
    var once := Migrate(roles, defaults).0;
    MigrateFillsEverything(roles, defaults);
    var filled := FillAll(once);
    assert DefaultsPresent(filled, defaults) by {
      forall i | 0 <= i < |defaults| ensures FindRole(filled, defaults[i].0).Some? {
        var j :| 0 <= j < |once| && once[j].name == defaults[i].0;
        assert filled[j].name == defaults[i].0;
      }
    }
    AddDefaultsNoop(filled, defaults);
    var twice := Migrate(once, defaults).0;
    assert twice == filled;
    MigrateFillsEverything(once, defaults);
    MigrateStable(twice, defaults);
  }

  /** The migration keeps role names unique. */
  lemma {:induction false} MigrateKeepsNamesUnique(roles: seq<Role>, defaults: Defaults)
    requires DefaultsNamed(defaults)
    requires NamesUnique(roles)
    ensures NamesUnique(Migrate(roles, defaults).0)
  {
    var filled := FillAll(roles);
    assert NamesUnique(filled) by {
      forall i, j | 0 <= i < j < |filled| ensures filled[i].name != filled[j].name {
        assert filled[i].name == roles[i].name && filled[j].name == roles[j].name;
      }
    }
    AddDefaultsKeepsNamesUnique(filled, defaults);
  }

  /** Appending a default only under a name that is absent keeps role names
      unique. */
  lemma {:induction false} AddDefaultsKeepsNamesUnique(current: seq<Role>, defaults: Defaults)
    requires DefaultsNamed(defaults)
    requires NamesUnique(current)
    ensures NamesUnique(AddDefaults(current, defaults).0)
    decreases |defaults|
  {
    if |defaults| > 0 {
      var d := defaults[0].1.(modelAccess := Some([]));
      var next := if FindRole(current, defaults[0].0).None? then current + [d] else current;
      DefaultsNamedTail(defaults);
      assert NamesUnique(next);
      AddDefaultsKeepsNamesUnique(next, defaults[1..]);
    }
  }

  /** The first loop of `migrateRoles`: fills each stored role in turn and
      counts the ones it saves. */
  method FillRoles(roles: seq<Role>) returns (result: seq<Role>, saved: nat)
    ensures result == FillAll(roles) && saved == ChangedCount(roles)
  {
    result := [];
    saved := 0;
    var i := 0;
    while i < |roles|
      invariant 0 <= i <= |roles|
      invariant |result| == i
      invariant forall k :: 0 <= k < i ==> result[k] == FillRole(roles[k]).0
      invariant saved == ChangedCount(roles[..i])
    {
      assert roles[..i + 1][..i] == roles[..i] && roles[..i + 1][i] == roles[i];
      var step := FillRole(roles[i]);
      if step.1 {
        saved := saved + 1;
      }
      result := result + [step.0];
      i := i + 1;
    }
    assert roles[..|roles|] == roles;
  }

  /** The second loop of `migrateRoles`: creates each absent default in turn
      and counts the ones it creates. */
  method CreateDefaults(current: seq<Role>, defaults: Defaults) returns (result: seq<Role>, created: nat)
    ensures (result, created) == AddDefaults(current, defaults)
  {
    result := current;
    created := 0;
    var j := 0;
    while j < |defaults|
      invariant 0 <= j <= |defaults|
      invariant AddDefaults(result, defaults[j..]).0 == AddDefaults(current, defaults).0
      invariant created + AddDefaults(result, defaults[j..]).1 == AddDefaults(current, defaults).1
    {
      assert defaults[j..][0] == defaults[j] && defaults[j..][1..] == defaults[j + 1..];
      if FindRole(result, defaults[j].0).None? {
        result := result + [defaults[j].1.(modelAccess := Some([]))];
        created := created + 1;
      }
      j := j + 1;
    }
  }

  /** `migrateRoles` as the scripts run it: one pass filling and counting
      the stored roles, then one pass over the defaults. */
  method MigrateRoles(roles: seq<Role>, defaults: Defaults) returns (result: seq<Role>, migratedCount: nat)
    ensures result == Migrate(roles, defaults).0
    ensures migratedCount == Migrate(roles, defaults).1
  {
    var filled, saved := FillRoles(roles);
    var created;
    result, created := CreateDefaults(filled, defaults);
    assert result == AddDefaults(filled, defaults).0 && created == AddDefaults(filled, defaults).1;
    migratedCount := saved + created;
    MigrateUnfold(roles, defaults);
  }

  /** The migration is the fill step followed by the defaults step. */
  lemma MigrateUnfold(roles: seq<Role>, defaults: Defaults)
    ensures Migrate(roles, defaults).0 == AddDefaults(FillAll(roles), defaults).0
    ensures Migrate(roles, defaults).1 == ChangedCount(roles) + AddDefaults(FillAll(roles), defaults).1
  {
  }

  /** The hard-coded defaults of the simple script: `ADMIN` holding every
      management permission and `USER` holding none. */
  function SimpleDefaults(): (d: Defaults)
    ensures DefaultsNamed(d) && DefaultsFilled(d)
    ensures |d| == 2 && d[0].0 == ADMIN && d[1].0 == USER
    ensures forall a :: a in {CREATE, UPDATE, DELETE} ==>
              Granted(d[0].1, ROLE_MANAGEMENT, a) && !Granted(d[1].1, ROLE_MANAGEMENT, a)
    ensures Granted(d[0].1, BALANCE_MANAGEMENT, UPDATE) && !Granted(d[1].1, BALANCE_MANAGEMENT, UPDATE)
  {
    [(ADMIN, Role(ADMIN, Some(ManagementGroups(true)), Some([]))),
     (USER, Role(USER, Some(ManagementGroups(false)), Some([])))]
  }

  /** For the two built-in names the fill step and the defaults agree: a
      bare `ADMIN` or `USER` document is filled to exactly the default the
      simple script would have created. */
  lemma FillMatchesSimpleDefaults()
    ensures FillRole(Role(ADMIN, None, None)).0 == SimpleDefaults()[0].1
    ensures FillRole(Role(USER, None, None)).0 == SimpleDefaults()[1].1
  {
  }

  /** The simple script, `migrateRoles` with its hard-coded defaults, is
      idempotent. */
  lemma SimpleMigrationIdempotent(roles: seq<Role>)
    ensures var once := Migrate(roles, SimpleDefaults()).0;
            Migrate(once, SimpleDefaults()) == (once, 0)
  {
    MigrateIdempotent(roles, SimpleDefaults());
  }

  /** On an empty store the simple script creates exactly its two defaults
      and counts two. */
  lemma SimpleMigrationOnEmptyStore()
    ensures Migrate([], SimpleDefaults()) == ([SimpleDefaults()[0].1, SimpleDefaults()[1].1], 2)
  {
    var d := SimpleDefaults();
    var admin := d[0].1;
    var user := d[1].1;
    assert admin.(modelAccess := Some([])) == admin && user.(modelAccess := Some([])) == user;
    assert d[1..][0] == d[1] && d[1..][1..] == [];
    assert FindRole([], ADMIN).None?;
    assert FindRole([admin], USER).None?;
    assert [admin] + [user] == [admin, user] && [] + [admin] == [admin];
    assert AddDefaults([admin] + [user], d[1..][1..]) == ([admin, user], 0);
    assert AddDefaults([admin], d[1..]) == ([admin, user], 1);
    assert AddDefaults([], d) == ([admin, user], 2);
    assert FillAll([]) == [];
  }
}
