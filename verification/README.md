# Role, model-access and balance administration — a Dafny model

This project models the administration core of a LibreChat-based service:

- the role document (a name, nested permission flags, and a per-model
  access map with an enable flag and a price coefficient bounded to
  [0.1, 10.0]);
- the resolvers that turn a user id into a role, a permission answer, a
  model-access answer, a coefficient, or the list of enabled models, and
  that deny on every failure;
- the database-backed admin router (`api/server/routes/admin.js`): two
  permission gates, the request schemas, and nine handlers over users,
  balances, the transaction log and roles;
- the in-memory demo server (`librechat-hybrid-server.js`): its fixtures and
  its unchecked handlers, which mutate two arrays;
- the stand-alone commercial server (`commercial-api-server.js`): bearer-token
  extraction, the ADMIN gate, the registration gate, and its own handlers,
  including the ungated `role-temp` endpoint;
- the role migration shared by `config/simple-migrate-roles.js` and
  `config/migrate-roles.js`: fill missing management groups and access maps,
  create missing default roles, count what was saved, and reach a fixed point.

Every handler is a pure function from a store and a request to either an
error tag (the store unchanged) or the new store with the reply. The HTTP
status of each tag is `ApiError.Status`. Modules follow the source files:

- `RoleSchema`: `role.ts`;
- `RoleMethods`: `roleMethods.js`;
- `MongoStore`: the collections the database-backed servers share;
- `AdminRoutes`: `admin.js`;
- `HybridServer`: the demo server;
- `CommercialServer`: the commercial server;
- `Migration`: both migration scripts;
- `MigrationPermissions`: what the migration does to the permission checks
  of `roleMethods.js`.

The other modules (`Wrappers`, `Seqs`, `AssocList`, `Text`, `ApiErrors`,
`Requests`) are support code. A JavaScript object or `Map` whose order can be
observed is an association list (`AssocList`); the spread `{ ...a, ...b }` is
`AssocList.Merge`. Permissions are a Dafny `map`, because their key order is
never observed.

Points where the sources differ, modelled as each file has them:

- Updating a role with an access-map patch MERGES into the old map in the
  demo server (`librechat-hybrid-server.js:827`). It REPLACES the whole map
  in `admin.js:375`. See `HybridServer.UpdateRole` and `AdminRoutes.UpdateRole`.
- Role creation checks for a duplicate under the raw `name` but stores
  `name.toUpperCase()`, in both the demo and the commercial server. With no
  index, the demo server then holds two roles of one name. In the
  database-backed servers the unique index on role names refuses that second
  write, which is a 500. `admin.js` makes the same check.
- `admin.js` uses the `Role` model at lines 287, 329 and 426 but never
  imports it (line 9 imports only `updateRoleByName` and `getRoleByName`). As
  written, those three handlers would throw and answer 500. The model gives
  them the store operation they evidently intend: list, insert and delete on
  the roles collection.
- The adjust-balance handler logs and replies with the requested amount, not
  the applied one. See Findings.

## Model

| member | source | states |
|---|---|---|
| RoleSchema.NewAccessEntry | packages/data-schemas/src/schema/role.ts:8-14 | An access entry created without fields is disabled, with coefficient 1.0, which lies inside the schema's [0.1, 10.0] bounds |
| RoleSchema.Granted | api/models/roleMethods.js:80 | A permission lookup is deny-by-default: it is true only when the role has permissions, the group is present, and the action is present and set |
| RoleSchema.ManagementGroups | packages/data-schemas/src/schema/role.ts:68-75 | The two management groups have exactly CREATE, UPDATE, DELETE and exactly UPDATE, each flag set to the given value |
| RoleSchema.FindRoleRemoveAt | api/server/routes/admin.js:426 | Under unique names, removing one role makes its name absent, leaves every other name's lookup unchanged, and keeps names unique |
| MongoStore.ReassignRole | api/server/routes/admin.js:240-265 | The role change gives 404 for an unknown user and 400 for a role that does not exist; otherwise it reports old and new role, and only that user's role changes |
| MongoStore.UsersWithBalances | api/server/routes/admin.js:93-106 | Every user is listed in order with their credits, and a user with no balance record is listed with 0 |
| MongoStore.BalancedAfterLoggedWrite | api/server/routes/admin.js:136-152 | A balance write that changes one user's credits by exactly the amount it logs keeps every user's credits equal to the sum of their log |
| RoleMethods.GetUserRole | api/models/roleMethods.js:10-23 | Fails with "User not found" exactly when no user has the id; otherwise returns the role named by the user's role, or none when no role has that name |
| RoleMethods.CheckModelAccess | api/models/roleMethods.js:31-58 | A configured entry gives its own flag and coefficient; a missing entry, or any failure, gives no access at 1.0; access is granted only through an enabled entry of the user's own role |
| RoleMethods.GetModelCoefficient | api/models/roleMethods.js:66-69 | The coefficient is the configured one when the role has an entry for the model, and the neutral 1.0 otherwise |
| RoleMethods.CoefficientInRange | api/models/roleMethods.js:66-69 | When every stored access map keeps the schema bounds, every coefficient handed to pricing lies in [0.1, 10.0] |
| RoleMethods.HasRoleManagementPermission | api/models/roleMethods.js:77-85 | True exactly when the user resolves to a role whose ROLE_MANAGEMENT group sets the action; an unknown user gets false |
| RoleMethods.HasBalanceManagementPermission | api/models/roleMethods.js:92-100 | True exactly when the user resolves to a role with BALANCE_MANAGEMENT.UPDATE set; an unknown user gets false |
| RoleMethods.PermissionsFollowReassignment | api/models/roleMethods.js:77-100 | After a user is moved to another role, both permission checks answer from that role's flags alone, so moving a user grants or removes the management permissions of the target role |
| RoleMethods.EnabledModels | api/models/roleMethods.js:112-121 | Every listed model is an enabled entry of the access map with its coefficient, and every enabled entry is listed |
| RoleMethods.GetUserAvailableModels | api/models/roleMethods.js:107-128 | The loop collects exactly the enabled entries in map order; an unknown user or a missing role gives an empty list |
| AdminRoutes.ListUsers | api/server/routes/admin.js:91-117 | 403 exactly when the caller lacks ROLE_MANAGEMENT.UPDATE; otherwise entry i is user i with that user's credits |
| AdminRoutes.ListUsersAfterSetBalance | api/server/routes/admin.js:91-173 | After a balance is set, the list is visible to the same callers and shows the same users, the new balance for that user and the old one for everybody else |
| AdminRoutes.SetBalance | api/server/routes/admin.js:123-173 | The error order is gate, then schema (balance >= 0), then user. On success the credits equal the request, the reply's change is new minus old, one admin_balance_set record logs that change, and no other user or role changes |
| AdminRoutes.SetBalanceKeepsLedgerBalanced | api/server/routes/admin.js:136-152 | Setting a balance keeps every user's credits equal to the sum of their logged amounts |
| AdminRoutes.AdjustBalance | api/server/routes/admin.js:179-229 | Credits become max(0, old + amount); the record and the reply's change carry the requested amount even when it was clamped; no other user changes |
| AdminRoutes.AdjustBalanceLedgerIffNotClamped | api/server/routes/admin.js:197-216 | As written, an adjustment keeps the log explaining the balances if and only if old + amount is not negative |
| AdminRoutes.AdjustBalanceApplied | api/server/routes/admin.js:197-216 | The corrected adjustment applies the same clamped update, but its record and reply carry new minus old |
| AdminRoutes.AdjustBalanceAppliedKeepsLedgerBalanced | api/server/routes/admin.js:197-216 | The corrected adjustment always keeps the log explaining every balance |
| AdminRoutes.ChangeUserRole | api/server/routes/admin.js:235-279 | The error order is gate (403), unknown user (404), then unknown role (400), and the change succeeds exactly when all three pass; it reports old and new role, only that user's role changes, and every other user, the roles, balances and log stay as they were |
| AdminRoutes.UserModelsAfterChangeUserRole | api/server/routes/admin.js:235-279 | After a role change the user resolves to the new role, and the models listed for them are exactly that role's enabled entries |
| AdminRoutes.ListRoles | api/server/routes/admin.js:285-304 | Every role is listed with its name and permissions, and an absent access map is listed as empty |
| AdminRoutes.CreateRole | api/server/routes/admin.js:310-351 | With the corrected permissions parser (see Findings): the error order is gate, schema (non-empty name, coefficients in bounds), then a role with the raw name (400), then the `Map` cast of the access map, which refuses a model name containing `.` or starting with `$` (500), then the unique index (500). On success exactly one role is appended, under the upper-cased name, with the given permissions and access map, empty when absent |
| AdminRoutes.ListRolesAfterCreate | api/server/routes/admin.js:285-351 | After a role is created, the creator's role list is the old list followed by exactly the new role |
| AdminRoutes.StrippedCreateGrantsNothing | api/server/routes/admin.js:70-77 | With the stripping parser, a created role grants no action, whatever permissions the request carried |
| AdminRoutes.CreateRoleKeepsNamesUnique | packages/data-schemas/src/schema/role.ts:81 | Creating a role never breaks the uniqueness of role names |
| AdminRoutes.UpdateRole | api/server/routes/admin.js:357-399 | Gate, schema, then 404, then a 500 when the access-map patch holds a model name the `Map` cast refuses. A permissions patch replaces whole groups and keeps the others; an access-map patch replaces the whole map; only that role changes, and it keeps its name |
| AdminRoutes.InvalidModelNameRefused | api/server/routes/admin.js:326-378 | A model name the `Map` cast refuses makes both role creation and an access-map update fail, whatever else the request holds |
| AdminRoutes.DemoModelNameIsNotMapKey | librechat-hybrid-server.js:58 | The demo fixture's model name `gpt-3.5-turbo` is not a key a Mongoose `Map` accepts |
| AdminRoutes.UpdateRoleGrants | api/server/routes/admin.js:371-373 | After an update, a group named in the patch grants exactly what the patch says, and every other group grants what it granted before |
| AdminRoutes.ParsedPermissionsAsWritten | api/server/routes/admin.js:72 | The permissions schema z.object({}) keeps none of the keys it is given, so a given object parses to an empty one |
| AdminRoutes.StrippedPatchGrantsNothingNew | api/server/routes/admin.js:79-85 | With the stripping parser, a permissions patch never changes what a role grants |
| AdminRoutes.DeleteRole | api/server/routes/admin.js:405-438 | The error order is gate, absent role (404), then a role still held by some user (400), and the delete succeeds exactly when all pass; the first role of that name is removed and the others keep their order |
| AdminRoutes.DeleteRoleRemovesOnlyThatRole | api/server/routes/admin.js:426 | With unique names, the deleted role is gone, every other lookup is unchanged, and names stay unique |
| AdminRoutes.ListRolesAfterDelete | api/server/routes/admin.js:285-438 | With unique names, after a delete the deleting caller's role list has one role fewer and none of that name |
| AdminRoutes.UserModels | api/server/routes/admin.js:444-469 | Gate, then 404 for an unknown user; the reply is the enabled entries of the user's role, in map order, and is empty when that role is missing |
| HybridServer.InitialStore | librechat-hybrid-server.js:20-78 | The fixtures have unique role names; ADMIN grants every management action; USER grants none and enables only gpt-3.5-turbo at 1.0; every fixture user holds an existing role |
| HybridServer.CreateRole | librechat-hybrid-server.js:632-664 | 400 exactly when a role has the raw name; otherwise one role is appended under the upper-cased name, with absent permissions and access map stored as empty |
| HybridServer.CreateRoleTwiceDuplicates | librechat-hybrid-server.js:637-652 | Creating a name with a lower-case letter twice succeeds both times and leaves two roles of the same name |
| HybridServer.CreateRoleNormalized | librechat-hybrid-server.js:637-652 | The corrected creation refuses exactly when the upper-cased name is taken, and preserves unique names |
| HybridServer.CreateRoleNormalizedRefusesSecond | librechat-hybrid-server.js:637-652 | With the corrected check, a second creation of the same name in any letter case is refused |
| HybridServer.CreateRoleNormalizedRefusesStoredName | librechat-hybrid-server.js:637-652 | With the corrected check, creating the stored upper-cased name after any spelling of it is refused |
| HybridServer.SetBalance | librechat-hybrid-server.js:667-697 | 404 exactly when no user has the id; otherwise that user's balance becomes the request, negative or not, the reply reports old, new and difference, and nothing else changes |
| HybridServer.ChangeUserRole | librechat-hybrid-server.js:700-736 | 404 for an unknown user and 400 when no role has the name; the change succeeds exactly when both exist, and then only that user's role changes |
| HybridServer.UserModels | librechat-hybrid-server.js:739-770 | 404 for an unknown user; 404 (role) exactly when the user's role is missing; success exactly when both exist, with the role's name and its whole access map, disabled entries included |
| HybridServer.UserModelsAfterChangeUserRole | librechat-hybrid-server.js:700-770 | After a role change, the models reply names the new role and carries its access map |
| HybridServer.DeleteRole | librechat-hybrid-server.js:773-806 | 404 when absent and 400 while any user holds the role; success exactly otherwise, when the first role of that name is spliced out and the users stay as they were |
| HybridServer.DeleteRoleRemovesOnlyThatRole | librechat-hybrid-server.js:777-794 | With unique names, the deleted role is gone and every other lookup is unchanged |
| HybridServer.UpdateRole | librechat-hybrid-server.js:809-840 | 404 when absent. Both patches are spread over the old values (permissions by group, the access map by model), and only that role changes |
| HybridServer.UpdateRoleMergesAccess | librechat-hybrid-server.js:826-828 | After an update, a model named in the access patch reads its entry from the patch, and every other model keeps its old entry |
| HybridServer.ListUsers | librechat-hybrid-server.js:602-614 | The reply's total is the number of users it lists |
| HybridServer.ListRoles | librechat-hybrid-server.js:617-629 | The reply's total is the number of roles it lists |
| HybridServer.ListUsersAfterSetBalance | librechat-hybrid-server.js:602-697 | After a balance is set, the listing has the same users in the same order, the new balance for the first user with that id, and the old balance for everybody else |
| HybridServer.ListRolesAfterCreate | librechat-hybrid-server.js:617-664 | After a role is created, the listing has one more role, the new one, at the end |
| HybridServer.ListRolesAfterDelete | librechat-hybrid-server.js:617-806 | With unique names, after a delete the listing has one role fewer and none of that name |
| HybridServer.CreateUpdateDeleteRestores | librechat-hybrid-server.js:632-840 | Creating a role under a fresh name, updating it and deleting it gives back exactly the store from before the creation |
| HybridServer.CreateThenUpdateAccess | librechat-hybrid-server.js:645-652 | Updating a new role merges the patch's access map over the one it was created with |
| HybridServer.TestRoleScenario | test-admin-api.js:95-115 | On any store without TEST_ROLE, the walkthrough's create, update of gpt-4-turbo to 1.6, and delete succeed; the update changes that entry in place; the delete restores the starting store |
| HybridServer.InitialStoreAdmitsTestRole | test-admin-api.js:18-43 | The fixtures hold no TEST_ROLE and no fixture user has it, so the walkthrough can start from them |
| CommercialServer.ExtractToken | commercial-api-server.js:110-111 | The token is the second space-separated field of the header; it is absent when there is no header or that field is missing or empty, and it never contains a space |
| CommercialServer.BearerRoundTrip | commercial-api-server.js:111 | A header of a scheme, one space and a token, with or without trailing fields, yields exactly that token |
| CommercialServer.MalformedHeaderHasNoToken | commercial-api-server.js:111-118 | A header without a space, or with two spaces after the scheme, yields no token |
| CommercialServer.Authenticate | commercial-api-server.js:109-130 | No token gives 401 and a failed verification gives 403; otherwise the verified claims |
| CommercialServer.AdminGate | commercial-api-server.js:133-141 | After authentication the claims must name exactly ADMIN, else 403; success means an ADMIN caller |
| CommercialServer.Register | commercial-api-server.js:408-451 | The 403 happens exactly when users exist and the request is not for ADMIN. Past that gate, a 500 happens exactly for a missing password, a missing or empty e-mail, or a taken lower-cased e-mail. The stored role defaults to ADMIN, and the user is appended under the fresh id |
| CommercialServer.RegisterKeepsLaterUsersAdmin | commercial-api-server.js:413-419 | Registration keeps every user after the first an administrator |
| CommercialServer.RegisterDefaultsToAdmin | commercial-api-server.js:430 | A registration without a role is accepted only into an empty store, and makes an administrator |
| CommercialServer.RegisterKeepsUsersUnique | commercial-api-server.js:52 | Registration keeps e-mails unique, and the new id finds the new user |
| CommercialServer.AnyoneCanRegisterAdmin | commercial-api-server.js:413-419 | As written, a request without any token that asks for ADMIN registers an administrator, whatever users exist |
| CommercialServer.RegisterByAdmin | commercial-api-server.js:407-419 | The corrected registration runs the ADMIN gate once users exist and refuses with its error; past the gate it behaves as registration |
| CommercialServer.RegisterByAdminRefusesOthers | commercial-api-server.js:407-419 | With the corrected gate, a caller without a valid administrator token can never add a user to a non-empty store |
| CommercialServer.ListUsers | commercial-api-server.js:454-480 | Gate, then every user in order with their credits (0 without a record) |
| CommercialServer.ListRoles | commercial-api-server.js:483-496 | Gate, then every role in collection order |
| CommercialServer.SetBalance | commercial-api-server.js:533-575 | Gate, then 404. The credits become the request whatever its sign, the old value is 0 when there was no record, nothing is logged, and no other user's credits change |
| CommercialServer.CreateRole | commercial-api-server.js:499-530 | Gate. A role with the raw name gives 400; an empty name, a capability or model name the `Map` cast refuses (containing `.` or starting with `$`), or a taken upper-cased name gives 500. On success one role is appended under the upper-cased name |
| CommercialServer.CreateRoleTwiceRefused | commercial-api-server.js:33 | The unique index keeps role names unique, and repeating a successful creation fails |
| CommercialServer.ChangeUserRole | commercial-api-server.js:578-615 | The error order is gate, unknown user (404), then unknown role (400); on success only that user's role changes |
| CommercialServer.ChangeUserRoleTemp | commercial-api-server.js:652-689 | The same change behind authentication alone, with no ADMIN gate |
| CommercialServer.RoleTempBypassesAdminGate | commercial-api-server.js:652-689 | For an ADMIN caller both endpoints agree; for any other authenticated caller the gated one refuses with 403, while the temporary one still changes an existing user to an existing role |
| CommercialServer.UserModels | commercial-api-server.js:618-649 | Gate, then 404 for an unknown user or a missing role, and success exactly when both exist, with the role's name and its whole access map |
| CommercialServer.UserModelsAfterChangeUserRole | commercial-api-server.js:578-649 | After a role change, the models reply names the new role and carries its access map |
| CommercialServer.ListUsersAfterSetBalance | commercial-api-server.js:454-575 | After a balance is set, the user list shows every user in order, the new balance for that user and the old one for everybody else |
| CommercialServer.ListRolesAfterCreate | commercial-api-server.js:483-530 | After a role is created, the role list is the old list followed by the new role |
| Migration.FillRole | config/simple-migrate-roles.js:48-87 | The step leaves every role filled and keeps its name, its existing groups and its existing access map; a missing access map becomes empty; the role is saved exactly when it was not already filled |
| Migration.FillRoleGroups | config/migrate-roles.js:36-52 | The step adds only the two management groups: a missing ROLE_MANAGEMENT gets exactly CREATE, UPDATE, DELETE, and a missing BALANCE_MANAGEMENT gets exactly UPDATE, each set if and only if the role is ADMIN |
| MigrationPermissions.FillRoleGrants | config/simple-migrate-roles.js:57-73 | An added management group grants its actions exactly to ADMIN, and a kept group grants what it granted before |
| Migration.FillRoleSavesIffChanged | config/migrate-roles.js:60-65 | A role is saved and counted exactly when the step changed it |
| Migration.FillRoleIdempotent | config/migrate-roles.js:26-66 | A filled role is neither changed nor saved again |
| Migration.FillAll | config/migrate-roles.js:26-66 | The first loop maps the step over every stored role, in order |
| Migration.ChangedCountZero | config/migrate-roles.js:61-65 | The first loop counts nothing exactly when every role is already filled |
| Migration.AddDefaults | config/migrate-roles.js:69-80 | The second loop keeps the existing roles as a prefix and counts exactly the roles it appends |
| Migration.AddDefaultsPresent | config/migrate-roles.js:69-80 | After the second loop every default's name is present |
| Migration.AddDefaultsNoop | config/migrate-roles.js:69-80 | When every default is present, the second loop changes and counts nothing |
| Migration.AddDefaultsAppendsDefaults | config/migrate-roles.js:72-75 | Every role the second loop appends is a default with an empty access map |
| Migration.AddDefaultsKeepsNamesUnique | config/migrate-roles.js:70-71 | Creating a default only under an absent name keeps role names unique |
| Migration.Migrate | config/migrate-roles.js:15-80 | Stored roles are filled in place and keep their names; the count is the roles saved plus the roles created |
| Migration.MigrateFillsEverything | config/migrate-roles.js:15-80 | After a migration every default is present, and every role is filled when the defaults are |
| Migration.MigrateStable | config/migrate-roles.js:15-80 | A store whose roles are all filled and that holds every default is left unchanged, with a count of 0 |
| Migration.MigrateIdempotent | config/migrate-roles.js:15-80 | With complete defaults, a second run changes and counts nothing |
| Migration.MigrateSettlesAfterTwoRuns | config/migrate-roles.js:15-80 | With any defaults, the second run creates nothing, and a third run changes and counts nothing |
| Migration.MigrateKeepsNamesUnique | config/migrate-roles.js:15-80 | A migration keeps role names unique |
| MigrationPermissions.MigrationSetsManagementPermissions | config/simple-migrate-roles.js:48-87 | After a migration, a user whose role lacked a management group passes that permission check exactly when the role is ADMIN, and a group the role already had answers as before |
| Migration.FillRoles | config/simple-migrate-roles.js:46-87 | The loop's result is the fill step over every role, and its counter equals the number of roles changed |
| Migration.CreateDefaults | config/simple-migrate-roles.js:109-117 | The loop appends and counts exactly as the second-loop definition does |
| Migration.MigrateRoles | config/simple-migrate-roles.js:38-119 | The two loops together compute the migration and its migratedCount |
| Migration.SimpleDefaults | config/simple-migrate-roles.js:90-107 | The simple script's defaults are ADMIN, holding every management action, and USER, holding none; both are keyed by name and already filled |
| Migration.FillMatchesSimpleDefaults | config/simple-migrate-roles.js:57-79 | A bare ADMIN or USER document is filled to exactly the default the simple script would create |
| Migration.SimpleMigrationIdempotent | config/simple-migrate-roles.js:38-135 | Running the simple script a second time changes and counts nothing |
| Migration.SimpleMigrationOnEmptyStore | config/simple-migrate-roles.js:89-117 | On an empty store the simple script creates exactly ADMIN then USER, and counts 2 |

## Left out

- HTML pages, Express wiring, CORS, logging, the health and index routes, and the start-up code are not modelled.
- The MongoDB connection is replaced by an immutable `Store`. Each handler is one atomic step, so concurrent requests are not modelled.
- JWT signing and verification are not modelled: `CommercialServer.Verifier` is a parameter, and login (`/auth/login`) is left out. Token expiry is part of what that parameter decides.
- bcrypt hashing is not modelled. The only effect kept is that a missing password throws, which is a 500.
- The demo server's `mockAuth` checks nothing, so the demo handlers have no caller parameter.
- `requireJwtAuth` in `admin.js` is not modelled. The caller id it provides is a parameter.
- Ids from `Date.now()` and `ObjectId` are left out. Role objects carry no id; a new user's id is the parameter `newId`.
- Coefficients are `real`, not IEEE doubles. Balances are unbounded integers, and a fractional `amount` or `balance` is not modelled.
- Upper- and lower-casing act on ASCII letters only. Full Unicode case mapping is not modelled.
- `Role.js` (`getRoleByName`) and `Transaction.js` (`createTransaction`) are not part of this model. The first is modelled as an exact-name lookup, the second as one appended log record.
- RoleSchema.MapKey: it refuses only a key that starts with `$` or contains `.`. A reserved name that a Mongoose version may also refuse, such as `__proto__`, is not modelled.
- Mongoose defaults applied when a document is loaded are not modelled. An absent `permissions` or `modelAccess` stays absent (`None`), as the resolvers and migrations test for. This has a consequence for the migration count. Both migration schemas declare `modelAccess` with `default: new Map()` (`config/simple-migrate-roles.js:19-31`, `packages/data-schemas/src/schema/role.ts:86-90`), and the simple script does the same for `permissions`. A loaded document therefore never lacks them, and the scripts never save or count a role whose only gap is the access map (or, in the simple script, the whole permissions object). `Migration.FillRole` does fill, save and count such a role, so `Migration.ChangedCount` and `Migration.Migrate` can count more than the scripts do for stored documents missing those fields.
- zod's error details and the demo server's `name`-undefined crash (a 500) are not modelled. A request body is typed, so a missing `name` cannot arise.
- JavaScript's ordering of integer-like object keys is not modelled. Access maps keep insertion order.
- The `roleDefaults` table of `migrate-roles.js` comes from a package that is not part of this model. It is the parameter `defaults`, and the properties assume each entry is keyed by its own name (`Migration.DefaultsNamed`).
- `test-server.js` is not part of this model.
- Migration.FillRole: it tests whether a group is present, as `config/simple-migrate-roles.js` does with `Map.has` (lines 58 and 68). `config/migrate-roles.js` instead tests `!role.permissions.ROLE_MANAGEMENT` (lines 37 and 47) on documents of the role schema, where `ROLE_MANAGEMENT` and `BALANCE_MANAGEMENT` are nested paths of a sub-document (`packages/data-schemas/src/schema/role.ts:68-75`). A Mongoose document may read such a path as an empty object even when it was never set. That script may then skip the fill for an absent group. The model follows the presence test, and does not promise how that script behaves in this case.
- A malformed user id is not modelled. `admin.js` (lines 128, 184, 240, 448) and `commercial-api-server.js` (lines 538, 583, 622, 657) pass the raw path parameter to `User.findById`, and an id that is not a valid ObjectId (for example `abc`) makes it throw a cast error, which the handler's catch answers with 500. The model answers 404 for every id that no user has, malformed or not.
- HybridServer.UserModels and CommercialServer.UserModels return the access map as stored. The JSON rendering is not modelled.

## Findings

| source | as written | input that shows it | evidently intended | confidence | as-written member | corrected member |
|---|---|---|---|---|---|---|
| api/server/routes/admin.js:197-216 | The adjustment clamps the balance at 0 but logs and reports the requested `amount` | credits 50, amount -80: credits become 0, the log records -80, so the log sums to -30 for a balance of 0 | log and report the change actually applied, `newBalance - oldBalance` | not executed; high | AdminRoutes.AdjustBalance / AdminRoutes.AdjustBalanceLedgerIffNotClamped | AdminRoutes.AdjustBalanceApplied / AdminRoutes.AdjustBalanceAppliedKeepsLedgerBalanced |
| librechat-hybrid-server.js:637-652 | The duplicate check compares the raw `name`, but the role is stored as `name.toUpperCase()` | create `pro` twice: both succeed, and two roles named `PRO` exist | compare the name that will be stored | not executed; high | HybridServer.CreateRole / HybridServer.CreateRoleTwiceDuplicates | HybridServer.CreateRoleNormalized / HybridServer.CreateRoleNormalizedRefusesSecond |
| api/server/routes/admin.js:72 and 80 | `permissions: z.object({})` strips every key, so create and update always receive `{}` | update with `{ ROLE_MANAGEMENT: { CREATE: true } }`: the role grants nothing new; create with the same permissions: the role grants nothing | pass the permission groups through (for example `z.record(...)` or `.passthrough()`) | not executed; medium (rests on zod's default stripping of unknown keys) | AdminRoutes.ParsedPermissionsAsWritten / AdminRoutes.StrippedPatchGrantsNothingNew / AdminRoutes.StrippedCreateGrantsNothing | AdminRoutes.UpdateRole / AdminRoutes.UpdateRoleGrants / AdminRoutes.CreateRole |
| commercial-api-server.js:413-419 | Once users exist, the gate checks only the requested role, never the caller | with one user present, an unauthenticated request `{ email, password, role: "ADMIN" }` creates an administrator | only an authenticated ADMIN may register users once the first one exists, as the refusal message and the comment at line 407 say | not executed; medium (intent read from the comment and the message) | CommercialServer.Register / CommercialServer.AnyoneCanRegisterAdmin | CommercialServer.RegisterByAdmin / CommercialServer.RegisterByAdminRefusesOthers |
