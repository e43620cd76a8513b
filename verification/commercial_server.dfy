/** The stand-alone database-backed server: bearer-token authentication, an
    ADMIN-role gate, a registration gate, and its own copies of the balance,
    role and model handlers over the document store. */
module CommercialServer {
  import opened Wrappers
  import opened ApiErrors
  import opened RoleSchema
  import opened MongoStore
  import opened Requests
  import Text
  import Seqs

  /** The payload a verified token carries (`req.user`). */
  datatype Claims = Claims(userId: string, email: string, role: string)

  /** The authorization step's view of token verification: `Some(claims)`
      when the signature and expiry check out, `None` when it throws. */
  type Verifier = string -> Option<Claims>

  /** `authHeader && authHeader.split(' ')[1]`: the second space-separated
      field of the header, when the header is present and that field exists
      and is non-empty (an empty string is falsy, so it counts as absent). */
  function ExtractToken(header: Option<string>): (r: Option<string>)
    ensures header.None? ==> r.None?
    ensures r.Some? ==> header.Some? && |r.value| > 0 && ' ' !in r.value
    ensures header.Some? ==>
              (r.Some? <==> |Text.Split(header.value, ' ')| >= 2 && |Text.Split(header.value, ' ')[1]| > 0)
    ensures r.Some? ==> r.value == Text.Split(header.value, ' ')[1]
  {
    match header
    case None => None
    case Some(h) =>
      var fields := Text.Split(h, ' ');
      if |fields| >= 2 && |fields[1]| > 0 then Some(fields[1]) else None
  }

  /** A header written as a scheme, one space and a token, optionally
      followed by more space-separated text, yields exactly that token. */
  lemma BearerRoundTrip(scheme: string, token: string, more: string)
    requires ' ' !in scheme && ' ' !in token && |token| > 0
    ensures ExtractToken(Some(scheme + " " + token)) == Some(token)
    ensures ExtractToken(Some(scheme + " " + token + " " + more)) == Some(token)
  {
    Text.SplitNoSeparator(token, ' ');
    Text.SplitPrefix(scheme, ' ', token);
    assert scheme + " " + token == scheme + [' '] + token;
    Text.SplitPrefix(token, ' ', more);
    Text.SplitPrefix(scheme, ' ', token + " " + more);
    assert scheme + " " + token + " " + more == scheme + [' '] + (token + [' '] + more);
  }

  /** A header without a space, or with two spaces after the scheme, yields
      no token. */
  lemma MalformedHeaderHasNoToken(scheme: string, token: string)
    requires ' ' !in scheme
    ensures ExtractToken(Some(scheme)).None?
    ensures ExtractToken(Some(scheme + "  " + token)).None?
  {
    Text.SplitNoSeparator(scheme, ' ');
    assert scheme + "  " + token == scheme + [' '] + ("" + [' '] + token);
    Text.SplitPrefix(scheme, ' ', "" + [' '] + token);
    Text.SplitPrefix("", ' ', token);
  }

  /** `authenticateToken`: 401 when there is no token, 403 when verification
      fails, otherwise the verified claims. */
  function Authenticate(header: Option<string>, verify: Verifier): (r: Result<Claims, ApiError>)
    ensures ExtractToken(header).None? ==> r == Err(NoToken) && r.error.Status() == 401
    ensures ExtractToken(header).Some? && verify(ExtractToken(header).value).None? ==>
              r == Err(InvalidToken) && r.error.Status() == 403
    ensures r.Ok? <==> ExtractToken(header).Some? && verify(ExtractToken(header).value).Some?
    ensures r.Ok? ==> Some(r.value) == verify(ExtractToken(header).value)
  {
    match ExtractToken(header)
    case None => Err(NoToken)
    case Some(token) =>
      match verify(token)
      case None => Err(InvalidToken)
      case Some(claims) => Ok(claims)
  }

  /** `authenticateToken` followed by `requireAdmin`: the verified claims
      must name exactly the role `ADMIN`, else 403. */
  function AdminGate(header: Option<string>, verify: Verifier): (r: Result<Claims, ApiError>)
    ensures Authenticate(header, verify).Err? ==> r == Authenticate(header, verify)
    ensures Authenticate(header, verify).Ok? && Authenticate(header, verify).value.role != ADMIN ==>
              r == Err(AdminRoleRequired) && r.error.Status() == 403
    ensures r.Ok? <==> Authenticate(header, verify).Ok? && Authenticate(header, verify).value.role == ADMIN
    ensures r.Ok? ==> r.value.role == ADMIN
  {
    match Authenticate(header, verify)
    case Err(e) => Err(e)
    case Ok(claims) => if claims.role != ADMIN then Err(AdminRoleRequired) else Ok(claims)
  }

  /** The body of POST /auth/register; any field may be missing. */
  datatype RegisterBody = RegisterBody(
    email: Option<string>,
    password: Option<string>,
    role: Option<string>)

  /** POST /auth/register. Once any user exists, only a request for the
      `ADMIN` role is accepted (403 otherwise). The stored role is the
      requested one, or `ADMIN` when none (or an empty one) is given. A
      missing password makes hashing throw, a missing or empty e-mail fails
      the required check, and an e-mail already taken (compared after
      lower-casing) breaks the unique index: all three are 500s. The new user
      is appended under the fresh id the store assigns. */
  function Register(s: Store, body: RegisterBody, newId: string): (r: Result<(Store, User), ApiError>)
    requires FindUser(s.users, newId).None?
    ensures r == Err(RegistrationDisabled) <==> |s.users| > 0 && body.role != Some(ADMIN)
    ensures r == Err(StorageError) <==>
              && (|s.users| == 0 || body.role == Some(ADMIN))
              && (|| body.password.None? || body.email.None? || |body.email.value| == 0
                  || exists j :: 0 <= j < |s.users| && s.users[j].email == Text.Lower(body.email.value))
    ensures r.Err? ==> r.error in {RegistrationDisabled, StorageError}
    ensures r.Ok? <==>
              && (|s.users| == 0 || body.role == Some(ADMIN))
              && body.password.Some? && body.email.Some? && |body.email.value| > 0
              && forall j :: 0 <= j < |s.users| ==> s.users[j].email != Text.Lower(body.email.value)
    ensures r.Ok? ==>
              var (s', u) := r.value;
              && u.id == newId && u.email == Text.Lower(body.email.value)
              && u.role == (if body.role.None? || body.role == Some("") then ADMIN else body.role.value)
              && s' == s.(users := s.users + [u])
  {
    if |s.users| > 0 && body.role != Some(ADMIN) then Err(RegistrationDisabled)
    else if body.password.None? then Err(StorageError)
    else if body.email.None? || |body.email.value| == 0 then Err(StorageError)
    else
      var email := Text.Lower(body.email.value);
      if Seqs.Count(s.users, (u: User) => u.email == email) > 0 then Err(StorageError)
      else
        var role := if body.role.None? || body.role == Some("") then ADMIN else body.role.value;
        var u := User(newId, email, role);
        Ok((s.(users := s.users + [u]), u))
  }

  /** Every user after the first is an administrator. */
  ghost predicate LaterUsersAdmin(s: Store) {
    forall i :: 1 <= i < |s.users| ==> s.users[i].role == ADMIN
  }

  /** Registration keeps every user after the first an administrator: the
      gate admits only `ADMIN` requests once a user exists. */
  lemma RegisterKeepsLaterUsersAdmin(s: Store, body: RegisterBody, newId: string)
    requires FindUser(s.users, newId).None?
    requires LaterUsersAdmin(s)
    requires Register(s, body, newId).Ok?
    ensures LaterUsersAdmin(Register(s, body, newId).value.0)
  {
  }

  /** The very first registration with no role asked for makes an
      administrator; so does any accepted registration with no role. */
  lemma RegisterDefaultsToAdmin(s: Store, email: string, password: string, newId: string)
    requires FindUser(s.users, newId).None?
    requires |email| > 0 && forall j :: 0 <= j < |s.users| ==> s.users[j].email != Text.Lower(email)
    ensures |s.users| == 0 ==> Register(s, RegisterBody(Some(email), Some(password), None), newId).Ok?
    ensures Register(s, RegisterBody(Some(email), Some(password), None), newId).Ok? ==>
              Register(s, RegisterBody(Some(email), Some(password), None), newId).value.1.role == ADMIN
    ensures |s.users| > 0 ==> Register(s, RegisterBody(Some(email), Some(password), None), newId) == Err(RegistrationDisabled)
  {
  }

  /** As written, the registration gate asks only what role is requested,
      never who is asking: once users exist, a request with no token at all
      still creates an administrator. */
  lemma AnyoneCanRegisterAdmin(s: Store, email: string, password: string, newId: string)
    requires FindUser(s.users, newId).None?
    requires |email| > 0 && forall j :: 0 <= j < |s.users| ==> s.users[j].email != Text.Lower(email)
    ensures Register(s, RegisterBody(Some(email), Some(password), Some(ADMIN)), newId).Ok?
    ensures Register(s, RegisterBody(Some(email), Some(password), Some(ADMIN)), newId).value.1.role == ADMIN
  {
  }

  /** POST /auth/register as its refusal message describes it: once users
      exist, only an authenticated administrator may register anyone. The
      first registration stays open, as it bootstraps the first
      administrator. */
  function RegisterByAdmin(s: Store, header: Option<string>, verify: Verifier, body: RegisterBody, newId: string)
    : (r: Result<(Store, User), ApiError>)
    requires FindUser(s.users, newId).None?
    ensures |s.users| > 0 && AdminGate(header, verify).Err? ==> r == Err(AdminGate(header, verify).error)
    ensures r.Ok? ==> |s.users| == 0 || AdminGate(header, verify).Ok?
    ensures |s.users| == 0 || AdminGate(header, verify).Ok? ==>
              r == Register(s, body.(role := if |s.users| > 0 then Some(body.role.GetOr(ADMIN)) else body.role), newId)
  {
    if |s.users| > 0 && AdminGate(header, verify).Err? then Err(AdminGate(header, verify).error)
    else Register(s, body.(role := if |s.users| > 0 then Some(body.role.GetOr(ADMIN)) else body.role), newId)
  }

  /** With the corrected gate a caller without a valid administrator token
      can never add a user to a non-empty store. */
  lemma RegisterByAdminRefusesOthers(s: Store, header: Option<string>, verify: Verifier, body: RegisterBody, newId: string)
    requires FindUser(s.users, newId).None?
    requires |s.users| > 0
    requires Authenticate(header, verify).Err? || Authenticate(header, verify).value.role != ADMIN
    ensures RegisterByAdmin(s, header, verify, body, newId).Err?
    ensures RegisterByAdmin(s, header, verify, body, newId).error in {NoToken, InvalidToken, AdminRoleRequired}
  {
  }

  /** The `unique: true` index on e-mail. */
  ghost predicate EmailsUnique(s: Store) {
    forall i, j :: 0 <= i < j < |s.users| ==> s.users[i].email != s.users[j].email
  }

  /** Registration keeps e-mails and ids unique. */
  lemma RegisterKeepsUsersUnique(s: Store, body: RegisterBody, newId: string)
    requires FindUser(s.users, newId).None?
    requires EmailsUnique(s)
    requires Register(s, body, newId).Ok?
    ensures EmailsUnique(Register(s, body, newId).value.0)
    ensures FindUser(Register(s, body, newId).value.0.users, newId) == Some(Register(s, body, newId).value.1)
  {
    var (s', u) := Register(s, body, newId).value;
    Seqs.FirstIndexAt(s'.users, (x: User) => x.id == newId, |s.users|);
  }

  /** GET /api/admin/users: every user with `balance?.tokenCredits || 0`. */
  function ListUsers(s: Store, header: Option<string>, verify: Verifier): (r: Result<seq<UserView>, ApiError>)
    ensures AdminGate(header, verify).Err? ==> r == Err(AdminGate(header, verify).error)
    ensures r.Ok? <==> AdminGate(header, verify).Ok?
    ensures r.Ok? ==> |r.value| == |s.users|
    ensures r.Ok? ==> forall i :: 0 <= i < |r.value| ==> r.value[i].user == s.users[i] && r.value[i].balance == CreditsOf(s, s.users[i].id)
  {
    match AdminGate(header, verify)
    case Err(e) => Err(e)
    case Ok(_) => Ok(UsersWithBalances(s))
  }

  /** GET /api/admin/roles: every role, in collection order. */
  function ListRoles(s: Store, header: Option<string>, verify: Verifier): (r: Result<seq<Role>, ApiError>)
    ensures AdminGate(header, verify).Err? ==> r == Err(AdminGate(header, verify).error)
    ensures r.Ok? <==> AdminGate(header, verify).Ok?
    ensures r.Ok? ==> r.value == s.roles
  {
    match AdminGate(header, verify)
    case Err(e) => Err(e)
    case Ok(_) => Ok(s.roles)
  }

  /** PUT /api/admin/users/:userId/balance: after the gate, 404 for an
      unknown user; otherwise the user's credits become `balance`, whatever
      its sign, the old value being 0 when no record existed. Nothing is
      logged and no other record changes. */
  function SetBalance(s: Store, header: Option<string>, verify: Verifier, userId: string, body: BalanceBody)
    : (r: Result<(Store, BalanceChange), ApiError>)
    ensures AdminGate(header, verify).Err? ==> r == Err(AdminGate(header, verify).error)
    ensures AdminGate(header, verify).Ok? && FindUser(s.users, userId).None? ==> r == Err(UserNotFound)
    ensures r.Ok? <==> AdminGate(header, verify).Ok? && FindUser(s.users, userId).Some?
    ensures r.Ok? ==>
              var (s', c) := r.value;
              && c.oldBalance == CreditsOf(s, userId)
              && c.oldBalance == (if userId in s.balances then s.balances[userId] else 0)
              && c.newBalance == body.balance == CreditsOf(s', userId)
              && c.change == c.newBalance - c.oldBalance
              && s'.users == s.users && s'.roles == s.roles && s'.ledger == s.ledger
              && (forall u :: u != userId ==> CreditsOf(s', u) == CreditsOf(s, u))
  {
    match AdminGate(header, verify)
    case Err(e) => Err(e)
    case Ok(_) =>
      if FindUser(s.users, userId).None? then Err(UserNotFound)
      else
        var before := CreditsOf(s, userId);
        Ok((s.(balances := s.balances[userId := body.balance]),
            BalanceChange(before, body.balance, body.balance - before)))
  }

  /** POST /api/admin/roles: after the gate, 400 when a role has the raw
      name; an empty name fails the required check, a capability or model
      name that is not a `MapKey` fails the cast of the two `Map` fields, and
      an upper-cased name already taken breaks the unique index (all 500);
      otherwise the role is stored under the upper-cased name with empty
      defaults. */
  function CreateRole(s: Store, header: Option<string>, verify: Verifier, body: CreateRoleBody)
    : (r: Result<(Store, Role), ApiError>)
    ensures AdminGate(header, verify).Err? ==> r == Err(AdminGate(header, verify).error)
    ensures AdminGate(header, verify).Ok? && FindRole(s.roles, body.name).Some? ==> r == Err(RoleAlreadyExists)
    ensures AdminGate(header, verify).Ok? && FindRole(s.roles, body.name).None?
            && !(PermissionKeysValid(body.permissions.GetOr(map[])) && AccessKeysValid(body.modelAccess.GetOr([])))
            ==> r == Err(StorageError)
    ensures r.Ok? <==>
              && AdminGate(header, verify).Ok? && |body.name| > 0
              && FindRole(s.roles, body.name).None? && FindRole(s.roles, Text.Upper(body.name)).None?
              && PermissionKeysValid(body.permissions.GetOr(map[])) && AccessKeysValid(body.modelAccess.GetOr([]))
    ensures r.Err? ==> r.error in {NoToken, InvalidToken, AdminRoleRequired, RoleAlreadyExists, StorageError}
    ensures r.Ok? ==>
              && r.value.1 == Role(Text.Upper(body.name), Some(body.permissions.GetOr(map[])), Some(body.modelAccess.GetOr([])))
              && r.value.0 == s.(roles := s.roles + [r.value.1])
  {
    match AdminGate(header, verify)
    case Err(e) => Err(e)
    case Ok(_) =>
      if FindRole(s.roles, body.name).Some? then Err(RoleAlreadyExists)
      else if |body.name| == 0 then Err(StorageError)
      else if !PermissionKeysValid(body.permissions.GetOr(map[])) || !AccessKeysValid(body.modelAccess.GetOr([])) then
        Err(StorageError)
      else if FindRole(s.roles, Text.Upper(body.name)).Some? then Err(StorageError)
      else
        var role := Role(Text.Upper(body.name), Some(body.permissions.GetOr(map[])), Some(body.modelAccess.GetOr([])));
        Ok((s.(roles := s.roles + [role]), role))
  }

  /** The unique index makes up for the raw-name check: role names stay
      unique, and repeating a creation that succeeded fails, with a 400 when
      the name was given in upper case and a 500 otherwise. */
  lemma CreateRoleTwiceRefused(s: Store, header: Option<string>, verify: Verifier, body: CreateRoleBody)
    requires NamesUnique(s.roles)
    requires CreateRole(s, header, verify, body).Ok?
    ensures NamesUnique(CreateRole(s, header, verify, body).value.0.roles)
    ensures CreateRole(CreateRole(s, header, verify, body).value.0, header, verify, body).Err?
  {
    var (s1, role) := CreateRole(s, header, verify, body).value;
    FindRoleAppend(s.roles, role, role.name);
  }

  /** PUT /api/admin/users/:userId/role: the ADMIN gate, then 404 for an
      unknown user, 400 for an unknown role; otherwise only that user's role
      changes. */
  function ChangeUserRole(s: Store, header: Option<string>, verify: Verifier, userId: string, role: string)
    : (r: Result<(Store, RoleChange), ApiError>)
    ensures AdminGate(header, verify).Err? ==> r == Err(AdminGate(header, verify).error)
    ensures AdminGate(header, verify).Ok? && FindUser(s.users, userId).None? ==> r == Err(UserNotFound)
    ensures AdminGate(header, verify).Ok? && FindUser(s.users, userId).Some? && FindRole(s.roles, role).None? ==>
              r == Err(InvalidRole)
    ensures r.Ok? <==> AdminGate(header, verify).Ok? && FindUser(s.users, userId).Some? && FindRole(s.roles, role).Some?
    ensures r.Ok? ==>
              && r.value.1 == RoleChange(FindUser(s.users, userId).value.role, role)
              && FindUser(r.value.0.users, userId) == Some(FindUser(s.users, userId).value.(role := role))
              && r.value.0 == s.(users := r.value.0.users)
              && |r.value.0.users| == |s.users|
              && (forall j :: 0 <= j < |s.users| && s.users[j].id != userId ==> r.value.0.users[j] == s.users[j])
  {
    match AdminGate(header, verify)
    case Err(e) => Err(e)
    case Ok(_) => ReassignRole(s, userId, role)
  }

  /** PUT /api/admin/users/:userId/role-temp: the same change behind the
      token check alone, without the ADMIN gate. */
  function ChangeUserRoleTemp(s: Store, header: Option<string>, verify: Verifier, userId: string, role: string)
    : (r: Result<(Store, RoleChange), ApiError>)
    ensures Authenticate(header, verify).Err? ==> r == Err(Authenticate(header, verify).error)
    ensures r.Ok? <==> Authenticate(header, verify).Ok? && FindUser(s.users, userId).Some? && FindRole(s.roles, role).Some?
    ensures Authenticate(header, verify).Ok? && FindUser(s.users, userId).None? ==> r == Err(UserNotFound)
    ensures Authenticate(header, verify).Ok? && FindUser(s.users, userId).Some? && FindRole(s.roles, role).None? ==>
              r == Err(InvalidRole)
    ensures r.Ok? ==>
              && r.value.1 == RoleChange(FindUser(s.users, userId).value.role, role)
              && FindUser(r.value.0.users, userId) == Some(FindUser(s.users, userId).value.(role := role))
              && r.value.0 == s.(users := r.value.0.users)
              && |r.value.0.users| == |s.users|
              && (forall j :: 0 <= j < |s.users| && s.users[j].id != userId ==> r.value.0.users[j] == s.users[j])
  {
    match Authenticate(header, verify)
    case Err(e) => Err(e)
    case Ok(_) => ReassignRole(s, userId, role)
  }

  /** The two change-role endpoints agree whenever the caller is an
      administrator; for any other authenticated caller the gated one refuses
      with 403 while the temporary one still changes the role, so a caller
      holding a valid non-admin token can make any user, themself included,
      an administrator. */
  lemma RoleTempBypassesAdminGate(s: Store, header: Option<string>, verify: Verifier, userId: string, role: string)
    requires Authenticate(header, verify).Ok?
    ensures Authenticate(header, verify).value.role == ADMIN ==>
              ChangeUserRoleTemp(s, header, verify, userId, role) == ChangeUserRole(s, header, verify, userId, role)
    ensures Authenticate(header, verify).value.role != ADMIN ==>
              && ChangeUserRole(s, header, verify, userId, role) == Err(AdminRoleRequired)
              && (FindUser(s.users, userId).Some? && FindRole(s.roles, role).Some? ==>
                    ChangeUserRoleTemp(s, header, verify, userId, role).Ok?)
  {
  }

  /** GET /api/admin/users/:userId/models: after the gate, 404 for an
      unknown user or a missing role; otherwise the role's name and its whole
      access map, disabled entries included. */
  function UserModels(s: Store, header: Option<string>, verify: Verifier, userId: string)
    : (r: Result<(string, Option<ModelAccess>), ApiError>)
    ensures AdminGate(header, verify).Err? ==> r == Err(AdminGate(header, verify).error)
    ensures AdminGate(header, verify).Ok? && FindUser(s.users, userId).None? ==> r == Err(UserNotFound)
    ensures (&& AdminGate(header, verify).Ok? && FindUser(s.users, userId).Some?
             && FindRole(s.roles, FindUser(s.users, userId).value.role).None?) ==> r == Err(RoleNotFound)
    ensures r.Ok? <==>
              && AdminGate(header, verify).Ok? && FindUser(s.users, userId).Some?
              && FindRole(s.roles, FindUser(s.users, userId).value.role).Some?
    ensures r.Ok? ==>
              && FindUser(s.users, userId).Some?
              && FindRole(s.roles, FindUser(s.users, userId).value.role).Some?
              && r.value.0 == FindRole(s.roles, FindUser(s.users, userId).value.role).value.name
              && r.value.1 == FindRole(s.roles, FindUser(s.users, userId).value.role).value.modelAccess
  {
    match AdminGate(header, verify)
    case Err(e) => Err(e)
    case Ok(_) =>
      match FindUser(s.users, userId)
      case None => Err(UserNotFound)
      case Some(u) =>
        match FindRole(s.roles, u.role)
        case None => Err(RoleNotFound)
        case Some(role) => Ok((role.name, role.modelAccess))
  }

  /** After a balance is set, the user list shows the new balance for that
      user and the old one for everybody else. */
  lemma ListUsersAfterSetBalance(s: Store, header: Option<string>, verify: Verifier, userId: string, body: BalanceBody)
    requires SetBalance(s, header, verify, userId, body).Ok?
    ensures var after := ListUsers(SetBalance(s, header, verify, userId, body).value.0, header, verify);
            && after.Ok? && ListUsers(s, header, verify).Ok?
            && |after.value| == |ListUsers(s, header, verify).value|
            && forall i :: 0 <= i < |s.users| ==>
                 && after.value[i].user == s.users[i]
                 && after.value[i].balance
                    == if s.users[i].id == userId then body.balance else ListUsers(s, header, verify).value[i].balance
  {
  }

  /** After a role is created, the role list is the old one followed by the
      new role. */
  lemma ListRolesAfterCreate(s: Store, header: Option<string>, verify: Verifier, body: CreateRoleBody)
    requires CreateRole(s, header, verify, body).Ok?
    ensures ListRoles(CreateRole(s, header, verify, body).value.0, header, verify)
            == Ok(ListRoles(s, header, verify).value + [CreateRole(s, header, verify, body).value.1])
  {
  }

  /** After a role change, the models reply names the new role and carries
      its access map. */
  lemma UserModelsAfterChangeUserRole(s: Store, header: Option<string>, verify: Verifier, userId: string, role: string)
    requires ChangeUserRole(s, header, verify, userId, role).Ok?
    ensures UserModels(ChangeUserRole(s, header, verify, userId, role).value.0, header, verify, userId)
            == Ok((FindRole(s.roles, role).value.name, FindRole(s.roles, role).value.modelAccess))
  {
  }
}
