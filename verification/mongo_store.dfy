/** The document store behind the database-backed servers: the `users`,
    `roles` and `balances` collections and the append-only transaction log. */
module MongoStore {
  import opened Wrappers
  import opened ApiErrors
  import opened RoleSchema
  import opened Requests
  import Seqs

  /** A user document; `role` names a role by its exact name. */
  datatype User = User(id: string, email: string, role: string)

  /** An audit record written by `createTransaction`. */
  datatype Transaction = Transaction(
    user: string,
    tokenType: string,
    context: string,
    rawAmount: int,
    reason: Option<string>,
    adminId: string)

  /** The collections. A user's balance record is `balances[id]`; a user with
      no record has none yet. */
  datatype Store = Store(
    users: seq<User>,
    roles: seq<Role>,
    balances: map<string, int>,
    ledger: seq<Transaction>)

  /** Position of the user with this id (`findById`). */
  function UserIndex(users: seq<User>, id: string): Option<nat> {
    Seqs.FirstIndex(users, (u: User) => u.id == id)
  }

  /** The user with this id (`findById`), `None` when there is none. */
  function FindUser(users: seq<User>, id: string): (r: Option<User>)
    ensures r.Some? ==> r.value in users && r.value.id == id
    ensures r.None? <==> forall i :: 0 <= i < |users| ==> users[i].id != id
  {
    match UserIndex(users, id)
    case Some(i) => Some(users[i])
    case None => None
  }

  /** A user's `tokenCredits`; a user without a balance record has the
      schema default 0, which is also what a lazily created record starts at. */
  function CreditsOf(s: Store, id: string): int {
    if id in s.balances then s.balances[id] else 0
  }

  /** The sum of the `rawAmount`s the log records for one user. */
  function LedgerSum(ledger: seq<Transaction>, user: string): int {
    if |ledger| == 0 then 0
    else
      var last := ledger[|ledger| - 1];
      LedgerSum(ledger[..|ledger| - 1], user) + (if last.user == user then last.rawAmount else 0)
  }

  /** The log explains every balance: each user's credits equal the sum of
      the amounts recorded for that user. */
  ghost predicate LedgerBalanced(s: Store) {
    forall u :: CreditsOf(s, u) == LedgerSum(s.ledger, u)
  }

  /** Appending a record changes only its own user's sum, by its amount. */
  lemma LedgerSumAppend(ledger: seq<Transaction>, t: Transaction, user: string)
    ensures LedgerSum(ledger + [t], user)
            == LedgerSum(ledger, user) + (if t.user == user then t.rawAmount else 0)
  {
    assert (ledger + [t])[..|ledger|] == ledger;
  }

  /** A balance write that changes one user's credits by exactly the amount
      it logs for that user keeps the log explaining every balance. */
  lemma {:induction false} BalancedAfterLoggedWrite(s: Store, s': Store, t: Transaction)
    requires LedgerBalanced(s)
    requires s'.ledger == s.ledger + [t]
    requires CreditsOf(s', t.user) == CreditsOf(s, t.user) + t.rawAmount
    requires forall u :: u != t.user ==> CreditsOf(s', u) == CreditsOf(s, u)
    ensures LedgerBalanced(s')
  {
    forall u ensures CreditsOf(s', u) == LedgerSum(s'.ledger, u) {
      LedgerSumAppend(s.ledger, t, u);
    }
  }

  /** `findById` (404), then `Role.findOne({ name: role })` (400), then
      `user.role = role; user.save()`. Only that user's `role` changes. */
  function ReassignRole(s: Store, userId: string, role: string): (r: Result<(Store, RoleChange), ApiError>)
    ensures FindUser(s.users, userId).None? ==> r == Err(UserNotFound)
    ensures FindUser(s.users, userId).Some? && FindRole(s.roles, role).None? ==> r == Err(InvalidRole)
    ensures r.Ok? <==> FindUser(s.users, userId).Some? && FindRole(s.roles, role).Some?
    ensures r.Ok? ==>
              && r.value.1 == RoleChange(FindUser(s.users, userId).value.role, role)
              && FindUser(r.value.0.users, userId) == Some(FindUser(s.users, userId).value.(role := role))
              && r.value.0 == s.(users := r.value.0.users)
              && |r.value.0.users| == |s.users|
              && (forall j :: 0 <= j < |s.users| && s.users[j].id != userId ==> r.value.0.users[j] == s.users[j])
  {
    match UserIndex(s.users, userId)
    case None => Err(UserNotFound)
    case Some(i) =>
      if FindRole(s.roles, role).None? then Err(InvalidRole)
      else
        var users' := s.users[i := s.users[i].(role := role)];
        assert UserIndex(users', userId) == Some(i) by {
          Seqs.FirstIndexAt(users', (u: User) => u.id == userId, i);
        }
        Ok((s.(users := users'), RoleChange(s.users[i].role, role)))
  }

  /** A user as listed with their balance. */
  datatype UserView = UserView(user: User, balance: int)

  /** Every user, in collection order, with `balance?.tokenCredits || 0`:
      a user without a balance record is listed with 0. */
  function UsersWithBalances(s: Store): (r: seq<UserView>)
    ensures |r| == |s.users|
    ensures forall i :: 0 <= i < |r| ==> r[i].user == s.users[i]
    ensures forall i :: 0 <= i < |r| ==> r[i].balance == (if s.users[i].id in s.balances then s.balances[s.users[i].id] else 0)
  {
    seq(|s.users|, i requires 0 <= i < |s.users| => UserView(s.users[i], CreditsOf(s, s.users[i].id)))
  }
}
