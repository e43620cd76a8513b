/** Request bodies and reply payloads shared by the three servers. */
module Requests {
  import opened Wrappers
  import opened RoleSchema

  /** `{ balance, reason? }` of PUT /users/:userId/balance. */
  datatype BalanceBody = BalanceBody(balance: int, reason: Option<string>)

  /** `{ amount, reason? }` of PATCH /users/:userId/balance. */
  datatype AdjustBody = AdjustBody(amount: int, reason: Option<string>)

  /** `{ name, permissions?, modelAccess? }` of POST /roles. */
  datatype CreateRoleBody = CreateRoleBody(name: string, permissions: Option<Permissions>, modelAccess: Option<ModelAccess>)

  /** `{ permissions?, modelAccess? }` of PUT /roles/:roleName. */
  datatype RolePatch = RolePatch(permissions: Option<Permissions>, modelAccess: Option<ModelAccess>)

  /** The `{ oldBalance, newBalance, change }` part of a balance reply. */
  datatype BalanceChange = BalanceChange(oldBalance: int, newBalance: int, change: int)

  /** The `{ oldRole, newRole }` part of a role-reassignment reply. */
  datatype RoleChange = RoleChange(oldRole: string, newRole: string)
}
