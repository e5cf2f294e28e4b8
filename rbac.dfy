/**
 * The permission middleware placed in front of the protected routes: a
 * request goes on to its handler exactly when the signed-in user's
 * permissions hold the wildcard `*` or the permission the route requires;
 * otherwise it is answered 403 `Forbidden`.
 */
module Rbac {
  import opened Wrappers

  /** The part of the token's user the middleware reads. */
  datatype User = User(permissions: Option<seq<string>>)

  /** What the middleware does with the request. */
  datatype Decision = CallNext | Reject(status: nat, message: string)

  const Wildcard := "*"

  /** `user?.permissions ?? []`. */
  function Permissions(user: Option<User>): (perms: seq<string>)
    ensures user.None? ==> perms == []
    ensures user.Some? && user.value.permissions.Some? ==> perms == user.value.permissions.value
    ensures user.Some? && user.value.permissions.None? ==> perms == []
  {
    if user.Some? && user.value.permissions.Some? then user.value.permissions.value else []
  }

  /** `permission(permRequired)` applied to one request. */
  function Permission(permRequired: string, user: Option<User>): (d: Decision)
    ensures d.CallNext? || d == Reject(403, "Forbidden")
  {
    var perms := Permissions(user);
    if Wildcard !in perms && permRequired !in perms then Reject(403, "Forbidden") else CallNext
  }

  /** The request passes exactly when the list holds `*` or the required permission. */
  lemma PermissionAllows(permRequired: string, user: Option<User>)
    ensures Permission(permRequired, user).CallNext? <==>
      (Wildcard in Permissions(user) || permRequired in Permissions(user))
  {
  }

  /** The wildcard grants every permission. */
  lemma WildcardGrantsAll(permRequired: string, perms: seq<string>)
    requires Wildcard in perms
    ensures Permission(permRequired, Some(User(Some(perms)))) == CallNext
  {
  }

  /** Without a user, or without a permission list, every request is refused. */
  lemma MissingUserDenied(permRequired: string, user: Option<User>)
    requires user.None? || user.value.permissions.None?
    ensures Permission(permRequired, user) == Reject(403, "Forbidden")
  {
  }

  /** Without the wildcard, only the exact permission lets the request through. */
  lemma ExactPermissionNeeded(permRequired: string, perms: seq<string>)
    requires Wildcard !in perms
    ensures Permission(permRequired, Some(User(Some(perms)))).CallNext? <==> permRequired in perms
  {
  }

  /** Granting more permissions never takes access away. */
  lemma PermissionMonotone(permRequired: string, perms: seq<string>, more: seq<string>)
    requires forall p :: p in perms ==> p in more
    ensures Permission(permRequired, Some(User(Some(perms)))).CallNext? ==>
      Permission(permRequired, Some(User(Some(more)))).CallNext?
  {
  }
}
