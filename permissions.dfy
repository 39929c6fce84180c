/** The API's permission classes: each answers, from the user attached to the
    request (and for object permissions from the object's owner), whether the
    request may proceed. */
module Permissions {
  import opened Results

  /** Who a request is made by: Django's anonymous user, or a stored account. */
  datatype Principal =
    | AnonymousUser
    | Account(id: nat, isActive: bool, isStaff: bool)

  /** The attributes the permission classes read. The anonymous user is never
      active, never staff and never authenticated. */
  function IsActive(p: Principal): bool
  {
    match p
    case AnonymousUser => false
    case Account(_, active, _) => active
  }

  function IsStaff(p: Principal): bool
  {
    match p
    case AnonymousUser => false
    case Account(_, _, staff) => staff
  }

  function IsAuthenticated(p: Principal): bool
  {
    p.Account?
  }

  function IsAnonymous(p: Principal): bool
  {
    p.AnonymousUser?
  }

  /** `request.user` is `None` when no authentication ran; every principal is
      a true value. */
  type RequestUser = Option<Principal>

  /** `BaseAuthPermission.has_permission`: a present, active user. */
  function BaseAuthHasPermission(user: RequestUser): (r: bool)
    ensures r <==> user.Some? && user.value.Account? && user.value.isActive
  {
    user.Some? && IsActive(user.value)
  }

  /** `IsNotAuthenticated.has_permission`: reading `is_anonymous` of `None`
      raises `AttributeError`. */
  function IsNotAuthenticatedHasPermission(user: RequestUser): (r: Result<bool, PyError>)
    ensures r.Err? <==> user.None?
    ensures r.Err? ==> r.error == AttributeError
    ensures r.Ok? ==> (r.value <==> user == Some(AnonymousUser))
  {
    match user
    case None => Err(AttributeError)
    case Some(p) => Ok(IsAnonymous(p))
  }

  /** `IsActiveAdminUser.has_permission`: present, authenticated, staff and
      active. */
  function IsActiveAdminUserHasPermission(user: RequestUser): (r: bool)
    ensures r <==> user.Some? && user.value.Account? && user.value.isStaff && user.value.isActive
  {
    user.Some? && IsAuthenticated(user.value) && IsStaff(user.value) && IsActive(user.value)
  }

  /** `IsActiveAdminUser.has_object_permission`: the same test, whatever the
      object. */
  function IsActiveAdminUserHasObjectPermission(user: RequestUser, owner: Option<nat>): (r: bool)
    ensures r <==> user.Some? && user.value.Account? && user.value.isStaff && user.value.isActive
  {
    IsActiveAdminUserHasPermission(user)
  }

  /** `IsActiveUser.has_permission`: present, authenticated and active. */
  function IsActiveUserHasPermission(user: RequestUser): (r: bool)
    ensures r <==> user.Some? && user.value.Account? && user.value.isActive
  {
    user.Some? && IsAuthenticated(user.value) && IsActive(user.value)
  }

  /** `IsOwner.has_object_permission`: an active user who is the object's
      `created_by`; reading `is_active` of `None` raises `AttributeError`.
      `owner` is the primary key of `created_by`, or `None` when unset. */
  function IsOwnerHasObjectPermission(user: RequestUser, owner: Option<nat>): (r: Result<bool, PyError>)
    ensures r.Err? <==> user.None?
    ensures r.Err? ==> r.error == AttributeError
    ensures r.Ok? ==> (r.value <==> user.value.Account? && user.value.isActive && owner == Some(user.value.id))
  {
    match user
    case None => Err(AttributeError)
    case Some(p) => Ok(IsActive(p) && p.Account? && owner == Some(p.id))
  }

  /** An active admin is an active user. */
  lemma AdminIsActiveUser(user: RequestUser)
    ensures IsActiveAdminUserHasPermission(user) ==> IsActiveUserHasPermission(user)
    ensures IsActiveUserHasPermission(user) && user.value.isStaff ==> IsActiveAdminUserHasPermission(user)
  {
  }

  /** The admin class answers the same for a request and for any object. */
  lemma AdminObjectPermissionIsPermission(user: RequestUser, owner: Option<nat>)
    ensures IsActiveAdminUserHasObjectPermission(user, owner) == IsActiveAdminUserHasPermission(user)
  {
  }

  /** `BaseAuthPermission` does not test `is_authenticated`, but since the
      anonymous user is never active it grants exactly when `IsActiveUser`
      does. */
  lemma BaseAuthIsActiveUser(user: RequestUser)
    ensures BaseAuthHasPermission(user) == IsActiveUserHasPermission(user)
  {
  }

  /** `IsNotAuthenticated` and `IsActiveUser` never both grant. */
  lemma NotAuthenticatedExcludesActiveUser(user: RequestUser)
    requires IsNotAuthenticatedHasPermission(user) == Ok(true)
    ensures !IsActiveUserHasPermission(user)
  {
  }

  /** `IsOwner` inherits `BaseAuthPermission.has_permission`; an owner
      granted access to an object also passes the request check. */
  lemma OwnerPassesRequestCheck(user: RequestUser, owner: Option<nat>)
    requires IsOwnerHasObjectPermission(user, owner) == Ok(true)
    ensures BaseAuthHasPermission(user)
    ensures owner == Some(user.value.id)
  {
  }
}
