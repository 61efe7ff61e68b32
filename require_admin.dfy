/** The admin guard (middleware/requireAdmin.js). */
module RequireAdmin {

  import opened Wrappers
  import UserModel

  const ADMIN_REQUIRED := "Admin access required"

  /** `next()`, or a 403 reply with its error text. */
  datatype GuardOutcome = Next | Forbidden(error: string)

  /** `if (!req.user?.isAdmin) 403 else next()`: a missing user is refused like a
      non-admin one, without an exception. The request and the user are only read. */
  function Guard(user: Option<UserModel.Principal>): (r: GuardOutcome)
    ensures r.Next? <==> user.Some? && user.value.isAdmin
    ensures r.Forbidden? ==> r.error == ADMIN_REQUIRED
  {
    if user.Some? && user.value.isAdmin then Next else Forbidden(ADMIN_REQUIRED)
  }
}
