/** `authorizeRoles(...roles)`: a middleware that lets a request through
    only when the caller's role is one of the allowed roles. */
module RoleGate {
  import opened Common

  /** A request: the caller attached by authentication and whatever else
      it carries, which the gate never looks at. */
  datatype Request<X> = Request(user: Option<User>, rest: X)

  datatype Response = Response(status: nat, message: string)

  /** What one run of the middleware does: the responses it writes, and
      the request the next handler receives each time `next()` is called. */
  datatype Effect<R> = Effect(responses: seq<Response>, nextCalls: seq<R>)

  const AccessDenied := Response(403, "Access denied")

  /** The caller's role is one of `roles`; a missing role is in no list. */
  predicate Allowed(roles: seq<string>, role: Option<string>) {
    role.Some? && role.value in roles
  }

  /** The closure `authorizeRoles(...roles)` returns, applied to a request.
      The source reads `req.user.role`, which throws when `req.user` is
      missing; callers attach a user first. */
  function AuthorizeRoles<X>(roles: seq<string>, req: Request<X>): (e: Effect<Request<X>>)
    requires req.user.Some?
    ensures Allowed(roles, req.user.value.role) ==> e.responses == [] && e.nextCalls == [req]
    ensures !Allowed(roles, req.user.value.role) ==> e.responses == [AccessDenied] && e.nextCalls == []
    ensures |e.nextCalls| + |e.responses| == 1
    ensures forall r | r in e.nextCalls :: r == req
  {
    if !Allowed(roles, req.user.value.role) then Effect([AccessDenied], [])
    else Effect([], [req])
  }

  /** An empty allow-list rejects every caller. */
  lemma EmptyRolesRejectAll<X>(req: Request<X>)
    requires req.user.Some?
    ensures AuthorizeRoles([], req) == Effect([AccessDenied], [])
  {
  }

  /** A caller without a role is rejected whatever the allow-list. */
  lemma MissingRoleRejected<X>(roles: seq<string>, req: Request<X>)
    requires req.user.Some? && req.user.value.role.None?
    ensures AuthorizeRoles(roles, req).nextCalls == []
  {
  }

  /** The decision depends only on which roles are listed: reordering or
      duplicating entries changes nothing. */
  lemma OnlyMembershipMatters<X>(roles1: seq<string>, roles2: seq<string>, req: Request<X>)
    requires req.user.Some?
    requires forall r :: r in roles1 <==> r in roles2
    ensures AuthorizeRoles(roles1, req) == AuthorizeRoles(roles2, req)
  {
  }

  /** `authorizeRoles("teacher", "admin")` turns a student away and lets an
      admin through with exactly one call of `next`. */
  lemma TeacherAdminExample<X>(rest: X)
    ensures AuthorizeRoles(["teacher", "admin"], Request(Some(User(Some("s1"), Some("student"))), rest)).responses == [AccessDenied]
    ensures AuthorizeRoles(["teacher", "admin"], Request(Some(User(Some("s1"), Some("student"))), rest)).nextCalls == []
    ensures AuthorizeRoles(["teacher", "admin"], Request(Some(User(Some("a1"), Some("admin"))), rest)).nextCalls
              == [Request(Some(User(Some("a1"), Some("admin"))), rest)]
  {
    assert "student" != "teacher" && "student" != "admin";
  }
}
