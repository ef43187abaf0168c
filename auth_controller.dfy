/** The status endpoint (src/controllers/authController.ts). */
module AuthController {
  import opened Types

  /** `status`: 401 without a session, 200 with the signed-in user, 401 for
      a session that holds no user. `fault` is an exception raised while
      answering, which the handler turns into 500. */
  function Status(hasSession: bool, user: Option<Principal>, fault: Option<string>): (r: Response)
    ensures fault.Some? ==> r == Fail(Exception(fault.value))
    ensures r.status == 200 <==> fault.None? && hasSession && user.Some?
    ensures r.status == 200 ==> r.body == PrincipalJson(user.value)
    ensures fault.None? && !(hasSession && user.Some?) ==> r == Response(401, StatusText("Unauthorized"))
  {
    if fault.Some? then Fail(Exception(fault.value))
    else if !hasSession then Response(401, StatusText("Unauthorized"))
    else if user.Some? then Response(200, PrincipalJson(user.value))
    else Response(401, StatusText("Unauthorized"))
  }

  /** Without a session the user is never consulted. */
  lemma NoSessionIgnoresUser(u1: Option<Principal>, u2: Option<Principal>)
    ensures Status(false, u1, None) == Status(false, u2, None)
    ensures Status(false, u1, None).status == 401
  {
  }
}
