/**
 * The password check behind the login form: a POST whose `password` equals the configured
 * secret gets a session cookie; any other gets 401.
 */
module Auth {
  import opened Common

  /** The `password` member of the request body, as JavaScript sees it. */
  datatype Password =
    | Undefined              // the member is missing
    | Text(s: string)        // a JSON string
    | OtherJson              // a number, boolean, null, array or object

  datatype Cookie = Cookie(name: string, value: string, httpOnly: bool, path: string, maxAge: int)

  /** A JSON response `{success}` with its status and the cookies it sets. */
  datatype Response = Response(status: int, success: bool, setCookies: seq<Cookie>)

  const DaySeconds: int := 60 * 60 * 24

  /** The cookie set on success: `admin_token = 'true'`, invisible to scripts, sent for every
      path, kept for one day. */
  const SessionCookie: Cookie := Cookie("admin_token", "true", true, "/", DaySeconds)

  /** JavaScript's `===` between the submitted password and the secret, which is a string or
      `undefined` when the environment variable is not set. */
  predicate StrictEquals(password: Password, secret: Option<string>)
  {
    match password
    case Undefined => secret.None?
    case Text(p) => secret.Some? && secret.value == p
    case OtherJson => false
  }

  /** `POST(request)`, given the body's `password` and the configured secret. */
  function Login(password: Password, secret: Option<string>): (r: Response)
    // accepted exactly when the password is, character for character, the secret, or when
    // both are missing
    ensures r.success <==> (secret.Some? && password == Text(secret.value))
                           || (secret.None? && password == Undefined)
    ensures r.success ==> r.status == 200 && r.setCookies == [SessionCookie]
    ensures !r.success ==> r.status == 401 && r.setCookies == []
  {
    if StrictEquals(password, secret) then Response(200, true, [SessionCookie])
    else Response(401, false, [])
  }

  /** The session cookie is script-inaccessible, scoped to the whole site and lasts 86400 s. */
  lemma SessionCookieAttributes()
    ensures SessionCookie.name == "admin_token" && SessionCookie.value == "true"
    ensures SessionCookie.httpOnly && SessionCookie.path == "/"
    ensures SessionCookie.maxAge == 86400
  {
  }

  /** No trimming or case folding: a password that differs from the secret in any character,
      including surrounding spaces, is refused. */
  lemma NoNormalisation(p: string, secret: string)
    requires p != secret
    ensures Login(Text(p), Some(secret)) == Response(401, false, [])
    ensures Login(Text(" " + secret), Some(secret)).status == 401
  {
    assert " " + secret != secret by {
      assert |" " + secret| != |secret|;
    }
  }

  /** With no secret configured, a body without a password is accepted. */
  lemma MissingSecretAcceptsMissingPassword()
    ensures Login(Undefined, None).success
    ensures Login(Undefined, None).setCookies == [SessionCookie]
  {
  }
}
