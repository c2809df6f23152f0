/**
 * How the login route and the route gate fit together through the browser's cookie store.
 */
module Session {
  import opened Common
  import Auth
  import Gate

  /** The browser's cookies by name after it applies the `Set-Cookie` headers of a response,
      in order (a later cookie of the same name replaces an earlier one). */
  function Store(jar: map<string, string>, headers: seq<Auth.Cookie>): (jar': map<string, string>)
    ensures jar.Keys <= jar'.Keys
    ensures forall c :: c in headers ==> c.name in jar'
    ensures headers == [] ==> jar' == jar
    decreases headers
  {
    if headers == [] then jar
    else Store(jar[headers[0].name := headers[0].value], headers[1..])
  }

  /** After an accepted login, every request the browser sends carries a cookie the gate
      accepts, so every `/admin` path is let through. */
  lemma AcceptedLoginOpensAdmin(password: Auth.Password, secret: Option<string>,
                                jar: map<string, string>, origin: string, path: string)
    requires Auth.Login(password, secret).success
    ensures Auth.SessionCookie.name == Gate.TokenCookie
    ensures Gate.Middleware(Gate.Request(origin, path, Store(jar, Auth.Login(password, secret).setCookies)))
            == Gate.Next
  {
    assert Auth.SessionCookie in Auth.Login(password, secret).setCookies;
  }

  /** A refused login sets no cookie, so what the gate decides afterwards is what it decided before. */
  lemma RefusedLoginChangesNothing(password: Auth.Password, secret: Option<string>,
                                   jar: map<string, string>, origin: string, path: string)
    requires !Auth.Login(password, secret).success
    ensures Store(jar, Auth.Login(password, secret).setCookies) == jar
    ensures Gate.Middleware(Gate.Request(origin, path, Store(jar, Auth.Login(password, secret).setCookies)))
            == Gate.Middleware(Gate.Request(origin, path, jar))
  {
  }
}
