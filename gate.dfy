/**
 * The route gate that runs before a request is served: a path under `/admin` needs an
 * `admin_token` cookie, otherwise the browser is sent to the login page.
 */
module Gate {

  /** The parts of an incoming request the gate looks at: the origin of its URL, its path,
      and its cookies by name. */
  datatype Request = Request(origin: string, path: string, cookies: map<string, string>)

  /** A redirect to an absolute location, or letting the request through. */
  datatype Decision = Redirect(location: string) | Next

  const AdminPrefix: string := "/admin"
  const LoginPath: string := "/login"
  const TokenCookie: string := "admin_token"

  /** `s.startsWith(prefix)`: a plain character-prefix test, with no notion of path segments. */
  predicate StartsWith(s: string, prefix: string)
  {
    |prefix| <= |s| && s[..|prefix|] == prefix
  }

  /** `middleware(request)`. */
  function Middleware(req: Request): (d: Decision)
    // a path outside `/admin` always passes, whatever the cookies
    ensures !StartsWith(req.path, AdminPrefix) ==> d == Next
    // under `/admin`, the request is redirected exactly when it carries no token cookie
    ensures StartsWith(req.path, AdminPrefix) ==> (d.Redirect? <==> TokenCookie !in req.cookies)
    // the redirect always goes to the login page of the same origin, whatever path was asked for
    ensures d.Redirect? ==> d.location == req.origin + LoginPath
  {
    if StartsWith(req.path, AdminPrefix) then
      if TokenCookie !in req.cookies then Redirect(req.origin + LoginPath)
      else Next
    else Next
  }

  /** The gated paths are exactly `/admin` followed by anything at all. */
  lemma GatedPathsAreAdminExtensions(path: string, rest: string)
    ensures StartsWith(AdminPrefix + rest, AdminPrefix)
    ensures StartsWith(path, AdminPrefix) ==> path == AdminPrefix + path[|AdminPrefix|..]
  {
    assert (AdminPrefix + rest)[..|AdminPrefix|] == AdminPrefix;
  }

  /** Only the presence of the token cookie is checked, never its value: any value, even an
      empty one or `false`, lets a request for an admin path through. */
  lemma TokenValueIgnored(req: Request, v: string)
    ensures Middleware(req.(cookies := req.cookies[TokenCookie := v])) == Next
  {
  }

  /** The gate tests a string prefix, not a path segment, so `/administrator` is gated too. */
  lemma PrefixNotSegment(origin: string)
    ensures Middleware(Request(origin, "/administrator", map[])) == Redirect(origin + "/login")
    ensures Middleware(Request(origin, "/admin/upload", map[])) == Redirect(origin + "/login")
    ensures Middleware(Request(origin, "/adm", map[])) == Next
    ensures Middleware(Request(origin, "/comic/1", map[])) == Next
  {
    assert "/administrator"[..6] == AdminPrefix;
    assert "/admin/upload"[..6] == AdminPrefix;
    assert "/comic/1"[1] != AdminPrefix[1];
  }

  /** Two redirected requests from one origin go to the same place, whatever paths they asked for. */
  lemma RedirectIgnoresPath(r1: Request, r2: Request)
    requires r1.origin == r2.origin
    requires Middleware(r1).Redirect? && Middleware(r2).Redirect?
    ensures Middleware(r1) == Middleware(r2)
  {
  }
}
