/** The route guard (middleware.ts): from the requested path and whether the
    request carries a session token, redirect to the login page, redirect
    home, or let the request through. The token lookup is an input. */
module Middleware {
  import opened Strings

  datatype Outcome =
    | RedirectToLogin(callbackUrl: String)
    | RedirectHome
    | PassThrough

  const LoginPath: String := "/login"
  const SignupPath: String := "/signup"
  const AuthApiPrefix: String := "/api/auth"

  /** `isProtectedPath`: every path but the two auth pages and the sign-in endpoints. */
  function IsProtectedPath(pathname: String): (guarded: bool)
    ensures guarded ==> pathname != LoginPath && pathname != SignupPath
    ensures forall rest :: pathname == AuthApiPrefix + rest ==> !guarded
  {
    assert forall rest :: pathname == AuthApiPrefix + rest ==> pathname[..|AuthApiPrefix|] == AuthApiPrefix;
    pathname != LoginPath && pathname != SignupPath && !IsPrefix(AuthApiPrefix, pathname)
  }

  /** `middleware(request)`. */
  function Decide(pathname: String, hasToken: bool): (o: Outcome)
    ensures o.RedirectToLogin? <==> IsProtectedPath(pathname) && !hasToken
    ensures o.RedirectToLogin? ==> o.callbackUrl == pathname
    ensures o == RedirectHome <==> (pathname == LoginPath || pathname == SignupPath) && hasToken
    ensures o == PassThrough <==> (IsProtectedPath(pathname) && hasToken)
                                  || ((pathname == LoginPath || pathname == SignupPath) && !hasToken)
                                  || IsPrefix(AuthApiPrefix, pathname)
  {
    if IsProtectedPath(pathname) && !hasToken then RedirectToLogin(pathname)
    else if (pathname == LoginPath || pathname == SignupPath) && hasToken then RedirectHome
    else PassThrough
  }

  /** The sign-in endpoints are reachable with or without a token. */
  lemma AuthApiAlwaysPasses(rest: String, hasToken: bool)
    ensures Decide(AuthApiPrefix + rest, hasToken) == PassThrough
  {
    assert IsPrefix(AuthApiPrefix, AuthApiPrefix + rest) by {
      assert (AuthApiPrefix + rest)[..|AuthApiPrefix|] == AuthApiPrefix;
    }
  }

  /** Which paths are guarded: the two auth pages only by exact match (so
      "/login/" is guarded), the sign-in endpoints by a plain prefix test (so
      "/api/authors" is not guarded), and every other page or API route is. */
  lemma ProtectedPaths(rest: String)
    ensures !IsProtectedPath(LoginPath) && !IsProtectedPath(SignupPath)
    ensures !IsProtectedPath(AuthApiPrefix + rest)
    ensures !IsProtectedPath("/api/authors")
    ensures IsProtectedPath("/") && IsProtectedPath("/login/") && IsProtectedPath("/api/todos")
  {
    assert (AuthApiPrefix + rest)[..|AuthApiPrefix|] == AuthApiPrefix;
    assert "/api/authors"[..|AuthApiPrefix|] == AuthApiPrefix;
    assert "/login/" != LoginPath by { assert |"/login/"| != |LoginPath|; }
    assert "/api/todos"[6] != AuthApiPrefix[6];
  }

  /** Logging in moves a visitor of a protected page from the login redirect to the page itself. */
  lemma TokenOpensProtectedPath(pathname: String)
    requires IsProtectedPath(pathname)
    ensures Decide(pathname, false) == RedirectToLogin(pathname)
    ensures Decide(pathname, true) == PassThrough
  {
  }
}
