/** The route guard that runs before every page request: a path under one of
    the protected prefixes needs an `auth_token` cookie, and a request
    without one is sent to the sign-in page with the path to come back to.
    The token's contents are not checked here. */
module Middleware {
  import opened Values

  const ProtectedRoutes: seq<string> := ["/createui", "/profile", "/layouts"]

  const SignInPath: string := "/signin"

  /** `routes.some(route => path.startsWith(route))`, one route at a time. */
  function AnyPrefix(routes: seq<string>, path: string): (b: bool)
    ensures b <==> exists i :: 0 <= i < |routes| && routes[i] <= path
  {
    if routes == [] then false
    else if routes[0] <= path then true
    else
      var b := AnyPrefix(routes[1..], path);
      assert forall i :: 1 <= i < |routes| ==> routes[i] == routes[1..][i - 1];
      b
  }

  predicate IsProtected(path: string)
  {
    AnyPrefix(ProtectedRoutes, path)
  }

  /** What the guard answers: let the request through, or redirect it to the
      sign-in page with `callbackUrl` set. */
  datatype Decision = Next | Redirect(target: string, callbackUrl: string)

  /** `middleware(request)`, with the pathname and the cookie's value (if the
      cookie is present) as inputs. */
  function Guard(path: string, token: Option<string>): (d: Decision)
    ensures d.Redirect? ==> d == Redirect(SignInPath, path)
  {
    if IsProtected(path) && (token.None? || token.value == "") then Redirect(SignInPath, path)
    else Next
  }

  /** A request is redirected exactly when its path starts with one of the
      three protected prefixes and it carries no token or an empty one. */
  lemma GuardRedirectsIff(path: string, token: Option<string>)
    ensures Guard(path, token).Redirect?
        <==> ("/createui" <= path || "/profile" <= path || "/layouts" <= path)
             && (token == None || token == Some(""))
  {
    if "/createui" <= path {
      assert ProtectedRoutes[0] <= path;
    } else if "/profile" <= path {
      assert ProtectedRoutes[1] <= path;
    } else if "/layouts" <= path {
      assert ProtectedRoutes[2] <= path;
    }
  }

  /** Every other path goes through, whatever the cookie holds. */
  lemma GuardPassesOtherPaths(path: string, token: Option<string>)
    requires !("/createui" <= path) && !("/profile" <= path) && !("/layouts" <= path)
    ensures Guard(path, token) == Next
  {
    GuardRedirectsIff(path, token);
  }

  /** Protection is a raw prefix test: anything that merely begins with a
      protected route, such as `/profileX`, is protected too. */
  lemma GuardProtectsByPrefix(i: nat, suffix: string)
    requires i < |ProtectedRoutes|
    ensures Guard(ProtectedRoutes[i] + suffix, None)
         == Redirect(SignInPath, ProtectedRoutes[i] + suffix)
    ensures Guard(ProtectedRoutes[i] + suffix, Some("")) == Guard(ProtectedRoutes[i] + suffix, None)
  {
    assert ProtectedRoutes[i] <= ProtectedRoutes[i] + suffix;
  }

  /** Any non-empty token lets every request through: the decision does not
      depend on what the token says. */
  lemma GuardIgnoresTokenContents(path: string, t1: string, t2: string)
    requires t1 != "" && t2 != ""
    ensures Guard(path, Some(t1)) == Guard(path, Some(t2)) == Next
  {
  }
}
