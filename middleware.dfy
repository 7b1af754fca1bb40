/** The route guard of src/middleware.ts: from whether the request carries an
    authenticated user and the request's pathname, it either redirects (to
    `/app` or `/login`) or lets the request through. */
module Middleware {
  import opened Text

  datatype Decision = Pass | Redirect(to: string)

  const Home := "/"
  const Login := "/login"
  const Register := "/register"
  const App := "/app"

  predicate IsAuthRoute(path: string) {
    path == Login || path == Register
  }

  /** The redirect callback handed to the authentication wrapper. */
  function Guard(authenticated: bool, path: string): (d: Decision)
    ensures d.Redirect? ==> d.to == App || d.to == Login
    ensures d == Redirect(App) <==> authenticated && (path == Home || IsAuthRoute(path))
    ensures d == Redirect(Login) <==> !authenticated && !IsAuthRoute(path)
    ensures d == Pass <==> ((authenticated && path != Home && !IsAuthRoute(path))
                            || (!authenticated && IsAuthRoute(path)))
  {
    var isHomePage := path == Home;
    var isAuthRoute := IsAuthRoute(path);
    if authenticated && (isHomePage || isAuthRoute) then Redirect(App)
    else if !isAuthRoute && !authenticated then Redirect(Login)
    else Pass
  }

  /** The `matcher` list `['/', '/login', '/register', '/app/:path*']`: the
      exact paths, and `/app` followed by zero or more segments. */
  predicate Matched(path: string) {
    path == Home || path == Login || path == Register || path == App || StartsWith(path, App + "/")
  }

  /** What a request to `path` gets: the guard for matched paths, and no
      redirect at all for every other path. */
  function Handle(authenticated: bool, path: string): (d: Decision)
    ensures !Matched(path) ==> d == Pass
    ensures Matched(path) ==> d == Guard(authenticated, path)
  {
    if Matched(path) then Guard(authenticated, path) else Pass
  }

  /** Every redirect lands on a matched path where the same user is let
      through: redirects never chain and never loop. */
  lemma RedirectSettles(authenticated: bool, path: string)
    requires Handle(authenticated, path).Redirect?
    ensures var to := Handle(authenticated, path).to;
            Matched(to) && Handle(authenticated, to) == Pass
  {
    var d := Guard(authenticated, path);
    assert Matched(d.to);
  }

  /** An authenticated user is let through on `/app` and all of its
      sub-paths. */
  lemma AppOpenToUsers(path: string)
    requires path == App || StartsWith(path, App + "/")
    ensures Handle(true, path) == Pass
  {
    assert |path| >= 4 && path[1] == 'a' by {
      if path != App { assert path[..5] == "/app/"; }
    }
    assert Login[1] == 'l' && Register[1] == 'r';
  }

  /** An anonymous visitor of any guarded page other than the sign-in and
      sign-up pages, the home page included, is sent to `/login`. */
  lemma AnonymousSentToLogin(path: string)
    requires Matched(path) && !IsAuthRoute(path)
    ensures Handle(false, path) == Redirect(Login)
  {
  }

  /** Paths outside the matcher, meeting rooms such as `/123-456-789`
      among them, are never redirected, whoever asks. */
  lemma MeetingRoomsUnguarded(authenticated: bool)
    ensures Handle(authenticated, "/123-456-789") == Pass
  {
    assert "/123-456-789"[..5][1] == '1';
    assert (App + "/")[1] == 'a';
  }
}
