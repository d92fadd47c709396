/** The page guard of middleware.ts: which requests are redirected to sign-in or
    to the account page. Whether the request carries a session is an input (it
    comes from the external auth library). */
module Middleware {
  import opened Base

  const SignInPage: string := "/auth/signin"
  const AccountPage: string := "/account"

  datatype Decision = Next | Redirect(to: string)

  /** `pathname.startsWith('/auth')` */
  predicate IsAuthPage(path: string) {
    StartsWith(path, "/auth")
  }

  /** The guard: without a session only auth pages and `/` pass; with a session
      auth pages send the user to the account page. */
  function Decide(hasSession: bool, path: string): (d: Decision)
    ensures d == Next <==> (hasSession && !IsAuthPage(path)) || (!hasSession && (IsAuthPage(path) || path == "/"))
    ensures d.Redirect? ==> d.to == (if hasSession then AccountPage else SignInPage)
  {
    if !hasSession && !IsAuthPage(path) && path != "/" then Redirect(SignInPage)
    else if hasSession && IsAuthPage(path) then Redirect(AccountPage)
    else Next
  }

  /** `matcher: ['/((?!api|_next/static|_next/image|favicon.ico).*)']`: a path the
      middleware runs on. The `.` in `favicon.ico` is a regex wildcard, and every
      alternative excludes by prefix only. */
  predicate Matched(path: string) {
    && StartsWith(path, "/")
    && !StartsWith(path[1..], "api")
    && !StartsWith(path[1..], "_next/static")
    && !StartsWith(path[1..], "_next/image")
    && !(|path| >= 12 && path[1..8] == "favicon" && path[9..12] == "ico")
  }

  /** A request as Next.js runs it: unmatched paths never reach the guard. */
  function Route(hasSession: bool, path: string): (d: Decision)
    ensures !Matched(path) ==> d == Next
    ensures Matched(path) ==> d == Decide(hasSession, path)
  {
    if Matched(path) then Decide(hasSession, path) else Next
  }

  /** Following a redirect never redirects again: the sign-in page passes without
      a session and the account page passes with one. */
  lemma NoRedirectLoop(hasSession: bool, path: string)
    requires Route(hasSession, path).Redirect?
    ensures Route(hasSession, Route(hasSession, path).to) == Next
  {
    assert SignInPage[..5] == "/auth";
    assert AccountPage[2] == 'c' && "/auth"[2] == 'u';
  }

  /** The home page is reachable with or without a session. */
  lemma RootAlwaysReachable(hasSession: bool)
    ensures Route(hasSession, "/") == Next
  {
    assert !IsAuthPage("/");
  }

  /** Without a session, a matched page is served exactly when it is an auth page
      or the home page. */
  lemma GuestAccess(path: string)
    requires Matched(path)
    ensures Route(false, path) == Next <==> IsAuthPage(path) || path == "/"
  {
  }

  /** The prefix test also catches pages that merely begin with "/auth": a
      signed-in user asking for "/authors" is sent to the account page. */
  lemma AuthPrefixOvermatches()
    ensures Route(true, "/authors") == Redirect(AccountPage)
  {
    assert "/authors"[..5] == "/auth";
    assert Matched("/authors") by {
      assert "/authors"[1..][1] == 'u' && "api"[1] == 'p';
      assert "/authors"[1..][0] == 'a' && "_next/static"[0] == '_';
    }
  }

  /** API routes are never redirected, session or not. */
  lemma ApiNeverRedirected(hasSession: bool, rest: string)
    ensures Route(hasSession, "/api" + rest) == Next
  {
    var p := "/api" + rest;
    assert p[1..][..3] == "api";
  }
}
