/**
 * The request gate in front of every page: which paths it runs on, and
 * where it sends a request given whether the visitor has a session and a
 * user. The session and user lookups are the parameters `hasSession` and
 * `hasUser`.
 */
module Middleware {

  /** The parts of the requested URL the gate reads or keeps. */
  datatype Url = Url(origin: string, pathname: string, search: string)

  datatype Response = Continue | Redirect(location: Url)

  /** Signed in: both a session and the user behind its token were found. */
  predicate IsAuth(hasSession: bool, hasUser: bool) {
    hasSession && hasUser
  }

  /** The two pages open to visitors without a session. */
  predicate IsPublicPage(path: string) {
    path == "/login" || path == "/register"
  }

  /** The decision for a request the gate runs on. */
  function Gate(hasSession: bool, hasUser: bool, url: Url): (r: Response)
    ensures r.Continue? <==> (IsAuth(hasSession, hasUser) <==> !IsPublicPage(url.pathname))
    ensures r.Redirect? ==> r.location == url.(pathname := r.location.pathname)
    ensures r.Redirect? && !IsAuth(hasSession, hasUser) ==> r.location.pathname == "/login"
    ensures r.Redirect? && IsAuth(hasSession, hasUser) ==> r.location.pathname == "/"
  {
    var auth := IsAuth(hasSession, hasUser);
    if !auth && url.pathname != "/login" && url.pathname != "/register" then
      Redirect(url.(pathname := "/login"))
    else if auth && url.pathname in ["/login", "/register"] then
      Redirect(url.(pathname := "/"))
    else
      Continue
  }

  /** A request let through is either signed in or for a public page, and never a signed-in visit to one. */
  lemma ContinueMeansAllowed(hasSession: bool, hasUser: bool, url: Url)
    requires Gate(hasSession, hasUser, url).Continue?
    ensures IsAuth(hasSession, hasUser) ==> !IsPublicPage(url.pathname)
    ensures !IsAuth(hasSession, hasUser) ==> IsPublicPage(url.pathname)
  {
  }

  /** Following a redirect, with the same session, is let through: the gate never loops. */
  lemma NoRedirectLoop(hasSession: bool, hasUser: bool, url: Url)
    requires Gate(hasSession, hasUser, url).Redirect?
    ensures Gate(hasSession, hasUser, Gate(hasSession, hasUser, url).location).Continue?
  {
  }

  /**
   * The path filter `/((?!api|_next/static|_next/image|favicon.ico).*)`:
   * the gate runs on every path whose text after the first slash does not
   * start with one of the four excluded prefixes (the `.` in `favicon.ico`
   * matches any character).
   */
  predicate Matched(path: string) {
    |path| >= 1 && path[0] == '/'
    && !StartsWith(path[1..], "api")
    && !StartsWith(path[1..], "_next/static")
    && !StartsWith(path[1..], "_next/image")
    && !FaviconPrefix(path[1..])
  }

  predicate StartsWith(s: string, prefix: string) {
    |prefix| <= |s| && forall i :: 0 <= i < |prefix| ==> s[i] == prefix[i]
  }

  /** `favicon.ico` as a pattern: any one character in place of the dot. */
  predicate FaviconPrefix(s: string) {
    |s| >= 11 && StartsWith(s, "favicon") && StartsWith(s[8..], "ico")
  }

  /** What reaches the page: unmatched paths pass untouched, matched ones go through the gate. */
  function Handle(hasSession: bool, hasUser: bool, url: Url): (r: Response)
    ensures r.Continue? <==> !Matched(url.pathname) || (IsAuth(hasSession, hasUser) <==> !IsPublicPage(url.pathname))
    ensures r.Redirect? ==> r.location == url.(pathname := if IsAuth(hasSession, hasUser) then "/" else "/login")
  {
    if Matched(url.pathname) then Gate(hasSession, hasUser, url) else Continue
  }

  /** The redirect targets are themselves matched, so the redirected request is checked again. */
  lemma RedirectTargetsAreMatched()
    ensures Matched("/login") && Matched("/")
  {
    OtherPathsMatched("/login");
    OtherPathsMatched("/");
  }

  /**
   * The gate runs on the root and on every path whose first character after
   * the slash cannot begin an excluded prefix: the application's pages.
   */
  lemma OtherPathsMatched(path: string)
    requires |path| >= 1 && path[0] == '/'
    requires |path| == 1 || (path[1] != 'a' && path[1] != '_' && path[1] != 'f')
    ensures Matched(path)
  {
    if |path| == 1 {
      assert path[1..] == [];
    } else {
      FirstCharDiffers(path[1..], path[1]);
    }
  }

  /**
   * Behind the path filter the gate still never loops: a redirect's target
   * is let through with the same session.
   */
  lemma HandleNeverLoops(hasSession: bool, hasUser: bool, url: Url)
    requires Handle(hasSession, hasUser, url).Redirect?
    ensures Handle(hasSession, hasUser, Handle(hasSession, hasUser, url).location).Continue?
  {
    RedirectTargetsAreMatched();
    NoRedirectLoop(hasSession, hasUser, url);
  }

  /**
   * A visitor without a session reaches a matched page only if it is the
   * login or the register page.
   */
  lemma GuestsReachOnlyPublicPages(url: Url, hasSession: bool, hasUser: bool)
    requires !IsAuth(hasSession, hasUser) && Matched(url.pathname)
    requires Handle(hasSession, hasUser, url).Continue?
    ensures IsPublicPage(url.pathname)
  {
  }

  /** The excluded prefixes are prefixes only: `/apiary` is skipped too, and any character stands for the dot. */
  lemma UnmatchedExamples()
    ensures !Matched("/api/users") && !Matched("/apiary") && !Matched("/favicon.ico") && !Matched("/faviconXico")
  {
    var a, b := "/api/users"[1..], "/apiary"[1..];
    assert a[0] == 'a' && a[1] == 'p' && a[2] == 'i';
    assert b[0] == 'a' && b[1] == 'p' && b[2] == 'i';
    var f, g := "/favicon.ico"[1..], "/faviconXico"[1..];
    assert f[8..][0] == 'i' && f[8..][1] == 'c' && f[8..][2] == 'o';
    assert g[8..][0] == 'i' && g[8..][1] == 'c' && g[8..][2] == 'o';
  }

  /** A path part whose first character is not `a`, `_` or `f` avoids every excluded prefix. */
  lemma FirstCharDiffers(s: string, c: char)
    requires |s| >= 1 && s[0] == c && c != 'a' && c != '_' && c != 'f'
    ensures !StartsWith(s, "api") && !StartsWith(s, "_next/static") && !StartsWith(s, "_next/image")
    ensures !FaviconPrefix(s)
  {
    assert "api"[0] == 'a' && "_next/static"[0] == '_' && "_next/image"[0] == '_' && "favicon"[0] == 'f';
  }
}
