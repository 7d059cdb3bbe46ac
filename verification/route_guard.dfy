/**
 * The edge middleware that guards the admin area. For one request it decides,
 * from the path, whether a session exists and the role stored in the user's
 * profile, whether to let the request through, to send the browser to the
 * login page (signing the session out first when the user is not an admin),
 * or to send a signed-in user away from the login page to the dashboard.
 */
module RouteGuard {
  import opened Base

  /** What the middleware answers: pass through, redirect to `/login` (after a
      sign-out when `signOut` holds), or redirect to `/admin`. */
  datatype Decision = Allow | RedirectLogin(signOut: bool) | RedirectAdmin

  /** `pathname.startsWith('/admin')` */
  predicate IsAdminPath(path: string)
  {
    "/admin" <= path
  }

  /** The profile is looked up only for an admin path with a session. */
  predicate NeedsProfile(path: string, signedIn: bool)
  {
    IsAdminPath(path) && signedIn
  }

  /** The decision of `middleware`. `signedIn` is whether `getSession` found a
      session; `profile` is the role the profile lookup returned (`None` for a
      missing row), consulted only when `NeedsProfile` holds. */
  function Guard(path: string, signedIn: bool, profile: Option<Role>): (d: Decision)
    ensures IsAdminPath(path) && !signedIn ==> d == RedirectLogin(false)
    ensures IsAdminPath(path) && signedIn && profile != Some(Admin) ==> d == RedirectLogin(true)
    ensures IsAdminPath(path) ==> (d == Allow <==> signedIn && profile == Some(Admin))
    ensures !IsAdminPath(path) ==> (d == RedirectAdmin <==> signedIn && path == "/login")
    ensures !IsAdminPath(path) ==> d != RedirectLogin(true) && d != RedirectLogin(false)
    ensures d == RedirectLogin(true) ==> NeedsProfile(path, signedIn)
  {
    assert "/login"[2] != "/admin"[2];
    if IsAdminPath(path) && !signedIn then RedirectLogin(false)
    else if IsAdminPath(path) && profile != Some(Admin) then RedirectLogin(true)
    else if signedIn && path == "/login" then RedirectAdmin
    else Allow
  }

  /** The sign-out is issued only when the request is refused for lack of the
      admin role: never on a pass-through and never on the redirect to `/admin`. */
  lemma SignOutOnlyWhenNotAdmin(path: string, signedIn: bool, profile: Option<Role>)
    ensures Guard(path, signedIn, profile) == RedirectLogin(true) <==>
            IsAdminPath(path) && signedIn && profile != Some(Admin)
  {
  }

  /** Outside the admin area the profile row plays no part in the decision. */
  lemma ProfileIrrelevantOutsideLookup(path: string, signedIn: bool, p: Option<Role>, q: Option<Role>)
    requires !NeedsProfile(path, signedIn)
    ensures Guard(path, signedIn, p) == Guard(path, signedIn, q)
  {
  }

  /** The test is a prefix test: `/administrator` and `/admin-tools` are
      guarded exactly like `/admin`. */
  lemma PrefixIsGuarded(suffix: string, signedIn: bool, profile: Option<Role>)
    ensures Guard("/admin" + suffix, signedIn, profile) == Guard("/admin", signedIn, profile)
  {
    assert IsAdminPath("/admin" + suffix) by {
      assert ("/admin" + suffix)[..|"/admin"|] == "/admin";
    }
  }

  /** A request for the login page: a signed-in user goes to the dashboard, an
      anonymous one gets the page. */
  lemma LoginPage(signedIn: bool, profile: Option<Role>)
    ensures Guard("/login", signedIn, profile) == if signedIn then RedirectAdmin else Allow
  {
    assert !IsAdminPath("/login") by { assert "/login"[2] != "/admin"[2]; }
  }

  /** The route matcher: `/admin`, any path below `/admin/`, and `/login`. */
  predicate Matched(path: string)
  {
    path == "/admin" || "/admin/" <= path || path == "/login"
  }

  /** A request as a whole: the middleware runs only on matched paths; every
      other path passes through untouched. */
  function Route(path: string, signedIn: bool, profile: Option<Role>): (d: Decision)
    ensures !Matched(path) ==> d == Allow
    ensures Matched(path) ==> d == Guard(path, signedIn, profile)
  {
    if Matched(path) then Guard(path, signedIn, profile) else Allow
  }

  /** Every matched path below `/admin` is refused without an admin session. */
  lemma RouteGuardsAdminArea(path: string, signedIn: bool, profile: Option<Role>)
    requires path == "/admin" || "/admin/" <= path
    ensures Route(path, signedIn, profile) == Allow <==> signedIn && profile == Some(Admin)
  {
    assert IsAdminPath(path) by {
      if path != "/admin" {
        assert path[..6] == "/admin/"[..6];
      }
    }
  }

  /** Although the middleware body treats `/administrator` as guarded, the
      matcher never hands that path to it, so it is served to anyone. */
  lemma AdministratorNotMatched(signedIn: bool, profile: Option<Role>)
    ensures IsAdminPath("/administrator")
    ensures Route("/administrator", signedIn, profile) == Allow
  {
    assert "/administrator"[..6] == "/admin";
    assert "/administrator"[6] != "/admin/"[6];
  }
}
