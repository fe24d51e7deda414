/** The authentication guard: a page that requires a signed-in user sends everyone
    else to `redirectTo`, and a page for signed-out users sends a signed-in user
    to the welcome page. */
module ProtectedRoute {
  import opened Navigation
  import opened AuthStore

  const WelcomePath: string := "/welcome"

  /** The guard's decision from its props and the store's `isAuthenticated`;
      `requiredAuth` defaults to true and `redirectTo` to `/login`. */
  function Protect(requiredAuth: Prop<bool>, isAuthenticated: bool, redirectTo: Prop<string>): (d: Decision)
    ensures d == RenderChildren <==> OrDefault(requiredAuth, true) == isAuthenticated
    ensures OrDefault(requiredAuth, true) && !isAuthenticated ==> d == Redirect(OrDefault(redirectTo, LoginPath))
    ensures !OrDefault(requiredAuth, true) && isAuthenticated ==> d == Redirect(WelcomePath)
  {
    var required := OrDefault(requiredAuth, true);
    if required && !isAuthenticated then Redirect(OrDefault(redirectTo, LoginPath))
    else if !required && isAuthenticated then Redirect(WelcomePath)
    else RenderChildren
  }

  /** With no props, only a signed-in user sees the page; anyone else is sent to
      `/login`. */
  lemma DefaultsRequireSignIn(isAuthenticated: bool)
    ensures Protect(Absent, isAuthenticated, Absent) ==
      if isAuthenticated then RenderChildren else Redirect("/login")
  {
  }

  /** A signed-in user on a page for signed-out users goes to `/welcome`, wherever
      `redirectTo` points. */
  lemma SignedInUserSentToWelcome(redirectTo1: Prop<string>, redirectTo2: Prop<string>)
    ensures Protect(Given(false), true, redirectTo1) == Redirect("/welcome")
    ensures Protect(Given(false), true, redirectTo1) == Protect(Given(false), true, redirectTo2)
  {
  }

  /** Together with the store: after `login` a protected page is shown and a
      signed-out page redirects to `/welcome`; after `logout` a protected page
      redirects to its `redirectTo`. */
  lemma StoreActionsDecideAccess<U>(s: StoreState<U>, userData: Nullable<U>, token: Nullable<string>, redirectTo: Prop<string>)
    ensures Protect(Absent, AfterLogin(s, userData, token).isAuthenticated, redirectTo) == RenderChildren
    ensures Protect(Given(false), AfterLogin(s, userData, token).isAuthenticated, redirectTo) == Redirect("/welcome")
    ensures Protect(Absent, AfterLogout(s).isAuthenticated, redirectTo) == Redirect(OrDefault(redirectTo, "/login"))
  {
  }
}
