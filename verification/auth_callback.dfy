/**
 * The OAuth callback route: it trades the `code` query parameter for a
 * session, provisions the user's profile, and redirects home, or to the login
 * page with an error flag when any step fails.
 */
module AuthCallback {
  import opened Base
  import opened Profiles
  import RouteGuard

  const HomeUrl := "/"
  const ErrorUrl := "/login?error=callback_error"

  /** `GET`: `code` is the query parameter (`None` when absent); `exchange` is
      the reply of the code exchange, `Ok(None)` when it yields no user.
      Returns the redirect target and whether the backend was contacted. */
  method Callback(table: ProfileTable, code: Option<string>, exchange: Result<Option<AuthUser>>,
                  lookupFault: bool, insertFault: bool)
    returns (redirect: string, contacted: bool)
    modifies table
    ensures contacted <==> code.Some? && code.value != ""
    ensures !contacted ==> redirect == HomeUrl && table.rows == old(table.rows)
    ensures contacted && exchange.Err? ==> redirect == ErrorUrl && table.rows == old(table.rows)
    ensures contacted && exchange.Ok? && exchange.value.None? ==>
      (redirect == HomeUrl && table.rows == old(table.rows))
    ensures contacted && exchange.Ok? && exchange.value.Some? ==>
      table.rows == Provisioned(old(table.rows), exchange.value.value, lookupFault, insertFault)
    ensures contacted && exchange.Ok? && exchange.value.Some? ==>
      (redirect == ErrorUrl <==>
        (lookupFault || exchange.value.value.id !in old(table.rows))
        && (insertFault || exchange.value.value.id in old(table.rows)))
    ensures redirect == HomeUrl || redirect == ErrorUrl
  {
    redirect := HomeUrl;
    contacted := code.Some? && code.value != "";
    if !contacted {
      return;
    }
    if exchange.Err? {
      redirect := ErrorUrl;
      return;
    }
    if exchange.value.Some? {
      var inserted, failed := table.EnsureProfile(exchange.value.value, lookupFault, insertFault);
      if failed {
        redirect := ErrorUrl;
      }
    }
  }

  /** A user who signs in for the first time gets the `user` role and is
      therefore still refused by the admin route guard. */
  lemma NewUserIsNotAdmin(rows: map<string, Profile>, u: AuthUser, lookupFault: bool, insertFault: bool)
    requires u.id !in rows
    ensures var r := Provisioned(rows, u, lookupFault, insertFault);
      u.id in r ==> RouteGuard.Guard("/admin", true, Some(r[u.id].role)) == RouteGuard.RedirectLogin(true)
  {
    ProvisionedKeepsRows(rows, u, lookupFault, insertFault);
  }
}
