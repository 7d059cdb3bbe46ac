/**
 * The client-side session provider: on every auth event, and once for the
 * session present at start-up, it provisions the signed-in user's profile
 * (ignoring a failed insert) and publishes the session's user; a sign-out
 * also refreshes the page. `useSupabase` refuses to run outside the provider.
 */
module SupabaseProvider {
  import opened Base
  import opened Profiles

  datatype AuthEvent = SignedIn | SignedOut | TokenRefreshed | UserUpdated | InitialSession | PasswordRecovery

  const OutsideProviderMessage := "useSupabase must be used inside SupabaseProvider"

  class Provider {
    var user: Option<AuthUser>
    /** How many times `router.refresh()` was called. */
    var refreshes: nat

    constructor ()
      ensures user.None? && refreshes == 0
    {
      user := None;
      refreshes := 0;
    }

    /** The `onAuthStateChange` handler; `session` is the event's session user. */
    method OnAuthStateChange(table: ProfileTable, event: AuthEvent, session: Option<AuthUser>,
                             lookupFault: bool, insertFault: bool)
      modifies this, table
      ensures session.Some? ==> table.rows == Provisioned(old(table.rows), session.value, lookupFault, insertFault)
      ensures session.None? ==> table.rows == old(table.rows)
      ensures user == session
      ensures refreshes == if event == SignedOut then old(refreshes) + 1 else old(refreshes)
    {
      if session.Some? {
        var inserted, failed := table.EnsureProfile(session.value, lookupFault, insertFault);
      }
      user := session;
      if event == SignedOut {
        refreshes := refreshes + 1;
      }
    }

    /** The `getSession` callback run once at start-up: the same provisioning,
        and no refresh. */
    method LoadInitialSession(table: ProfileTable, session: Option<AuthUser>, lookupFault: bool, insertFault: bool)
      modifies this, table
      ensures session.Some? ==> table.rows == Provisioned(old(table.rows), session.value, lookupFault, insertFault)
      ensures session.None? ==> table.rows == old(table.rows)
      ensures user == session && refreshes == old(refreshes)
    {
      if session.Some? {
        var inserted, failed := table.EnsureProfile(session.value, lookupFault, insertFault);
      }
      user := session;
    }
  }

  /** `useSupabase`: the provider's value, or the error it throws when there is
      no provider above the caller. */
  function UseSupabase<C>(context: Option<C>): (r: Result<C>)
    ensures context.None? <==> r.Err?
    ensures context.None? ==> r.error == ErrorInstance(OutsideProviderMessage)
    ensures context.Some? ==> r == Ok(context.value)
  {
    if context.None? then Err(ErrorInstance(OutsideProviderMessage)) else Ok(context.value)
  }
}
