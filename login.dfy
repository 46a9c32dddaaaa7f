/**
 * The login form: sign in with email and password, explain the common
 * "unconfirmed email" failure, and make sure the account has a profile row
 * before going to the dashboard.
 */
module Login {
  import opened Wrappers
  import opened Text
  import opened Backend
  import opened Accounts

  const UnconfirmedMarker: string := "Email not confirmed"
  /** The guidance shown for an unconfirmed email, written in short pieces so that its letters can be checked one piece at a time. */
  const ConfirmationGuidance: string :=
    "Please check your " + "email and click the " + "confirmation link, " + "or disable email "
    + "confirmation in your " + "Supabase project " + "settings for " + "development."
  const ProfileSetupFailed: string := "Profile setup incomplete. Please contact support."
  const UnexpectedError: string := "An unexpected error occurred"

  /** The message shown for a failed sign-in: guidance for an unconfirmed email, otherwise the service's own text. */
  function LoginErrorMessage(message: string): (r: string)
    ensures Contains(message, UnconfirmedMarker) ==> r == ConfirmationGuidance
    ensures !Contains(message, UnconfirmedMarker) ==> r == message
  {
    if Contains(message, UnconfirmedMarker) then ConfirmationGuidance else message
  }

  /** The guidance does not itself mention an unconfirmed email. */
  lemma GuidanceLacksMarker()
    ensures !Contains(ConfirmationGuidance, UnconfirmedMarker)
  {
    assert UnconfirmedMarker[0] == 'E';
    assert 'E' !in "Please check your " && 'E' !in "email and click the " && 'E' !in "confirmation link, ";
    assert 'E' !in "or disable email " && 'E' !in "confirmation in your " && 'E' !in "Supabase project ";
    assert 'E' !in "settings for " && 'E' !in "development.";
    if Contains(ConfirmationGuidance, UnconfirmedMarker) {
      ContainsChars(ConfirmationGuidance, UnconfirmedMarker, 0);
    }
  }

  /** The guidance is shown exactly for service messages that report an unconfirmed email (or are the guidance itself). */
  lemma GuidanceOnlyForUnconfirmed(message: string)
    ensures LoginErrorMessage(message) == ConfirmationGuidance <==>
            Contains(message, UnconfirmedMarker) || message == ConfirmationGuidance
    ensures LoginErrorMessage(LoginErrorMessage(message)) == LoginErrorMessage(message)
  {
    GuidanceLacksMarker();
  }

  /** The outcome of `signInWithPassword`: an error message, a session (whose user may be null), or an exception. */
  datatype SignIn = SignInError(message: string) | SignInOk(user: Option<AuthUser>) | SignInThrew

  class LoginPage {
    var loading: bool
    var error: string

    constructor ()
      ensures !loading && error == []
    {
      loading, error := false, [];
    }

    /**
     * `handleLogin`. A failed sign-in shows its mapped message. A signed-in
     * user whose profile lookup reports a missing row gets one inserted with
     * the derived username; if that insert fails, an error is shown and the
     * page stays. Otherwise the user goes to the dashboard. An exception shows
     * a generic error. `loading` ends on every path. `created` is the row sent
     * for insertion, if any.
     */
    method HandleLogin(signIn: SignIn, lookup: Reply<Accounts.Profile>, create: Ack)
      returns (toDashboard: bool, created: Option<NewProfile>)
      modifies this
      ensures !loading
      ensures toDashboard <==> signIn.SignInOk? && signIn.user.Some? && error == []
      ensures signIn.SignInError? ==> error == LoginErrorMessage(signIn.message)
      ensures signIn.SignInThrew? ==> error == UnexpectedError
      ensures signIn.SignInOk? && signIn.user.None? ==> error == []
      ensures created.Some? <==> signIn.SignInOk? && signIn.user.Some? && ProfileMissing(lookup)
      ensures created.Some? ==> created.value == ProfileFor(signIn.user.value)
      ensures signIn.SignInOk? && signIn.user.Some? ==>
                error == (if lookup.ReplyThrew? then UnexpectedError
                          else if !ProfileMissing(lookup) || create.AckOk? then []
                          else if create.AckError? then ProfileSetupFailed
                          else UnexpectedError)
    {
      loading := true;
      error := [];
      toDashboard, created := false, None;
      match signIn {
        case SignInThrew =>
          error := UnexpectedError;
        case SignInError(message) =>
          error := LoginErrorMessage(message);
        case SignInOk(user) =>
          if user.Some? {
            if lookup.ReplyThrew? {
              error := UnexpectedError;
            } else if ProfileMissing(lookup) {
              created := Some(ProfileFor(user.value));
              if create.AckOk? {
                toDashboard := true;
              } else if create.AckError? {
                error := ProfileSetupFailed;
              } else {
                error := UnexpectedError;
              }
            } else {
              toDashboard := true;
            }
          }
      }
      loading := false;
    }
  }
}
