/**
 * The dashboard's entry check: a visitor must be signed in and have a profile;
 * a signed-in user whose profile row is missing gets one created.
 */
module Dashboard {
  import opened Wrappers
  import opened Backend
  import opened Accounts

  class DashboardPage {
    var user: Option<Accounts.Profile>
    var loading: bool

    constructor ()
      ensures user == None && loading
    {
      user, loading := None, true;
    }

    /**
     * `checkUser`. Nobody signed in: go to login. A lookup that reports a
     * missing row: insert a profile with the derived username; if the insert
     * fails, go to login, otherwise show the returned row. Any other lookup
     * that returns a row: show it; none: go to login. An exception anywhere:
     * go to login. `loading` ends on every path. `created` is the row sent
     * for insertion, if any.
     */
    method CheckUser(session: Session, lookup: Reply<Accounts.Profile>, create: Reply<Accounts.Profile>)
      returns (toLogin: bool, created: Option<NewProfile>)
      modifies this
      ensures !loading
      ensures created.Some? <==> session.SignedIn? && ProfileMissing(lookup)
      ensures created.Some? ==> created.value == ProfileFor(session.user)
      ensures !session.SignedIn? ==> toLogin && user == old(user)
      ensures session.SignedIn? && ProfileMissing(lookup) ==>
                (toLogin <==> !(create.Answer? && create.error.None?))
                && user == (if toLogin then old(user) else create.data)
      ensures session.SignedIn? && !ProfileMissing(lookup) ==>
                (toLogin <==> !(lookup.Answer? && lookup.data.Some?))
                && user == (if toLogin then old(user) else lookup.data)
    {
      toLogin, created := false, None;
      if !session.SignedIn? {
        toLogin := true;
      } else if ProfileMissing(lookup) {
        created := Some(ProfileFor(session.user));
        if create.Answer? && create.error.None? {
          user := create.data;
        } else {
          toLogin := true;
        }
      } else if lookup.Answer? && lookup.data.Some? {
        user := lookup.data;
      } else {
        toLogin := true;
      }
      loading := false;
    }
  }
}
