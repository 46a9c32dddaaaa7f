/**
 * The `users` table row and the rule that picks a username for a new profile.
 * The dashboard and the login page both create a missing profile, and both use
 * the same fallback chain: the sign-up metadata, then the email's local part,
 * then the word "user".
 */
module Accounts {
  import opened Wrappers
  import opened Backend

  /** A row of the `users` table. */
  datatype Profile = Profile(id: string, email: string, username: string)

  /** The row the client inserts when a profile is missing (`email` is sent as-is, possibly null). */
  datatype NewProfile = NewProfile(id: string, email: Option<string>, username: string)

  const DefaultUsername: string := "user"

  /** `email.split('@')[0]`: the text before the first '@', or all of it when there is none. */
  function LocalPart(email: string): (r: string)
    ensures r <= email
    ensures '@' !in r
    ensures |r| < |email| ==> email[|r|] == '@'
  {
    if email == [] || email[0] == '@' then []
    else [email[0]] + LocalPart(email[1..])
  }

  /**
   * `metaUsername || email?.split('@')[0] || 'user'`: the first non-empty candidate.
   */
  function DeriveUsername(metaUsername: Option<string>, email: Option<string>): (r: string)
    ensures r != []
    ensures metaUsername.Some? && metaUsername.value != [] ==> r == metaUsername.value
    ensures (metaUsername.None? || metaUsername.value == []) && email.Some? && email.value != [] && email.value[0] != '@'
            ==> r <= email.value && '@' !in r && (|r| < |email.value| ==> email.value[|r|] == '@')
    ensures (metaUsername.None? || metaUsername.value == []) && (email.None? || email.value == [] || email.value[0] == '@')
            ==> r == DefaultUsername
  {
    if metaUsername.Some? && metaUsername.value != [] then metaUsername.value
    else if email.Some? && LocalPart(email.value) != [] then LocalPart(email.value)
    else DefaultUsername
  }

  /** The profile row a page inserts for an authenticated user whose profile is missing. */
  function ProfileFor(user: AuthUser): (row: NewProfile)
    ensures row.id == user.id && row.email == user.email && row.username != []
  {
    NewProfile(user.id, user.email, DeriveUsername(user.metaUsername, user.email))
  }

  /**
   * The profile lookup reported that no row exists, which is what makes a page
   * create one: only an answer whose error carries the "no rows" code does so;
   * an exception or an answer without an error never does.
   */
  function ProfileMissing(lookup: Reply<Profile>): (r: bool)
    ensures lookup.ReplyThrew? ==> !r
    ensures lookup.Answer? && lookup.error.None? ==> !r
    ensures r <==> lookup.Answer? && lookup.error.Some? && lookup.error.value.code == "PGRST116"
  {
    lookup.FailedWith(NoRowsCode)
  }
}
