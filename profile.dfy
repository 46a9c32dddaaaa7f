/**
 * The profile page: the user's row, three activity counts, and renaming, which
 * is refused when nothing would change and when another user has the name.
 */
module Profile {
  import opened Wrappers
  import opened Text
  import opened Backend
  import opened Accounts

  datatype Stats = Stats(videosSent: nat, videosReceived: nat, contactsCount: nat)

  /** The three exact counts as the backend reports them (each may be null), or an exception. */
  datatype Counts = Counts(sent: Option<nat>, received: Option<nat>, contacts: Option<nat>) | CountsThrew

  /** `count || 0`: a null count shows as 0. */
  function CountOrZero(count: Option<nat>): (n: nat)
    ensures count.None? ==> n == 0
    ensures count.Some? ==> n == count.value
  {
    if count.Some? then count.value else 0
  }

  /**
   * The guard of `updateUsername`: a rename is attempted only for a loaded
   * user and a draft that differs from the current name and is not made of
   * whitespace alone.
   */
  function WantsRename(user: Option<Accounts.Profile>, draft: string): (r: bool)
    ensures r <==> user.Some? && !AllWhitespace(draft) && draft != user.value.username
  {
    TrimEmpty(draft);
    user.Some? && Trim(draft) != [] && draft != user.value.username
  }

  /** The name a rename stores is never blank and has no whitespace at either end. */
  lemma StoredNameIsTrimmed(user: Option<Accounts.Profile>, draft: string)
    requires WantsRename(user, draft)
    ensures Trim(draft) != [] && !AllWhitespace(Trim(draft))
    ensures !IsWhitespace(Trim(draft)[0]) && !IsWhitespace(Trim(draft)[|Trim(draft)| - 1])
    ensures Trim(Trim(draft)) == Trim(draft)
  {
    TrimBorders(draft);
    TrimIdempotent(draft);
  }

  /** How `updateUsername` ended. */
  datatype RenameOutcome = Unchanged | Taken | RenameFailed | Renamed(name: string)

  class ProfilePage {
    var user: Option<Accounts.Profile>
    var stats: Stats
    var loading: bool
    var updating: bool
    var newUsername: string
    var showUsernameEdit: bool

    constructor ()
      ensures user == None && stats == Stats(0, 0, 0) && loading && !updating
      ensures newUsername == [] && !showUsernameEdit
    {
      user, stats, loading, updating := None, Stats(0, 0, 0), true, false;
      newUsername, showUsernameEdit := [], false;
    }

    /**
     * `loadProfile`: with nobody signed in, go to the login page; a profile
     * that is found becomes the user and seeds the username draft. `loading`
     * ends on every path.
     */
    method LoadProfile(session: Session, reply: Reply<Accounts.Profile>) returns (toLogin: bool)
      modifies this
      ensures !loading
      ensures toLogin <==> session.SignedOut?
      ensures session.SignedIn? && reply.Answer? && reply.data.Some? ==>
                user == reply.data && newUsername == reply.data.value.username
      ensures !(session.SignedIn? && reply.Answer? && reply.data.Some?) ==>
                user == old(user) && newUsername == old(newUsername)
      ensures stats == old(stats) && updating == old(updating) && showUsernameEdit == old(showUsernameEdit)
    {
      toLogin := session.SignedOut?;
      if session.SignedIn? && reply.Answer? && reply.data.Some? {
        user := reply.data;
        newUsername := reply.data.value.username;
      }
      loading := false;
    }

    /** `loadStats`: for a signed-in user whose count queries all return, show the counts, nulls as 0. */
    method LoadStats(session: Session, counts: Counts)
      modifies this`stats
      ensures session.SignedIn? && counts.Counts? ==>
                stats == Stats(CountOrZero(counts.sent), CountOrZero(counts.received), CountOrZero(counts.contacts))
      ensures !(session.SignedIn? && counts.Counts?) ==> stats == old(stats)
    {
      if session.SignedIn? && counts.Counts? {
        stats := Stats(CountOrZero(counts.sent), CountOrZero(counts.received), CountOrZero(counts.contacts));
      }
    }

    /** The "Edit" button. */
    method StartEdit()
      modifies this`showUsernameEdit
      ensures showUsernameEdit
    {
      showUsernameEdit := true;
    }

    /** Typing in the username box. */
    method EditDraft(draft: string)
      modifies this`newUsername
      ensures newUsername == draft
    {
      newUsername := draft;
    }

    /** The "Cancel" button: close the editor and reset the draft to the current name. */
    method CancelEdit()
      requires user.Some?
      modifies this`showUsernameEdit, this`newUsername
      ensures !showUsernameEdit && newUsername == user.value.username
    {
      showUsernameEdit := false;
      newUsername := user.value.username;
    }

    /**
     * `updateUsername`. Without a rename to make (see `WantsRename`) the editor
     * closes and the draft is reset to the current name. Otherwise the trimmed
     * draft is looked up among the other users: a hit refuses the name; a miss
     * sends an update, and on success the local user gets the trimmed name and
     * the editor closes. `updating` is false afterwards on every path.
     * `sentName` is the name written by the update, if one was sent.
     */
    method UpdateUsername(existing: Reply<string>, update: Ack) returns (outcome: RenameOutcome, sentName: Option<string>)
      modifies this`updating, this`showUsernameEdit, this`newUsername, this`user
      ensures !WantsRename(old(user), old(newUsername)) ==>
                outcome == Unchanged && sentName == None && user == old(user) && !showUsernameEdit
                && newUsername == (if user.Some? then user.value.username else []) && updating == old(updating)
      ensures WantsRename(old(user), old(newUsername)) ==> !updating && newUsername == old(newUsername)
      ensures sentName.Some? <==> WantsRename(old(user), old(newUsername)) && existing.Answer? && existing.data.None?
      ensures sentName.Some? ==> sentName.value == Trim(old(newUsername))
      ensures outcome == Taken <==> WantsRename(old(user), old(newUsername)) && existing.Answer? && existing.data.Some?
      ensures outcome.Renamed? <==> sentName.Some? && update.AckOk?
      ensures outcome.Renamed? ==> outcome.name == Trim(old(newUsername)) && !showUsernameEdit
                                   && user == Some(old(user).value.(username := Trim(old(newUsername))))
      ensures !outcome.Renamed? ==> user == old(user)
      ensures WantsRename(old(user), old(newUsername)) && !outcome.Renamed? ==> showUsernameEdit == old(showUsernameEdit)
    {
      sentName := None;
      if !WantsRename(user, newUsername) {
        showUsernameEdit := false;
        newUsername := if user.Some? then user.value.username else [];
        outcome := Unchanged;
        return;
      }
      updating := true;
      var name := Trim(newUsername);
      if existing.ReplyThrew? {
        outcome := RenameFailed;
      } else if existing.data.Some? {
        outcome := Taken;
      } else {
        sentName := Some(name);
        if update.AckOk? {
          user := Some(user.value.(username := name));
          showUsernameEdit := false;
          outcome := Renamed(name);
        } else {
          outcome := RenameFailed;
        }
      }
      updating := false;
    }
  }
}
