# Sunny Video in Dafny

Sunny Video is a web app for short video messages. A signed-in user records a clip on the record
page, where a counter is meant to end recording after ten seconds, can pick a visual filter and
an emoji, and sends the clip to a contact. The clip is uploaded to storage and a `video_messages` row is inserted; it expires 24
hours later. The recipient's inbox lists the messages that have not expired. Opening a message
marks it viewed, and the recipient may delete it. Other pages manage the contact list (username
search, add, remove), the profile (activity counts, renaming) and sign-in, which creates a missing
profile row. The dashboard does the same when it is entered.

This project models the client-side logic of those pages:

- Each page's component state is a class. Its fields are the React state variables, and its
  event handlers are methods with `modifies` clauses.
- The pure helpers are functions with lemmas: expiry filtering, relative times, the filter
  lookup, the timer step, the username fallback, login error wording, and the `trim`/`includes`
  string operations.
- Every answer from the backend (auth session, table queries, inserts, updates, deletes, storage
  upload) and from the browser (camera, recorder chunks, player events, `confirm`, the clock) is
  a parameter of the method that receives it. The one exception is the contact row an insert
  returns: the model receives only its generated id (see "Left out"). The answers are `Backend.Session`, `Backend.Reply` and
  `Backend.Ack`, which distinguish an answer, an error and a thrown exception. The model proves
  what each page does with every combination of them.
- Times are integer milliseconds since the epoch.

Modules:

| Module | Models |
|---|---|
| `Wrappers` | `Option` |
| `Seqs` | `Array.prototype.filter` and its laws |
| `Text` | `String.prototype.trim` and `includes` |
| `Backend` | answer shapes and the "no rows" error code `PGRST116` |
| `Accounts` | profile rows and the username fallback |
| `Messages` | inbox page |
| `Record` | record page |
| `Contacts` | contacts page |
| `Profile` | profile page |
| `Dashboard` | dashboard page |
| `Login` | login page |

## Model

| member | source | states |
|---|---|---|
| Seqs.Filter | src/app/messages/page.tsx:56 | the result holds exactly the elements of the input that satisfy the predicate, and is never longer |
| Seqs.FilterCount | src/app/contacts/page.tsx:150 | every kept value occurs exactly as often as in the input, every dropped value not at all |
| Seqs.FilterConcat | src/app/messages/page.tsx:134 | filtering a concatenation filters each part, so kept elements stay in their order |
| Seqs.FilterCommutes | src/app/messages/page.tsx:56 | two filters give the same list in either order |
| Text.IsWhitespace | src/app/contacts/page.tsx:81 | the characters `trim` removes include space, tab, line feed and carriage return, and never a letter, a digit or '@' |
| Text.LeadingWhitespace | src/app/contacts/page.tsx:81 | the leading whitespace run never exceeds the string |
| Text.LeadingWhitespaceSpec | src/app/contacts/page.tsx:81 | the characters `trim` drops at the front are exactly the leading whitespace: all of them are whitespace and the next character is not |
| Text.ContentEnd | src/app/contacts/page.tsx:81 | the end of the content never exceeds the string |
| Text.ContentEndSpec | src/app/contacts/page.tsx:81 | the characters `trim` drops at the back are exactly the trailing whitespace: all of them are whitespace and the one before is not |
| Text.Trim | src/app/contacts/page.tsx:81 | `trim()` never lengthens its input |
| Text.TrimBorders | src/app/profile/page.tsx:105 | a trimmed string neither starts nor ends with whitespace |
| Text.TrimEmpty | src/app/contacts/page.tsx:81 | `!s.trim()` holds exactly when `s` is all whitespace (including empty) |
| Text.TrimSlice | src/app/profile/page.tsx:105 | the trimmed text is a contiguous slice of the input bordered only by whitespace |
| Text.TrimIdempotent | src/app/profile/page.tsx:117 | trimming a trimmed string changes nothing |
| Text.Contains | src/app/auth/login/page.tsx:27 | `includes` holds for every prefix, the empty pattern included, and never for a pattern longer than the text; ContainsSpec gives its meaning |
| Text.ContainsSpec | src/app/auth/login/page.tsx:27 | `includes` holds exactly when the pattern occurs in the text at some offset, not only at the start |
| Text.ContainsChars | src/app/auth/login/page.tsx:27 | a string that `includes` a pattern contains every character of the pattern |
| Accounts.LocalPart | src/app/dashboard/page.tsx:42 | `email.split('@')[0]` is a prefix of the email without '@', ending at the first '@' or at the end |
| Accounts.DeriveUsername | src/app/dashboard/page.tsx:41-43 | the username is never empty: the metadata username if non-empty, else the email's non-empty local part, else "user" |
| Accounts.ProfileFor | src/app/dashboard/page.tsx:45-53 | the inserted row carries the auth user's id and email and a non-empty username |
| Messages.FloorDivNested | src/app/messages/page.tsx:153-156 | flooring by 60 and then by 24 equals one floor by the product |
| Messages.DaysFromMinutes | src/app/messages/page.tsx:167-170 | the day count taken from minutes via hours is `floor(minutes / 1440)` |
| Messages.FormatTimeAgo | src/app/messages/page.tsx:145-158 | "Just now" below one minute (future times included); minutes below an hour, hours below a day, days beyond; each count is the floor of the elapsed time in that unit |
| Messages.ExpiryTime | src/app/messages/page.tsx:160-172 | minutes below an hour left (negative once expired), hours below a day, days beyond; each count is the floored time left in that unit |
| Messages.Unexpired | src/app/messages/page.tsx:55-56 | exactly the messages whose expiry is strictly later than now are kept |
| Messages.UnexpiredKeepsOrder | src/app/messages/page.tsx:56 | the expiry filter keeps the server's newest-first order |
| Messages.Viewed | src/app/messages/page.tsx:84 | the viewed copy has `viewed` set and `viewed_at` at the given time, and equals the message in every other field |
| Messages.MarkViewed | src/app/messages/page.tsx:81-87 | same length; entries with the id get `viewed` and `viewed_at` set and nothing else changed; all other entries are untouched |
| Messages.MarkViewedKeepsExpiry | src/app/messages/page.tsx:81-87 | marking a message viewed commutes with the expiry filter |
| Messages.RemoveById | src/app/messages/page.tsx:134 | exactly the entries whose id differs from the deleted one remain |
| Messages.RemoveByIdKeepsOthers | src/app/messages/page.tsx:134 | deleting keeps the other messages in order and with their multiplicity |
| Messages.RemoveCommutesWithExpiry | src/app/messages/page.tsx:134 | deleting and dropping expired messages can be done in either order |
| Messages.VideoElement.constructor | src/app/messages/page.tsx:95-97 | the mounted player element that `closeMessage` pauses and rewinds starts out paused at position 0, as a browser's element does |
| Messages.Inbox.constructor | src/app/messages/page.tsx:22-25 | the inbox starts empty and loading, with nothing selected and nothing playing |
| Messages.Inbox.LoadMessages | src/app/messages/page.tsx:33-64 | signed out: redirect to login; a successful query shows only unexpired messages in server order (null shows none); a failure or exception keeps the list; loading ends on every path; every listed message was alive at the load |
| Messages.Inbox.OpenMessage | src/app/messages/page.tsx:66-90 | the message is selected; the backend is asked to mark it exactly when it was unviewed; only on success is the local list marked |
| Messages.Inbox.PlaybackChanged | src/app/messages/page.tsx:277-279 | the player's play event sets `isPlaying`; its pause and ended events clear it |
| Messages.Inbox.CloseMessage | src/app/messages/page.tsx:92-99 | deselects, stops playing, and pauses and rewinds a mounted player; the list is unchanged |
| Messages.Inbox.DeleteMessage | src/app/messages/page.tsx:121-143 | only a confirmed and successful delete removes the message; the player is closed exactly when the deleted message was open; otherwise nothing changes |
| Record.Concat | src/app/record/page.tsx:106 | a blob of no chunks is empty |
| Record.ConcatAppend | src/app/record/page.tsx:99-106 | appending a chunk appends its bytes to the blob |
| Record.EmptyChunksAddNothing | src/app/record/page.tsx:100-102 | skipping empty chunks does not change the recorded blob |
| Record.NextTime | src/app/record/page.tsx:117-123 | the counter never exceeds 10, becomes 10 exactly when the previous value was 9 or more, and otherwise grows |
| Record.TimeFromZero | src/app/record/page.tsx:113-123 | starting from 0, after n ticks the counter reads min(n, 10) |
| Record.FindFilter | src/app/record/page.tsx:203 | `find` returns nothing exactly when no entry has the value, else the first entry that has it |
| Record.FilterStyle | src/app/record/page.tsx:202-205 | an unknown filter value gives "filter: none"; an offered value gives the css of its table entry |
| Record.FilterValuesDistinct | src/app/record/page.tsx:32-41 | the eight offered filters have distinct values |
| Record.OfferedFilterStyle | src/app/record/page.tsx:202-205 | every offered filter is rendered with its own css |
| Record.EmojiAfterClick | src/app/record/page.tsx:315 | clicking the selected emoji clears it; clicking another selects it |
| Record.EmojiClickTwice | src/app/record/page.tsx:315 | clicking the same emoji twice leaves that emoji if it was the choice before and no emoji otherwise, so it restores the previous choice from no emoji or from that emoji |
| Record.RecordScreen.constructor | src/app/record/page.tsx:14-23 | not recording, no blob, time 0, no contact, filter "none", no emoji, not loading |
| Record.RecordScreen.StartRecording | src/app/record/page.tsx:93-125 | without a camera stream nothing changes; otherwise a new recorder with no chunks, a running timer, recording at time 0 |
| Record.RecordScreen.DataAvailable | src/app/record/page.tsx:99-103 | only non-empty chunks are kept; the blob-to-be grows by exactly the chunk's bytes |
| Record.RecordScreen.RecorderStopped | src/app/record/page.tsx:105-108 | the recorded blob is the collected chunks in order |
| Record.RecordScreen.StopIfRecording | src/app/record/page.tsx:127-135 | acts only with a recorder and a true `isRecording`, then stops recorder, timer and recording; otherwise nothing changes |
| Record.RecordScreen.PressRecordButton | src/app/record/page.tsx:333-335 | with a recorded video the button is absent, and while recording at 10 or more it is disabled: nothing changes; otherwise it stops a running recording (reading the current state) or starts one exactly as `StartRecording` does |
| Record.RecordScreen.TimerFired | src/app/record/page.tsx:116-124 | intended limit: the counter advances by one step, and the firing that ends the tenth second stops the recording |
| Record.RecordScreen.TimerFiredAsWritten | src/app/record/page.tsx:116-124 | as written: the counter advances, and recording and timer keep running |
| Record.RecordScreen.RetakeVideo | src/app/record/page.tsx:137-142 | drops the blob and resets time, emoji and filter; keeps the chosen contact |
| Record.RecordScreen.ClickEmoji | src/app/record/page.tsx:315 | the emoji becomes the toggled choice and stays one of the twelve or none |
| Record.RecordScreen.ClickFilter | src/app/record/page.tsx:288 | the selected filter becomes the clicked entry's value |
| Record.RecordScreen.SelectContact | src/app/record/page.tsx:357 | the chosen recipient becomes the drop-down's value |
| Record.RecordScreen.SendVideo | src/app/record/page.tsx:144-200 | no blob or no contact: nothing is sent and loading is untouched; otherwise the blob is uploaded exactly when a user is signed in; an unviewed row for the chosen contact with the public URL is inserted only after a successful upload; loading ends on every started path |
| Record.RecordFor | src/app/record/page.tsx:113-134 | intended: after n seconds the counter reads min(n, 10) and the recording has stopped exactly from the tenth second |
| Record.RecordForAsWritten | src/app/record/page.tsx:116-128 | as written: the counter reads min(n, 10) but the recording never stops by itself, and a press of the record button afterwards stops it exactly when fewer than ten seconds passed |
| Contacts.ContactUserIds | src/app/contacts/page.tsx:96 | one id per contact, and an id is in the list exactly when that user is a contact |
| Contacts.ExcludeContacts | src/app/contacts/page.tsx:95-97 | a found user stays in the results exactly when no contact points at them |
| Contacts.ExcludeContactsKeepsOrder | src/app/contacts/page.tsx:97 | excluding contacts keeps the server's order |
| Contacts.WithoutUser | src/app/contacts/page.tsx:128 | the added user leaves the results; everyone else stays |
| Contacts.WithoutContact | src/app/contacts/page.tsx:150 | exactly the contacts with a different id remain |
| Contacts.WithoutContactKeepsOrder | src/app/contacts/page.tsx:150 | removing a contact keeps the others in order |
| Contacts.WithoutContactShrinks | src/app/contacts/page.tsx:150 | removing contacts never makes someone a contact |
| Contacts.ContactsPage.constructor | src/app/contacts/page.tsx:22-27 | the loaded contacts and profile, an empty query, no results, not searching |
| Contacts.ContactsPage.EditQuery | src/app/contacts/page.tsx:194 | the query becomes the typed text |
| Contacts.ContactsPage.SearchUsers | src/app/contacts/page.tsx:80-105 | runs exactly for a non-blank query and a loaded profile; a successful answer minus existing contacts becomes the results (null gives none); failures keep them; no result is ever a contact |
| Contacts.ContactsPage.AddContact | src/app/contacts/page.tsx:107-135 | needs a loaded profile; the insert names the current user, the chosen user and their username; on success the new row goes first and the user leaves the results; on failure nothing changes |
| Contacts.ContactsPage.RemoveContact | src/app/contacts/page.tsx:137-156 | only a confirmed and successful delete removes the contact; results stay free of contacts |
| Profile.WantsRename | src/app/profile/page.tsx:93 | a rename is attempted exactly for a loaded user and a draft that differs from the name and is not whitespace alone |
| Profile.StoredNameIsTrimmed | src/app/profile/page.tsx:93-117 | a name that passes the guard is stored non-blank, without whitespace at either end, and already trimmed |
| Profile.ProfilePage.constructor | src/app/profile/page.tsx:21-26 | no user, zero counts, loading, not updating, empty draft, editor closed |
| Profile.ProfilePage.LoadProfile | src/app/profile/page.tsx:34-57 | signed out: redirect; a found profile becomes the user and seeds the draft; loading ends on every path |
| Profile.ProfilePage.LoadStats | src/app/profile/page.tsx:59-90 | for a signed-in user with all three counts answered, the stats are the counts with nulls as 0; otherwise unchanged |
| Profile.ProfilePage.StartEdit | src/app/profile/page.tsx:249 | opens the username editor |
| Profile.ProfilePage.EditDraft | src/app/profile/page.tsx:222 | the draft becomes the typed text |
| Profile.ProfilePage.CancelEdit | src/app/profile/page.tsx:236-238 | closes the editor and resets the draft to the current name |
| Profile.ProfilePage.UpdateUsername | src/app/profile/page.tsx:92-134 | no user, a blank draft or an unchanged name: the editor closes and the draft resets; a name another user has is refused; otherwise the trimmed draft is written, and only on success does the local user take it; updating ends on every started path |
| Dashboard.DashboardPage.constructor | src/app/dashboard/page.tsx:15-16 | no user, loading |
| Dashboard.DashboardPage.CheckUser | src/app/dashboard/page.tsx:23-75 | signed out: login; a profile is created exactly when the lookup answered with error code PGRST116 (line 39), from the auth user, and then shown, or goes to login if the insert fails; another found row is shown; anything else goes to login; loading ends |
| Login.GuidanceLacksMarker | src/app/auth/login/page.tsx:28 | the guidance text does not itself contain "Email not confirmed" |
| Login.GuidanceOnlyForUnconfirmed | src/app/auth/login/page.tsx:26-31 | the guidance appears exactly for unconfirmed-email errors (or the guidance text itself), and mapping twice changes nothing |
| Login.LoginPage.constructor | src/app/auth/login/page.tsx:11-12 | not loading, no error |
| Login.LoginPage.HandleLogin | src/app/auth/login/page.tsx:15-71 | goes to the dashboard exactly after a sign-in with a user and no error; sign-in errors are mapped, exceptions are generic; a profile is created from the auth user exactly when the lookup answered with error code PGRST116 (line 40), and a failed insert shows the setup message and stays; loading ends |

## Findings

| source | as written | input that shows it | evidently intended | confidence | as-written member | corrected member |
|---|---|---|---|---|---|---|
| src/app/record/page.tsx:116-128 | the interval callback calls the `stopRecording` of the render that started recording, and that closure reads `isRecording` as false, so the 10-second stop never passes its guard | press record and wait ten seconds without pressing stop: the recording keeps going and the now disabled button cannot stop it | the recorder and the timer stop when the counter reaches 10 | high, not executed | Record.RecordForAsWritten | Record.RecordFor |

The counter stops at 10 and the recorder and the timer keep running. From then on the record
button is disabled, because it is disabled while recording once the counter reads 10
(src/app/record/page.tsx:335). So the recording cannot be stopped from the page at all.
`Record.RecordScreen.TimerFired` is the intended firing, and
`Record.RecordScreen.TimerFiredAsWritten` is the firing as the page wires it.

## Left out

- Backend calls: Supabase queries, inserts, updates, deletes and the storage upload are not
  modelled. Their outcomes are method parameters. The server-side parts are taken as given:
  `eq`/`neq` filters, `ilike` matching, `order` by creation time, `limit(10)`, `single()` and
  the public URL.
- Browser APIs: `getUserMedia` is the constructor's `hasStream`. MediaRecorder and `setInterval`
  are event methods the browser calls. Stopping the camera tracks on unmount and the upload's
  file name are not modelled.
- Clock: every `new Date()` is an integer parameter. Date parsing and ISO strings are not
  modelled. `OpenMessage` uses one time for the local `viewed_at`, while the page reads the clock
  twice. The 24-hour expiry computed with `setHours` is an input of `SendVideo`.
- Floating point: `Math.floor` over milliseconds is modelled on integers. This is exact for any
  realistic difference of timestamps. The progress bar's width is not modelled.
- Rendering: `FormatTimeAgo` and `ExpiryTime` return the bucket and count, not the text
  ("5m ago"). Splitting the filter css for the preview style, alerts and console logging are not
  modelled. The `showFilters`/`showEmojis` toggles only affect markup.
- `confirm`: the dialog's answer is a boolean parameter.
- `downloadVideo` (fetch and save through an anchor), the register page, the landing page, the
  layout, `handleLogout` and the account deletion flow are not part of this model.
- Contact-page loads: `loadContacts` and `loadCurrentUser` on the contacts page are not
  modelled. Their results enter through the `ContactsPage` constructor. This leaves out
  `loadCurrentUser`'s redirect to login when nobody is signed in, and the page's `loading` flag,
  which only switches a spinner.
- Record-page loads: the record page's `loadContacts` is not modelled. The recipient
  drop-down's options are therefore unknown, so `SelectContact` takes any value.
- `Contacts.ContactsPage.AddContact`: the page prepends the row the insert returns. The model
  takes that row to be the row it sent plus the backend's id (`newId`). The invariant that no
  search result is a contact relies on this.
- Button gating: the record button's visibility and disabled state are modelled. Other gating
  is not: the filter and emoji buttons show only before a video is recorded, and Retake and
  Send only after (src/app/record/page.tsx:266, 349). Send is disabled while loading or with no
  contact (379), the rename button while updating (src/app/profile/page.tsx:230), and search
  while searching or with a blank query (src/app/contacts/page.tsx:200). The handlers keep
  their own guards, which are modelled.
- `Record.RecordScreen.StopIfRecording`: takes the `isRecording` its closure sees as a
  parameter. React's per-render closures are not modelled otherwise.
- Concurrency: handlers run to completion one at a time. Overlapping asynchronous handlers and
  React's batching of state updates are not modelled.
- Strings: sequences of Unicode scalar values, not UTF-16 code units. `trim` uses ECMAScript's
  whitespace set. Multi-code-point emoji such as "❤️" are compared as whole strings.
