/**
 * The inbox page: the list of received video messages, with expired ones dropped,
 * a view-once mark set when a message is opened, deletion, and the relative
 * times shown beside each entry ("5m ago", "3h left").
 *
 * Times are integer milliseconds since the epoch; `now` is always an input.
 */
module Messages {
  import opened Wrappers
  import opened Seqs
  import opened Backend

  /** A row of `video_messages`, joined with the sender's username. */
  datatype Message = Message(
    id: string,
    senderId: string,
    recipientId: string,
    videoUrl: string,
    createdAt: int,
    expiresAt: int,
    viewed: bool,
    viewedAt: Option<int>,
    senderName: Option<string>)

  const MsPerMinute: int := 60_000
  const MsPerHour: int := 3_600_000
  const MsPerDay: int := 86_400_000

  // ---------------------------------------------------------------------------
  // Floor division
  // ---------------------------------------------------------------------------

  /** `a / d` is the unique quotient whose remainder lies in `0 .. d - 1`. */
  lemma DivUnique(a: int, d: int, q: int, r: int)
    requires d > 0 && a == q * d + r && 0 <= r < d
    ensures a / d == q
  {
    var k := q - a / d;
    assert k * d == a % d - r by {
      assert a == (a / d) * d + a % d;
      assert k * d == q * d - (a / d) * d;
    }
    if k >= 1 {
      MulMonotone(1, k, d);
    } else if k <= -1 {
      MulMonotone(k, -1, d);
    }
  }

  lemma MulMonotone(x: int, y: int, d: int)
    requires x <= y && d > 0
    ensures x * d <= y * d
  {
    assert y * d - x * d == (y - x) * d;
  }

  /** Flooring twice is flooring once by the product: `floor(floor(a/b)/c) == floor(a/(b*c))`. */
  lemma FloorDivNested(a: int, b: int, c: int)
    requires b > 0 && c > 0
    ensures (a / b) / c == a / (b * c)
  {
    var q, r1 := a / b, a % b;
    var q2, r2 := q / c, q % c;
    assert a == q * b + r1;
    assert q == q2 * c + r2;
    assert q * b == q2 * (b * c) + r2 * b by {
      assert q * b == (q2 * c + r2) * b;
    }
    assert r2 * b <= (c - 1) * b by { MulMonotone(r2, c - 1, b); }
    assert (c - 1) * b == b * c - b;
    assert 0 <= r2 * b;
    DivUnique(a, b * c, q2, r2 * b + r1);
  }

  /** The day count taken from minutes in two steps (by hours, then by days) is `floor(minutes / 1440)`. */
  lemma DaysFromMinutes(minutes: int)
    requires minutes >= 0
    ensures (minutes / 60) / 24 == minutes / 1440
  {
    FloorDivNested(minutes, 60, 24);
  }

  // ---------------------------------------------------------------------------
  // Relative times
  // ---------------------------------------------------------------------------

  /** How long ago something happened, as `formatTimeAgo` words it. */
  datatype Ago = JustNow | MinutesAgo(minutes: int) | HoursAgo(hours: int) | DaysAgo(days: int)

  /**
   * `formatTimeAgo`: whole minutes (floored) since `at`; under 1 minute is
   * "Just now" (also for times in the future), under 60 minutes counts minutes,
   * under 24 hours counts hours, and anything older counts days.
   */
  function FormatTimeAgo(at: int, now: int): (r: Ago)
    ensures r.JustNow? <==> now - at < MsPerMinute
    ensures r.MinutesAgo? <==> MsPerMinute <= now - at < MsPerHour
    ensures r.HoursAgo? <==> MsPerHour <= now - at < MsPerDay
    ensures r.DaysAgo? <==> MsPerDay <= now - at
    ensures r.MinutesAgo? ==> r.minutes * MsPerMinute <= now - at < (r.minutes + 1) * MsPerMinute
    ensures r.HoursAgo? ==> r.hours * MsPerHour <= now - at < (r.hours + 1) * MsPerHour
    ensures r.DaysAgo? ==> r.days * MsPerDay <= now - at < (r.days + 1) * MsPerDay
  {
    var d := now - at;
    var minutes := d / MsPerMinute;
    FloorDivNested(d, MsPerMinute, 60);
    FloorDivNested(d, MsPerHour, 24);
    if minutes < 1 then JustNow
    else if minutes < 60 then MinutesAgo(minutes)
    else
      var hours := minutes / 60;
      if hours < 24 then HoursAgo(hours)
      else DaysAgo(hours / 24)
  }

  /** Time left before expiry, as `getExpiryTime` words it. */
  datatype Remaining = MinutesLeft(minutes: int) | HoursLeft(hours: int) | DaysLeft(days: int)

  /**
   * `getExpiryTime`: whole minutes (floored) until `expiresAt`; anything under
   * 60 minutes, including an expiry already past (a negative count), is given
   * in minutes, under 24 hours in hours, and the rest in days.
   */
  function ExpiryTime(expiresAt: int, now: int): (r: Remaining)
    ensures r.MinutesLeft? <==> expiresAt - now < MsPerHour
    ensures r.HoursLeft? <==> MsPerHour <= expiresAt - now < MsPerDay
    ensures r.DaysLeft? <==> MsPerDay <= expiresAt - now
    ensures r.MinutesLeft? ==> r.minutes * MsPerMinute <= expiresAt - now < (r.minutes + 1) * MsPerMinute
    ensures r.MinutesLeft? && expiresAt < now ==> r.minutes < 0
    ensures r.HoursLeft? ==> r.hours * MsPerHour <= expiresAt - now < (r.hours + 1) * MsPerHour
    ensures r.DaysLeft? ==> r.days * MsPerDay <= expiresAt - now < (r.days + 1) * MsPerDay
  {
    var d := expiresAt - now;
    var minutes := d / MsPerMinute;
    FloorDivNested(d, MsPerMinute, 60);
    FloorDivNested(d, MsPerHour, 24);
    if minutes < 60 then MinutesLeft(minutes)
    else
      var hours := minutes / 60;
      if hours < 24 then HoursLeft(hours)
      else DaysLeft(hours / 24)
  }

  // ---------------------------------------------------------------------------
  // List updates
  // ---------------------------------------------------------------------------

  /** The messages still alive at `now`: those whose expiry is strictly later. */
  function Unexpired(rows: seq<Message>, now: int): (r: seq<Message>)
    ensures |r| <= |rows|
    ensures forall m :: m in r <==> m in rows && m.expiresAt > now
  {
    Filter(rows, (m: Message) => m.expiresAt > now)
  }

  /** Dropping expired messages keeps the server's order: it acts on each part of the list separately. */
  lemma UnexpiredKeepsOrder(a: seq<Message>, b: seq<Message>, now: int)
    ensures Unexpired(a + b, now) == Unexpired(a, now) + Unexpired(b, now)
  {
    FilterConcat(a, b, (m: Message) => m.expiresAt > now);
  }

  /** A message with its view-once mark set at time `at`: the same message in every other field. */
  function Viewed(m: Message, at: int): (r: Message)
    ensures r.viewed && r.viewedAt == Some(at)
    ensures r.id == m.id && r.expiresAt == m.expiresAt && r.videoUrl == m.videoUrl
    ensures r.(viewed := m.viewed, viewedAt := m.viewedAt) == m
  {
    m.(viewed := true, viewedAt := Some(at))
  }

  /** The local update after a successful "mark as viewed": entries with `id` are marked, the rest are untouched. */
  function MarkViewed(rows: seq<Message>, id: string, at: int): (r: seq<Message>)
    ensures |r| == |rows|
    ensures forall i :: 0 <= i < |rows| && rows[i].id != id ==> r[i] == rows[i]
    ensures forall i :: 0 <= i < |rows| && rows[i].id == id ==>
              r[i].viewed && r[i].viewedAt == Some(at)
              && r[i].(viewed := rows[i].viewed, viewedAt := rows[i].viewedAt) == rows[i]
  {
    if rows == [] then []
    else [if rows[0].id == id then Viewed(rows[0], at) else rows[0]] + MarkViewed(rows[1..], id, at)
  }

  /** Marking a message viewed never changes which messages are expired. */
  lemma {:induction false} MarkViewedKeepsExpiry(rows: seq<Message>, id: string, at: int, now: int)
    ensures Unexpired(MarkViewed(rows, id, at), now) == MarkViewed(Unexpired(rows, now), id, at)
  {
    if rows != [] {
      var keep := (m: Message) => m.expiresAt > now;
      var head := if rows[0].id == id then Viewed(rows[0], at) else rows[0];
      assert MarkViewed(rows, id, at) == [head] + MarkViewed(rows[1..], id, at);
      assert MarkViewed(rows, id, at)[1..] == MarkViewed(rows[1..], id, at);
      MarkViewedKeepsExpiry(rows[1..], id, at, now);
      if keep(rows[0]) {
        assert Unexpired(rows, now) == [rows[0]] + Unexpired(rows[1..], now);
      } else {
        assert Unexpired(rows, now) == Unexpired(rows[1..], now);
      }
    }
  }

  /** The list after a successful delete: every entry with `id` is gone. */
  function RemoveById(rows: seq<Message>, id: string): (r: seq<Message>)
    ensures |r| <= |rows|
    ensures forall m :: m in r <==> m in rows && m.id != id
  {
    Filter(rows, (m: Message) => m.id != id)
  }

  /** Deleting keeps the other messages in their order and with their multiplicity. */
  lemma RemoveByIdKeepsOthers(a: seq<Message>, b: seq<Message>, id: string, m: Message)
    requires m.id != id
    ensures RemoveById(a + b, id) == RemoveById(a, id) + RemoveById(b, id)
    ensures multiset(RemoveById(a, id))[m] == multiset(a)[m]
  {
    FilterConcat(a, b, (m: Message) => m.id != id);
    FilterCount(a, (m: Message) => m.id != id, m);
  }

  /** Deleting and expiring are independent: either order leaves the same list. */
  lemma RemoveCommutesWithExpiry(rows: seq<Message>, id: string, now: int)
    ensures RemoveById(Unexpired(rows, now), id) == Unexpired(RemoveById(rows, id), now)
  {
    FilterCommutes(rows, (m: Message) => m.expiresAt > now, (m: Message) => m.id != id);
  }

  // ---------------------------------------------------------------------------
  // The page's state
  // ---------------------------------------------------------------------------

  /**
   * The mounted `<video>` element that `videoRef` points at: a browser object, which starts paused
   * at position 0, and which the page pauses and rewinds.
   */
  class VideoElement {
    var paused: bool
    var currentTime: int

    constructor ()
      ensures paused && currentTime == 0
    {
      paused, currentTime := true, 0;
    }
  }

  class Inbox {
    var messages: seq<Message>
    var loading: bool
    var selected: Option<Message>
    var isPlaying: bool
    /** `videoRef.current`: the player element, when it is mounted. */
    var video: VideoElement?
    /** The `now` of the last successful load. */
    ghost var loadedAt: int

    /** Every listed message was still alive at the last load. */
    ghost predicate Valid()
      reads this
    {
      forall i :: 0 <= i < |messages| ==> messages[i].expiresAt > loadedAt
    }

    constructor (video: VideoElement?)
      ensures Valid()
      ensures messages == [] && loading && selected == None && !isPlaying && this.video == video
    {
      messages, loading, selected, isPlaying := [], true, None, false;
      this.video := video;
    }

    /**
     * `loadMessages`: with nobody signed in, go to the login page; otherwise,
     * unless the query fails, show the received messages that have not expired,
     * in the order the server sent them (a null answer shows nothing).
     * `loading` ends on every path.
     */
    method LoadMessages(session: Session, reply: Reply<seq<Message>>, now: int) returns (toLogin: bool)
      requires Valid()
      modifies this
      ensures Valid() && !loading
      ensures toLogin <==> session.SignedOut?
      ensures selected == old(selected) && isPlaying == old(isPlaying) && video == old(video)
      ensures messages == if session.SignedIn? && reply.Answer? && reply.error.None?
                          then (if reply.data.Some? then Unexpired(reply.data.value, now) else [])
                          else old(messages)
    {
      toLogin := false;
      if session.SignedOut? {
        toLogin := true;
      } else if session.SignedIn? && reply.Answer? && reply.error.None? {
        messages := if reply.data.Some? then Unexpired(reply.data.value, now) else [];
        loadedAt := now;
        assert forall i :: 0 <= i < |messages| ==> messages[i] in messages;
      }
      loading := false;
    }

    /**
     * `openMessage`: select the message; if it was not viewed yet, ask the
     * backend to mark it, and on success mark it locally at time `at`.
     * `updateSent` tells whether the backend was asked.
     */
    method OpenMessage(m: Message, update: Ack, at: int) returns (updateSent: bool)
      requires Valid()
      modifies this
      ensures Valid()
      ensures updateSent <==> !m.viewed
      ensures selected == Some(m)
      ensures messages == if !m.viewed && update.AckOk? then MarkViewed(old(messages), m.id, at) else old(messages)
      ensures loading == old(loading) && isPlaying == old(isPlaying) && video == old(video)
    {
      selected := Some(m);
      updateSent := !m.viewed;
      if !m.viewed && update.AckOk? {
        messages := MarkViewed(messages, m.id, at);
      }
    }

    /** The player's `play` event (`playing`), or its `pause` or `ended` event (not `playing`). */
    method PlaybackChanged(playing: bool)
      requires Valid()
      modifies this`isPlaying
      ensures Valid()
      ensures isPlaying == playing
    {
      isPlaying := playing;
    }

    /** `closeMessage`: deselect, stop playing, and pause and rewind the player if it is mounted. */
    method CloseMessage()
      requires Valid()
      modifies this, video
      ensures Valid()
      ensures selected == None && !isPlaying
      ensures messages == old(messages) && loading == old(loading) && video == old(video)
      ensures video != null ==> video.paused && video.currentTime == 0
    {
      selected := None;
      isPlaying := false;
      if video != null {
        video.paused := true;
        video.currentTime := 0;
      }
    }

    /**
     * `deleteMessage`: only after the user confirms and the backend deletes the
     * row does the message leave the list; if it was the open one, the player
     * is closed as well.
     */
    method DeleteMessage(id: string, confirmed: bool, delete: Ack)
      requires Valid()
      modifies this, video
      ensures Valid()
      ensures video == old(video) && loading == old(loading)
      ensures !(confirmed && delete.AckOk?) ==>
                messages == old(messages) && selected == old(selected) && isPlaying == old(isPlaying)
                && (video != null ==> unchanged(video))
      ensures confirmed && delete.AckOk? ==> messages == RemoveById(old(messages), id)
      ensures confirmed && delete.AckOk? && old(selected).Some? && old(selected).value.id == id ==>
                selected == None && !isPlaying && (video != null ==> video.paused && video.currentTime == 0)
      ensures confirmed && delete.AckOk? && !(old(selected).Some? && old(selected).value.id == id) ==>
                selected == old(selected) && isPlaying == old(isPlaying) && (video != null ==> unchanged(video))
    {
      if !confirmed {
        return;
      }
      if delete.AckOk? {
        var before := messages;
        messages := RemoveById(messages, id);
        assert forall i :: 0 <= i < |messages| ==> messages[i] in before;
        if selected.Some? && selected.value.id == id {
          CloseMessage();
        }
      }
    }
  }
}
