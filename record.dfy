/**
 * The recording screen: a camera preview, a recorder that collects non-empty
 * data chunks into one video blob, a per-second timer capped at 10 seconds, an
 * optional visual filter and emoji overlay, and sending the blob to a contact.
 *
 * The camera stream, the recorder and the interval timer are browser objects;
 * their events are methods of `RecordScreen` that the browser calls.
 */
module Record {
  import opened Wrappers
  import opened Seqs
  import opened Backend

  newtype byte = x: int | 0 <= x < 256

  /** One piece of recorded media, as handed over by a `dataavailable` event. */
  type Chunk = seq<byte>

  /** The bytes of a recorded video. */
  type Blob = seq<byte>

  /** `new Blob(chunks)`: the chunks' bytes one after another. */
  function Concat(chunks: seq<Chunk>): (r: Blob)
    ensures chunks == [] ==> r == []
  {
    if chunks == [] then [] else chunks[0] + Concat(chunks[1..])
  }

  /** Appending a chunk appends its bytes to the blob. */
  lemma {:induction false} ConcatAppend(chunks: seq<Chunk>, c: Chunk)
    ensures Concat(chunks + [c]) == Concat(chunks) + c
  {
    if chunks != [] {
      assert (chunks + [c])[1..] == chunks[1..] + [c];
      ConcatAppend(chunks[1..], c);
    }
  }

  /** Leaving out the empty chunks, as the recorder does, does not change the blob. */
  lemma {:induction false} EmptyChunksAddNothing(chunks: seq<Chunk>)
    ensures Concat(Filter(chunks, (c: Chunk) => |c| > 0)) == Concat(chunks)
  {
    if chunks != [] {
      EmptyChunksAddNothing(chunks[1..]);
    }
  }

  // ---------------------------------------------------------------------------
  // The 10-second timer
  // ---------------------------------------------------------------------------

  const MaxSeconds: int := 10

  /** The interval's state update: one more second, or 10 once the previous value is 9 or more. */
  function NextTime(prev: int): (r: int)
    ensures r <= MaxSeconds
    ensures r == MaxSeconds <==> prev >= MaxSeconds - 1
    ensures prev < MaxSeconds ==> r > prev
    ensures prev >= 0 ==> r >= 1
  {
    if prev >= 9 then 10 else prev + 1
  }

  /** The counter after `ticks` updates, starting from the 0 that `startRecording` sets. */
  function TimeAfter(ticks: nat): int {
    if ticks == 0 then 0 else NextTime(TimeAfter(ticks - 1))
  }

  /** From 0, the counter reads the number of elapsed seconds until it sticks at 10. */
  lemma {:induction false} TimeFromZero(ticks: nat)
    ensures TimeAfter(ticks) == if ticks < MaxSeconds then ticks else MaxSeconds
    ensures 0 <= TimeAfter(ticks) <= MaxSeconds
  {
    if ticks > 0 {
      TimeFromZero(ticks - 1);
    }
  }

  // ---------------------------------------------------------------------------
  // Filters and emojis
  // ---------------------------------------------------------------------------

  datatype FilterOption = FilterOption(name: string, value: string, css: string)

  const NoFilterCss: string := "filter: none"

  /** The eight filters the screen offers. */
  const Filters: seq<FilterOption> := [
    FilterOption("None", "none", "filter: none"),
    FilterOption("Sepia", "sepia", "filter: sepia(100%)"),
    FilterOption("Grayscale", "grayscale", "filter: grayscale(100%)"),
    FilterOption("Blur", "blur", "filter: blur(2px)"),
    FilterOption("Brightness", "brightness", "filter: brightness(150%)"),
    FilterOption("Contrast", "contrast", "filter: contrast(150%)"),
    FilterOption("Hue Rotate", "hue-rotate", "filter: hue-rotate(90deg)"),
    FilterOption("Saturate", "saturate", "filter: saturate(200%)")
  ]

  /** The twelve emojis the overlay offers. */
  const Emojis: seq<string> := ["😀", "😂", "🥰", "😎", "🤔", "😮", "🎉", "❤️", "👍", "🔥", "⭐", "🌈"]

  /** `Array.prototype.find` on a filter table: the first entry with the given value. */
  function FindFilter(table: seq<FilterOption>, value: string): (r: Option<FilterOption>)
    ensures r.None? <==> forall i :: 0 <= i < |table| ==> table[i].value != value
    ensures r.Some? ==> exists i :: 0 <= i < |table| && table[i] == r.value && table[i].value == value
                                    && forall j :: 0 <= j < i ==> table[j].value != value
  {
    if table == [] then None
    else if table[0].value == value then Some(table[0])
    else
      var r := FindFilter(table[1..], value);
      assert r.Some? ==> exists i :: 0 <= i < |table[1..]| && table[1..][i] == r.value && table[1..][i].value == value
                                    && forall j :: 0 <= j < i ==> table[1..][j].value != value;
      assert forall i :: 0 <= i < |table[1..]| ==> table[1..][i] == table[i + 1];
      r
  }

  /** `getFilterStyle`: the css of the selected filter, or "filter: none" when no entry has that value. */
  function FilterStyle(selected: string): (r: string)
    ensures (forall i :: 0 <= i < |Filters| ==> Filters[i].value != selected) ==> r == NoFilterCss
    ensures IsFilterValue(selected) ==> exists i :: 0 <= i < |Filters| && Filters[i].value == selected && r == Filters[i].css
  {
    match FindFilter(Filters, selected)
    case Some(f) => f.css
    case None => NoFilterCss
  }

  /** Whether `v` is the value of one of the offered filters. */
  predicate IsFilterValue(v: string) {
    exists i :: 0 <= i < |Filters| && Filters[i].value == v
  }

  /** No two offered filters share a value. */
  lemma FilterValuesDistinct()
    ensures forall i, j :: 0 <= i < j < |Filters| ==> Filters[i].value != Filters[j].value
  {
    forall i, j | 0 <= i < j < |Filters| ensures Filters[i].value != Filters[j].value {
      assert Filters[i].value[0] != Filters[j].value[0] || Filters[i].value[1] != Filters[j].value[1];
    }
  }

  /** Every offered filter is shown with its own css. */
  lemma OfferedFilterStyle(i: nat)
    requires i < |Filters|
    ensures FilterStyle(Filters[i].value) == Filters[i].css
  {
    FilterValuesDistinct();
  }

  /** Clicking an emoji: the selected one is cleared, any other one becomes selected. */
  function EmojiAfterClick(current: string, clicked: string): (r: string)
    ensures r == [] || r == clicked
    ensures clicked != [] ==> (r == [] <==> current == clicked)
  {
    if current == clicked then [] else clicked
  }

  /**
   * Clicking the same emoji twice leaves that emoji when it was the choice before, and no emoji
   * otherwise; so it undoes the first click from no emoji or from that emoji.
   */
  lemma EmojiClickTwice(current: string, clicked: string)
    ensures EmojiAfterClick(EmojiAfterClick(current, clicked), clicked) == if current == clicked then clicked else []
    ensures clicked != [] && (current == [] || current == clicked) ==>
              EmojiAfterClick(EmojiAfterClick(current, clicked), clicked) == current
  {
  }

  // ---------------------------------------------------------------------------
  // The screen's state
  // ---------------------------------------------------------------------------

  /** The `video_messages` row that sending creates. */
  datatype VideoRow = VideoRow(senderId: string, recipientId: string, videoUrl: string, expiresAt: int, viewed: bool)

  /** How `sendVideo` ended. */
  datatype SendOutcome = MissingInput | NoUser | Failed | Sent(row: VideoRow)

  class RecordScreen {
    /** `streamRef.current` is set: the camera could be opened. */
    var hasStream: bool
    /** `mediaRecorderRef.current` is set: some recording was started. */
    var hasRecorder: bool
    /** The latest recorder is capturing. */
    var recorderActive: bool
    /** The chunks the latest recorder has handed over. */
    var chunks: seq<Chunk>
    /** The interval timer of the latest recording has not been cleared. */
    var timerRunning: bool

    var isRecording: bool
    var recordedBlob: Option<Blob>
    var recordingTime: int
    var selectedContact: string
    var selectedFilter: string
    var selectedEmoji: string
    var loading: bool

    ghost predicate Valid()
      reads this
    {
      && 0 <= recordingTime <= MaxSeconds
      && (selectedEmoji == [] || selectedEmoji in Emojis)
      && IsFilterValue(selectedFilter)
      && forall i :: 0 <= i < |chunks| ==> |chunks[i]| > 0
    }

    /** The screen as first rendered; `hasStream` is the outcome of asking for the camera. */
    constructor (hasStream: bool)
      ensures Valid()
      ensures this.hasStream == hasStream && !hasRecorder && !recorderActive && chunks == [] && !timerRunning
      ensures !isRecording && recordedBlob == None && recordingTime == 0
      ensures selectedContact == [] && selectedFilter == "none" && selectedEmoji == [] && !loading
    {
      this.hasStream := hasStream;
      hasRecorder, recorderActive, chunks, timerRunning := false, false, [], false;
      isRecording, recordedBlob, recordingTime := false, None, 0;
      selectedContact, selectedFilter, selectedEmoji, loading := [], "none", [], false;
      assert Filters[0].value == "none";
    }

    /** `startRecording`: without a camera stream nothing happens; otherwise a fresh recorder and timer start from 0. */
    method StartRecording()
      requires Valid()
      modifies this
      ensures Valid()
      ensures !old(hasStream) ==> unchanged(this)
      ensures old(hasStream) ==> hasRecorder && recorderActive && chunks == [] && timerRunning
                                 && isRecording && recordingTime == 0
      ensures hasStream == old(hasStream) && recordedBlob == old(recordedBlob)
      ensures selectedContact == old(selectedContact) && selectedFilter == old(selectedFilter)
      ensures selectedEmoji == old(selectedEmoji) && loading == old(loading)
    {
      if !hasStream {
        return;
      }
      hasRecorder, recorderActive, chunks := true, true, [];
      isRecording, recordingTime := true, 0;
      timerRunning := true;
    }

    /** The recorder's `dataavailable` event: a chunk is kept only when it holds some data. */
    method DataAvailable(data: Chunk)
      requires Valid()
      modifies this
      ensures Valid()
      ensures chunks == if |data| > 0 then old(chunks) + [data] else old(chunks)
      ensures Concat(chunks) == old(Concat(chunks)) + data
      ensures isRecording == old(isRecording) && recordingTime == old(recordingTime)
      ensures recordedBlob == old(recordedBlob) && recorderActive == old(recorderActive)
      ensures hasStream == old(hasStream) && hasRecorder == old(hasRecorder) && timerRunning == old(timerRunning)
      ensures selectedContact == old(selectedContact) && selectedFilter == old(selectedFilter)
      ensures selectedEmoji == old(selectedEmoji) && loading == old(loading)
    {
      ConcatAppend(chunks, data);
      if |data| > 0 {
        chunks := chunks + [data];
      } else {
        assert old(Concat(chunks)) + data == old(Concat(chunks));
      }
    }

    /** The recorder's `stop` event: the blob is the collected chunks in order. */
    method RecorderStopped()
      requires Valid()
      modifies this
      ensures Valid()
      ensures recordedBlob == Some(Concat(chunks))
      ensures chunks == old(chunks) && isRecording == old(isRecording) && recordingTime == old(recordingTime)
      ensures recorderActive == old(recorderActive) && hasRecorder == old(hasRecorder)
      ensures hasStream == old(hasStream) && timerRunning == old(timerRunning)
      ensures selectedContact == old(selectedContact) && selectedFilter == old(selectedFilter)
      ensures selectedEmoji == old(selectedEmoji) && loading == old(loading)
    {
      recordedBlob := Some(Concat(chunks));
    }

    /**
     * The body of `stopRecording`, given the value of `isRecording` its closure
     * sees: it acts only when a recorder exists and that value is true, and then
     * stops the recorder and the timer.
     */
    method StopIfRecording(seenRecording: bool)
      requires Valid()
      modifies this
      ensures Valid()
      ensures !(old(hasRecorder) && seenRecording) ==> unchanged(this)
      ensures old(hasRecorder) && seenRecording ==> !isRecording && !recorderActive && !timerRunning
      ensures hasRecorder == old(hasRecorder) && hasStream == old(hasStream) && chunks == old(chunks)
      ensures recordedBlob == old(recordedBlob) && recordingTime == old(recordingTime)
      ensures selectedContact == old(selectedContact) && selectedFilter == old(selectedFilter)
      ensures selectedEmoji == old(selectedEmoji) && loading == old(loading)
    {
      if hasRecorder && seenRecording {
        recorderActive := false;
        isRecording := false;
        timerRunning := false;
      }
    }

    /**
     * The record button, rendered only while there is no recorded video and
     * disabled while recording once the counter reads 10. A press otherwise
     * runs `stopRecording`, reading the current `isRecording`, while recording,
     * and `startRecording` while not.
     */
    method PressRecordButton()
      requires Valid()
      modifies this
      ensures Valid()
      ensures hasStream == old(hasStream) && recordedBlob == old(recordedBlob) && loading == old(loading)
      ensures selectedContact == old(selectedContact) && selectedFilter == old(selectedFilter)
      ensures selectedEmoji == old(selectedEmoji)
      ensures old(recordedBlob).Some? || (old(isRecording) && old(recordingTime) >= MaxSeconds) ==> unchanged(this)
      ensures old(recordedBlob).None? && old(isRecording) && old(recordingTime) < MaxSeconds ==>
                if old(hasRecorder) then
                  !isRecording && !recorderActive && !timerRunning && hasRecorder
                  && chunks == old(chunks) && recordingTime == old(recordingTime)
                else unchanged(this)
      ensures old(recordedBlob).None? && !old(isRecording) ==>
                if old(hasStream) then
                  hasRecorder && recorderActive && chunks == [] && timerRunning && isRecording && recordingTime == 0
                else unchanged(this)
    {
      if recordedBlob.Some? || (isRecording && recordingTime >= 10) {
        return;
      }
      if isRecording {
        StopIfRecording(isRecording);
      } else {
        StartRecording();
      }
    }

    /**
     * One firing of the interval timer as the 10-second limit intends it
     * (nothing fires once the timer is cleared): the counter advances by
     * `NextTime`, and when the previous value was 9 or more the recording is
     * stopped as `stopRecording` reading the current state would stop it.
     */
    method TimerFired()
      requires Valid()
      modifies this
      ensures Valid()
      ensures !old(timerRunning) ==> unchanged(this)
      ensures old(timerRunning) ==> recordingTime == NextTime(old(recordingTime))
      ensures old(timerRunning) && old(recordingTime) >= MaxSeconds - 1 && old(hasRecorder) && old(isRecording) ==>
                !isRecording && !recorderActive && !timerRunning
      ensures !(old(timerRunning) && old(recordingTime) >= MaxSeconds - 1 && old(hasRecorder) && old(isRecording)) ==>
                isRecording == old(isRecording) && recorderActive == old(recorderActive) && timerRunning == old(timerRunning)
      ensures hasRecorder == old(hasRecorder) && hasStream == old(hasStream) && chunks == old(chunks)
      ensures recordedBlob == old(recordedBlob)
      ensures selectedContact == old(selectedContact) && selectedFilter == old(selectedFilter)
      ensures selectedEmoji == old(selectedEmoji) && loading == old(loading)
    {
      if !timerRunning {
        return;
      }
      var prev := recordingTime;
      recordingTime := NextTime(prev);
      if prev >= 9 {
        StopIfRecording(isRecording);
      }
    }

    /**
     * One firing of the interval timer as the page wires it. The callback was
     * created by the `startRecording` of a render in which `isRecording` was
     * false (the start button only exists then), and the `stopRecording` it
     * calls reads that captured value, so its stop guard never passes: the
     * counter advances and nothing else happens.
     */
    method TimerFiredAsWritten()
      requires Valid()
      modifies this
      ensures Valid()
      ensures !old(timerRunning) ==> unchanged(this)
      ensures old(timerRunning) ==> recordingTime == NextTime(old(recordingTime))
      ensures isRecording == old(isRecording) && recorderActive == old(recorderActive) && timerRunning == old(timerRunning)
      ensures hasRecorder == old(hasRecorder) && hasStream == old(hasStream) && chunks == old(chunks)
      ensures recordedBlob == old(recordedBlob)
      ensures selectedContact == old(selectedContact) && selectedFilter == old(selectedFilter)
      ensures selectedEmoji == old(selectedEmoji) && loading == old(loading)
    {
      if !timerRunning {
        return;
      }
      var prev := recordingTime;
      recordingTime := NextTime(prev);
      if prev >= 9 {
        StopIfRecording(false);
      }
    }

    /** `retakeVideo`: drop the blob and reset the time, the emoji and the filter; the chosen contact stays. */
    method RetakeVideo()
      requires Valid()
      modifies this
      ensures Valid()
      ensures recordedBlob == None && recordingTime == 0 && selectedEmoji == [] && selectedFilter == "none"
      ensures selectedContact == old(selectedContact) && isRecording == old(isRecording) && loading == old(loading)
      ensures hasStream == old(hasStream) && hasRecorder == old(hasRecorder) && recorderActive == old(recorderActive)
      ensures chunks == old(chunks) && timerRunning == old(timerRunning)
    {
      recordedBlob := None;
      recordingTime := 0;
      selectedEmoji := [];
      selectedFilter := "none";
      assert Filters[0].value == "none";
    }

    /** Clicking the `i`-th emoji button. */
    method ClickEmoji(i: nat)
      requires Valid() && i < |Emojis|
      modifies this`selectedEmoji
      ensures Valid()
      ensures selectedEmoji == EmojiAfterClick(old(selectedEmoji), Emojis[i])
    {
      selectedEmoji := EmojiAfterClick(selectedEmoji, Emojis[i]);
    }

    /** Clicking the `i`-th filter button. */
    method ClickFilter(i: nat)
      requires Valid() && i < |Filters|
      modifies this`selectedFilter
      ensures Valid()
      ensures selectedFilter == Filters[i].value
    {
      selectedFilter := Filters[i].value;
    }

    /** Choosing an entry of the recipient drop-down (the empty value is "Select a contact"). */
    method SelectContact(contactUserId: string)
      requires Valid()
      modifies this`selectedContact
      ensures Valid()
      ensures selectedContact == contactUserId
    {
      selectedContact := contactUserId;
    }

    /**
     * `sendVideo`: without a blob or a chosen contact nothing is uploaded and
     * `loading` is untouched. Otherwise, for a signed-in user, the blob is
     * uploaded and, if that succeeds, an unviewed message row for the chosen
     * contact is inserted, pointing at the public URL. `loading` ends on every
     * path that started it. `uploaded` is the blob sent to storage, if any.
     */
    method SendVideo(session: Session, upload: Ack, publicUrl: string, expiresAt: int, insert: Ack)
      returns (outcome: SendOutcome, uploaded: Option<Blob>)
      requires Valid()
      modifies this`loading
      ensures Valid()
      ensures old(recordedBlob).None? || selectedContact == [] ==>
                outcome == MissingInput && uploaded == None && loading == old(loading)
      ensures old(recordedBlob).Some? && selectedContact != [] ==> outcome != MissingInput && !loading
      ensures uploaded.Some? <==> recordedBlob.Some? && selectedContact != [] && session.SignedIn?
      ensures uploaded.Some? ==> uploaded == recordedBlob
      ensures outcome == NoUser <==> recordedBlob.Some? && selectedContact != [] && session.SignedOut?
      ensures outcome.Sent? <==> uploaded.Some? && upload.AckOk? && insert.AckOk?
      ensures outcome.Sent? ==> outcome.row == VideoRow(session.user.id, selectedContact, publicUrl, expiresAt, false)
    {
      uploaded := None;
      if recordedBlob.None? || selectedContact == [] {
        outcome := MissingInput;
        return;
      }
      loading := true;
      match session {
        case SignedOut =>
          outcome := NoUser;
        case SessionThrew =>
          outcome := Failed;
        case SignedIn(user) =>
          uploaded := recordedBlob;
          if !upload.AckOk? {
            outcome := Failed;
          } else if !insert.AckOk? {
            outcome := Failed;
          } else {
            outcome := Sent(VideoRow(user.id, selectedContact, publicUrl, expiresAt, false));
          }
      }
      loading := false;
    }
  }

  /**
   * A recording started on a fresh screen with a camera and left alone for
   * `ticks` seconds, with the timer as intended: the counter shows the elapsed
   * seconds up to 10, and the recording is stopped exactly from the tenth
   * second on.
   */
  method RecordFor(ticks: nat) returns (recording: bool, seconds: int)
    ensures seconds == if ticks < MaxSeconds then ticks else MaxSeconds
    ensures recording <==> ticks < MaxSeconds
  {
    var screen := new RecordScreen(true);
    screen.StartRecording();
    var k := 0;
    while k < ticks
      invariant 0 <= k <= ticks
      invariant fresh(screen) && screen.Valid() && screen.hasRecorder
      invariant screen.recordingTime == if k < MaxSeconds then k else MaxSeconds
      invariant screen.isRecording == screen.timerRunning == (k < MaxSeconds)
    {
      screen.TimerFired();
      k := k + 1;
    }
    recording, seconds := screen.isRecording, screen.recordingTime;
  }

  /**
   * The same run with the timer as the page wires it: the counter stops at 10,
   * but the recording and the timer go on however long the user waits, and
   * from then on the record button, being disabled, cannot stop them either.
   */
  method RecordForAsWritten(ticks: nat) returns (recording: bool, seconds: int, stoppedByButton: bool)
    ensures seconds == if ticks < MaxSeconds then ticks else MaxSeconds
    ensures recording
    ensures stoppedByButton <==> ticks < MaxSeconds
  {
    var screen := new RecordScreen(true);
    screen.StartRecording();
    var k := 0;
    while k < ticks
      invariant 0 <= k <= ticks
      invariant fresh(screen) && screen.Valid() && screen.hasRecorder && screen.recordedBlob.None?
      invariant screen.recordingTime == if k < MaxSeconds then k else MaxSeconds
      invariant screen.isRecording && screen.timerRunning
    {
      screen.TimerFiredAsWritten();
      k := k + 1;
    }
    recording, seconds := screen.isRecording, screen.recordingTime;
    screen.PressRecordButton();
    stoppedByButton := !screen.isRecording;
  }
}
