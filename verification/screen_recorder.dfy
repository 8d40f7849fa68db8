/** screen_record/src/screen_recorder.cc, thread by thread: the buttons, the drain loop of
    run, the voice callback and the capture loop.  Each method is one thread; in every gap
    between two of its steps the other threads and the user do whatever they like. */
module ScreenRecording {
  import opened IntTypes
  import opened RecorderMachine
  import opened RecorderFutures

  // ----- calls into the muxer -----

  datatype Call =
    | EncodeAudioFrame(id: nat, len: int)
    | EncodeVideoFrame(id: nat, width: int, height: int, stride: int, pts: int)

  /** The uint64 stamp becomes an int in run, a uint64 parameter, and an int64 pts. */
  function FramePts(timestamp: nat): int {
    var pts := Cast(IntType(32, true), timestamp);
    Cast(IntType(64, true), Cast(IntType(64, false), pts))
  }

  /** The call that encodes an AVData, whatever its shape. */
  predicate Encodes(call: Call, item: Item) {
    && call.id == item.id
    && match item.media
       case Audio(len) => call == EncodeAudioFrame(item.id, len)
       case Video(timestamp, len, width, height) =>
         && call.EncodeVideoFrame? && call.width == width && call.height == height
         && call.pts == FramePts(timestamp)
         && call.stride * height <= len < (call.stride + 1) * height
  }

  /** One call for each AVData, in order. */
  predicate EncodesAll(calls: seq<Call>, items: seq<Item>) {
    |calls| == |items| && forall k :: 0 <= k < |items| ==> Encodes(calls[k], items[k])
  }

  lemma NothingEncodesNothing()
    ensures EncodesAll([], [])
  {
  }

  lemma EncodesOneMore(calls: seq<Call>, items: seq<Item>, call: Call, item: Item)
    requires EncodesAll(calls, items) && Encodes(call, item)
    ensures EncodesAll(calls + [call], items + [item])
  {
  }

  lemma StrideIsExact(len: int, height: int)
    requires len > 0 && height > 0
    ensures len / height * height <= len < (len / height + 1) * height
  {
  }

  /** What run calls for an AVData. */
  lemma CallEncodes(call: Call, item: Item)
    requires ItemShaped(item)
    requires match item.media
             case Audio(len) => call == EncodeAudioFrame(item.id, len)
             case Video(timestamp, len, width, height) =>
               call == EncodeVideoFrame(item.id, width, height, len / height, FramePts(timestamp))
    ensures Encodes(call, item)
  {
    hide FramePts;
    if item.media.Video? {
      StrideIsExact(item.media.len, item.media.height);
    }
  }

  // ----- the stamp that reaches the file -----

  /** Through the int in run a stamp survives exactly when it is below 2^31 ms. */
  lemma PtsKeptExactlyWhenShort(timestamp: nat)
    requires timestamp < CLOCK_END
    ensures FramePts(timestamp) == timestamp <==> timestamp < 0x8000_0000
  {
    hide Pow2;
    Pow2Values();
    var pts := Cast(IntType(32, true), timestamp);
    CastFacts(IntType(32, true), timestamp);
    ThroughUint64(pts);
  }

  lemma ThroughUint64(pts: int)
    requires In(IntType(32, true), pts)
    ensures Cast(IntType(64, true), Cast(IntType(64, false), pts)) == pts
  {
    hide Pow2, Cast;
    Pow2Values();
    var u, t := IntType(64, false), IntType(64, true);
    CastIgnoresLaps(t, Cast(u, pts), Lap(u, pts));
    CastFacts(t, pts);
  }

  /** After 24.8 days the file's time stamps jump back. */
  lemma PtsJumpsBack()
    ensures FramePts(0x7FFF_FFFF) == 0x7FFF_FFFF && FramePts(0x8000_0000) == -0x8000_0000
  {
    hide Cast, Pow2;
    Pow2Values();
    CastFacts(IntType(32, true), 0x7FFF_FFFF);
    CastIs(IntType(32, true), 0x8000_0000, -0x8000_0000, 1);
    ThroughUint64(0x7FFF_FFFF);
    ThroughUint64(-0x8000_0000);
  }

  /** The calls for any reachable recorder carry time stamps in order, as long as they
      are short. */
  lemma FileStampsNeverDecrease(now: nat, actions: seq<Action>, calls: seq<Call>, j: nat, k: nat)
    requires now < CLOCK_END && IsRun(Initial(now), actions)
    requires EncodesAll(calls, End(Initial(now), actions).handled)
    requires j < k < |calls| && calls[j].EncodeVideoFrame? && calls[k].EncodeVideoFrame?
    requires End(Initial(now), actions).handled[k].media.Video? ==>
               End(Initial(now), actions).handled[k].media.timestamp < 0x8000_0000
    ensures calls[j].pts <= calls[k].pts
  {
    hide FramePts, IsRun, End, Initial;
    var h := End(Initial(now), actions).handled;
    assert Encodes(calls[j], h[j]) && Encodes(calls[k], h[k]);
    HandledStampsNeverDecrease(now, actions, j, k);
    PtsKeptExactlyWhenShort(h[j].media.timestamp);
    PtsKeptExactlyWhenShort(h[k].media.timestamp);
  }

  // ----- the pictures sent in one recording -----

  function Stamps(items: seq<Item>): seq<nat> {
    if items == [] then []
    else
      var last := items[|items| - 1];
      Stamps(items[..|items| - 1]) + (if last.media.Video? then [last.media.timestamp] else [])
  }

  function Sent(s: State): seq<nat> {
    if s.base <= |s.pushed| then Stamps(s.pushed[s.base..]) else []
  }

  predicate Sorted(s: seq<nat>) {
    forall j, k :: 0 <= j < k < |s| ==> s[j] <= s[k]
  }

  predicate AtMost(s: seq<nat>, t: int) {
    forall k :: 0 <= k < |s| ==> s[k] <= t
  }

  lemma SentGrows(s: State, item: Item)
    requires s.base <= |s.pushed|
    ensures Stamps((s.pushed + [item])[s.base..]) ==
            Sent(s) + (if item.media.Video? then [item.media.timestamp] else [])
  {
    var items := (s.pushed + [item])[s.base..];
    assert items[..|items| - 1] == s.pushed[s.base..];
  }

  lemma SortedGrows(s: seq<nat>, t: nat)
    requires Sorted(s) && AtMost(s, t)
    ensures Sorted(s + [t]) && AtMost(s + [t], t)
  {
  }

  lemma StampsOfFront(items: seq<Item>, t: int)
    requires items != [] && StampsUpTo(items, 0, t)
    ensures var last := items[|items| - 1].media;
            && (last.Video? ==> last.timestamp <= t)
            && StampsUpTo(items[..|items| - 1], 0, if last.Video? then last.timestamp else t)
  {
  }

  lemma StampsOfRest(pushed: seq<Item>, base: nat, t: int)
    requires base <= |pushed| && StampsUpTo(pushed, base, t)
    ensures StampsUpTo(pushed[base..], 0, t)
  {
  }

  lemma {:induction false} StampsInOrder(items: seq<Item>, t: int)
    requires StampsUpTo(items, 0, t)
    ensures Sorted(Stamps(items)) && AtMost(Stamps(items), t)
  {
    hide StampsUpTo;
    if items != [] {
      var last := items[|items| - 1].media;
      StampsOfFront(items, t);
      StampsInOrder(items[..|items| - 1], if last.Video? then last.timestamp else t);
      if last.Video? {
        SortedGrows(Stamps(items[..|items| - 1]), last.timestamp);
      }
    }
  }

  lemma BoundsAreNatural(s: seq<nat>, t: int)
    requires AtMost(s, t) && s != []
    ensures 0 <= t
  {
    assert s[0] <= t;
  }

  /** No reachable state has sent a picture out of order, or any before the clock was
      read. */
  lemma SentInOrder(s: State)
    requires Inv(s)
    ensures Sorted(Sent(s)) && (s.capture.Starting? ==> Sent(s) == [])
  {
    hide Owned, Sticky, Shaped, StampsUpTo;
    if s.capture.Starting? {
      StampsOfRest(s.pushed, s.base, -1);
      StampsInOrder(s.pushed[s.base..], -1);
      if Sent(s) != [] {
        BoundsAreNatural(Sent(s), -1);
        assert false;
      }
    } else {
      var t :| StampsUpTo(s.pushed, s.base, t);
      StampsOfRest(s.pushed, s.base, t);
      StampsInOrder(s.pushed[s.base..], t);
    }
  }

  // ----- what a gap leaves alone -----

  predicate SameEncoder(s: State, t: State) {
    && t.encoder == s.encoder && t.handled == s.handled && t.base == s.base && t.head == s.head
    && (Aborting(s.status) ==> Aborting(t.status))
  }

  predicate SameCapture(s: State, t: State) {
    && t.capture == s.capture && t.startTime == s.startTime && t.pauseTime == s.pauseTime
    && s.now <= t.now && Sent(t) == Sent(s)
    && (Aborting(s.status) ==> Aborting(t.status))
  }

  predicate Active(c: Capture) {
    !c.NoCapture? && !c.CaptureDone?
  }

  /** What `who` can rely on while others run: its own state, and that a stop stays. */
  predicate Same(who: Thread, s: State, t: State) {
    && (who == ENCODER && !s.encoder.NoEncoder? ==> SameEncoder(s, t))
    && (who == CAPTURE && Active(s.capture) ==> SameCapture(s, t))
    && (who == VOICE ==> t.voice == s.voice)
  }

  lemma OthersKeepEncoder(s: State, a: Action)
    requires Enabled(s, a) && By(a) != ENCODER && !s.encoder.NoEncoder?
    ensures SameEncoder(s, After(s, a))
  {
    hide Timestamp, Moved, Cleared;
  }

  lemma OthersKeepCapture(s: State, a: Action)
    requires Enabled(s, a) && By(a) != CAPTURE && Active(s.capture) && Ordered(s) && Clocked(s)
    ensures SameCapture(s, After(s, a))
  {
    hide Timestamp, Moved, Cleared, Reading, StampsUpTo, Stamps;
    if a == VoicePushes {
      SentGrows(s, s.voice.item);
    }
  }

  lemma OthersKeepSame(who: Thread, s: State, a: Action)
    requires Inv(s) && Enabled(s, a) && By(a) != who
    ensures Same(who, s, After(s, a))
  {
    if who == ENCODER && !s.encoder.NoEncoder? {
      hide Inv, After, Enabled, SameEncoder, SameCapture;
      OthersKeepEncoder(s, a);
    } else if who == CAPTURE && Active(s.capture) {
      hide After, Enabled, SameEncoder, SameCapture, Owned, Ordered, Clocked, Shaped;
      OthersKeepCapture(s, a);
    } else if who == VOICE {
      hide Inv, Timestamp, Moved, Cleared, SameEncoder, SameCapture;
    }
  }

  lemma SameChains(who: Thread, s: State, t: State, u: State)
    requires Same(who, s, t) && Same(who, t, u)
    ensures Same(who, s, u)
  {
    hide Sent, Aborting;
  }

  lemma SameAsItself(who: Thread, s: State)
    ensures Same(who, s, s)
  {
    hide Sent;
  }

  lemma MineOfOther(who: Thread, a: Action)
    requires By(a) != who
    ensures Mine(who, [a]) == []
  {
  }

  // ----- the recorder -----

  /** At this step of the history the encoder left its loop: it was told to stop, and
      everything pushed in its recording until then is `handled`. */
  predicate LeftAt(history: seq<State>, trace: seq<Action>, k: nat, handled: seq<Item>) {
    && k < |trace| && k < |history| && trace[k] == PopAborts && Aborting(history[k].status)
    && history[k].base <= |history[k].pushed| && handled == history[k].pushed[history[k].base..]
  }

  lemma LeftAtStays(history: seq<State>, trace: seq<Action>, k: nat, handled: seq<Item>,
        later: seq<State>, longer: seq<Action>)
    requires LeftAt(history, trace, k, handled) && history <= later && trace <= longer
    ensures LeftAt(later, longer, k, handled)
  {
    hide Aborting;
  }

  lemma OpenEffects(s: State)
    requires s.encoder.Opening?
    ensures Enabled(s, Opens) && Enabled(s, OpenFails)
    ensures After(s, Opens).encoder.Popping? && After(s, Opens).handled == s.handled
    ensures After(s, OpenFails).encoder.NoEncoder? && After(s, OpenFails).handled == s.handled
  {
  }

  lemma FinishEffect(s: State)
    requires s.encoder.Leaving?
    ensures Enabled(s, Finish)
    ensures var t := After(s, Finish); t.status == STOPPED && t.encoder.Joining? && t.handled == s.handled
  {
  }

  lemma JoinEffect(s: State)
    requires s.encoder.Joining? && s.capture.CaptureDone?
    ensures Enabled(s, Join)
    ensures var t := After(s, Join);
            t.status == s.status && t.encoder.NoEncoder? && t.capture.NoCapture? && t.handled == s.handled
  {
  }

  predicate EndsWith(items: seq<Item>, item: Item) {
    items != [] && items[|items| - 1] == item
  }

  predicate EndsWithPicture(items: seq<Item>, picture: Media) {
    items != [] && items[|items| - 1].media == picture
  }

  lemma VoiceHolds(s: State)
    requires Inv(s) && s.voice.VoicePushing?
    ensures s.voice.item.id < |s.places|
  {
  }

  datatype PopResult = Got(item: Item) | Refused | StillEmpty

  /** How run ended: the muxer did not open; its gaps ran out before Pop returned false; it reported and waits for
      the capture thread; or it has joined that thread. */
  datatype Outcome = OpenFailed | StillPopping | StillJoining(canceled: bool) | Finished(canceled: bool)

  /** How the capture thread ended: its gaps or answers ran out, it was told to abort, or
      CaptureScreen failed and on_recording_failed was called. */
  datatype Ending = StillCapturing | Stopped | Failed

  /** How one turn of the capture loop ended. */
  datatype TurnEnd = NextFrame | Abort | Failure

  /** CaptureScreen's answer; Push then finds the queue full `full` times. */
  datatype Shot = NoScreen | NoNews | Picture(len: int, width: int, height: int, full: nat)

  /** A picture sent: in which turn it was taken, and pause_time then. */
  datatype Taken = Taken(turn: nat, paused: nat)

  /** Each stamp and the pauses before it make the time from start_time to the clock
      reading of its turn, to the nearest millisecond; the turns are in order. */
  predicate WellStamped(startTime: nat, sent: seq<nat>, taken: seq<Taken>, starts: seq<nat>) {
    && |taken| == |sent|
    && (forall k :: 0 <= k < |sent| ==>
          taken[k].turn < |starts| && IsNearest(starts[taken[k].turn] - startTime, sent[k] + taken[k].paused))
    && (forall j, k :: 0 <= j < k < |taken| ==> taken[j].turn < taken[k].turn)
  }

  function PicturesIn(shots: seq<Shot>): nat {
    if shots == [] then 0
    else PicturesIn(shots[..|shots| - 1]) + (if shots[|shots| - 1].Picture? then 1 else 0)
  }

  lemma OneMoreShot(shots: seq<Shot>, i: nat)
    requires i < |shots|
    ensures PicturesIn(shots[..i + 1]) == PicturesIn(shots[..i]) + (if shots[i].Picture? then 1 else 0)
  {
    assert shots[..i + 1][..i] == shots[..i];
  }

  lemma NothingStamped(startTime: nat, shots: seq<Shot>)
    ensures WellStamped(startTime, [], [], []) && PicturesIn(shots[..0]) == 0
  {
  }

  lemma StampedLater(startTime: nat, sent: seq<nat>, taken: seq<Taken>, starts: seq<nat>, start: nat,
        paused: nat, picture: seq<nat>)
    requires WellStamped(startTime, sent, taken, starts) && |picture| <= 1
    requires picture != [] ==> IsNearest(start - startTime, picture[0] + paused)
    ensures WellStamped(startTime, sent + picture,
              taken + (if picture == [] then [] else [Taken(|starts|, paused)]), starts + [start])
  {
    hide IsNearest;
    if picture == [] {
      assert sent + picture == sent;
    }
  }

  predicate ShotOk(shot: Shot) {
    shot.Picture? ==> shot.len > 0 && shot.height > 0
  }

  function FreedIn(s: State): set<nat> {
    set id | 0 <= id < |s.places| && s.places[id] == Freed
  }

  lemma OrderedHolds(s: State)
    requires Inv(s)
    ensures Ordered(s)
  {
  }

  lemma EncodingIsShaped(s: State)
    requires Inv(s) && s.encoder.Encoding?
    ensures ItemShaped(s.encoder.item)
  {
  }

  lemma StickyHolds(s: State)
    requires Inv(s)
    ensures Sticky(s)
  {
  }

  /** `n` turns of the drain loop. */
  function Rounds(n: nat): seq<Action> {
    if n == 0 then [] else Rounds(n - 1) + [Pop, Encode]
  }

  /** How the encoder thread ends after its rounds. */
  function Tail(outcome: Outcome): seq<Action> {
    match outcome
    case OpenFailed => []
    case StillPopping => []
    case StillJoining(_) => [PopAborts, Finish]
    case Finished(_) => [PopAborts, Finish, Join]
  }

  /** The turns that `++count` counts. */
  function Frames(actions: seq<Action>): nat {
    if actions == [] then 0
    else Frames(actions[..|actions| - 1]) +
         (if actions[|actions| - 1] == CaptureNothing || actions[|actions| - 1] == CapturePushes then 1 else 0)
  }

  /** A difference of clock readings in milliseconds. */
  function Millis(ns: int): real {
    ns as real / 1000000.0
  }

  /** The sleep for which a turn asks. */
  datatype Asked = NoSleep | Sleep(milliseconds: nat)

  /** A sleep is asked for exactly if something is left, and for all whole milliseconds of
      it. */
  predicate AsksForTheRest(asked: Asked, left: real) {
    match asked
    case NoSleep => left <= 0.0
    case Sleep(ms) => left > 0.0 && ms as real <= left < ms as real + 1.0
  }

  /** The steps of the capture thread for it. */
  function PaceSteps(asked: Asked, awake: bool): seq<Action> {
    match asked
    case NoSleep => [FrameGoesOn]
    case Sleep(ms) => if awake then [FrameSleeps(ms), FrameWakes] else [FrameSleeps(ms)]
  }

  /** More than the interval less a millisecond lies between two readings. */
  predicate Paced(start: nat, next: nat, interval: real) {
    Millis(next - start) > interval - 1.0
  }

  predicate WellPaced(starts: seq<nat>, interval: real) {
    forall k :: 0 < k < |starts| ==> Paced(starts[k - 1], starts[k], interval)
  }

  lemma SleepsLongEnough(start: nat, end: nat, now: nat, interval: real)
    requires var sleepTime := interval - Millis(end - start);
             sleepTime > 0.0 && end + sleepTime.Floor * NS_PER_MS <= now
    ensures Paced(start, now, interval)
  {
    var ms := (interval - Millis(end - start)).Floor;
    assert Millis(ms * NS_PER_MS) == ms as real;
    assert Millis(now - start) >= Millis(end - start) + ms as real;
  }

  lemma LateEnough(start: nat, now: nat, interval: real)
    requires interval - Millis(now - start) <= 0.0
    ensures Paced(start, now, interval)
  {
  }

  lemma PacedOn(start: nat, next: nat, later: nat, interval: real)
    requires Paced(start, next, interval) && next <= later
    ensures Paced(start, later, interval)
  {
    assert Millis(next - start) <= Millis(later - start);
  }

  lemma StartsPaced(interval: real)
    ensures WellPaced([], interval)
  {
  }

  lemma PacedLater(starts: seq<nat>, interval: real, now: nat, start: nat)
    requires WellPaced(starts, interval) && now <= start
    requires starts != [] ==> Paced(starts[|starts| - 1], now, interval)
    ensures WellPaced(starts + [start], interval)
  {
    hide Paced;
    if starts != [] {
      PacedOn(starts[|starts| - 1], now, start, interval);
    }
  }

  lemma FramesGrow(actions: seq<Action>, a: Action)
    ensures Frames(actions + [a]) == Frames(actions) + (if a == CaptureNothing || a == CapturePushes then 1 else 0)
  {
    assert (actions + [a])[..|actions|] == actions;
  }

  /** The steps of the capture thread that leave start_time, pause_time and the queue. */
  predicate Quiet(a: Action) {
    By(a) == CAPTURE && !a.CaptureStarts? && !a.PauseSleeps? && !a.CapturePushes?
  }

  /** The capture thread's recording went on from `s` to `t` with the pictures `sent`. */
  predicate OnwardsSending(s: State, t: State, sent: seq<nat>) {
    && t.startTime == s.startTime && t.pauseTime == s.pauseTime && s.now <= t.now
    && Sent(t) == Sent(s) + sent
    && (Aborting(s.status) ==> Aborting(t.status))
  }

  /** From `s` to `t` the capture thread did nothing but rest for `paused` ms. */
  predicate Rested(s: State, t: State, paused: nat) {
    t.startTime == s.startTime && t.pauseTime == s.pauseTime + paused && s.now <= t.now && Sent(t) == Sent(s)
  }

  predicate Onwards(s: State, t: State) {
    OnwardsSending(s, t, [])
  }

  lemma QuietGoesOnwards(s: State, a: Action)
    requires Enabled(s, a) && Quiet(a)
    ensures Onwards(s, After(s, a)) && After(s, a).now == s.now
  {
    hide Timestamp, Moved, Stamps;
    assert Sent(After(s, a)) == Sent(s) == Sent(s) + [];
  }

  /** Where each step takes the capture thread. */
  lemma CaptureEffects(s: State)
    ensures s.capture.AtTop? && s.startTime <= s.now ==>
      Enabled(s, ReadClock) && After(s, ReadClock).capture == Stamped(Timestamp(s))
    ensures s.capture.Stamped? && Aborting(s.status) ==>
      Enabled(s, CaptureAborts) && After(s, CaptureAborts).capture.CaptureDone?
    ensures s.capture.Stamped? && !Aborting(s.status) ==>
      Enabled(s, CaptureGoesOn) && After(s, CaptureGoesOn).capture == Capturing(s.capture.pts)
    ensures s.capture.Capturing? ==>
      && Enabled(s, CaptureFails) && After(s, CaptureFails).capture.CaptureDone?
      && Enabled(s, CaptureNothing) && After(s, CaptureNothing).capture.FrameDone?
    ensures s.capture.Pushing? && Aborting(s.status) ==>
      Enabled(s, CapturePushAborts) && After(s, CapturePushAborts).capture.CaptureDone? &&
      After(s, CapturePushAborts).status == s.status
    ensures s.capture.Waiting? && s.capture.until <= s.now ==>
      Enabled(s, FrameWakes) && After(s, FrameWakes).capture.Resting?
    ensures s.capture.FrameDone? ==> Enabled(s, FrameGoesOn) && After(s, FrameGoesOn).capture.Resting?
    ensures s.capture.Resting? && s.status != PAUSE ==>
      Enabled(s, PauseEnds) && After(s, PauseEnds).capture.AtTop?
    ensures s.capture.Sleeping? && s.capture.until <= s.now ==>
      Enabled(s, PauseWakes) && After(s, PauseWakes).capture.Resting?
  {
    hide Timestamp, Moved;
  }

  lemma SleepEffect(s: State, milliseconds: nat)
    requires s.capture.FrameDone?
    ensures Enabled(s, FrameSleeps(milliseconds))
    ensures After(s, FrameSleeps(milliseconds)).capture == Waiting(s.now + milliseconds * NS_PER_MS)
  {
  }

  lemma PauseEffect(s: State)
    requires s.capture.Resting? && s.status == PAUSE
    ensures Enabled(s, PauseSleeps)
    ensures var t := After(s, PauseSleeps);
            && t.capture.Sleeping? && t.startTime == s.startTime && t.pauseTime == s.pauseTime + 100
            && t.now == s.now && Sent(t) == Sent(s)
  {
  }

  lemma StartEffect(s: State)
    requires Inv(s) && s.capture.Starting?
    ensures Enabled(s, CaptureStarts)
    ensures var t := After(s, CaptureStarts);
            && t.capture.AtTop? && t.startTime == s.now == t.now && t.pauseTime == 0 && Sent(t) == []
  {
    hide Inv, Stamps;
    SentInOrder(s);
  }

  lemma PictureEffect(s: State, len: int, width: int, height: int)
    requires s.capture.Capturing? && len > 0 && height > 0
    ensures var a := CapturePicture(len, width, height);
            && Enabled(s, a)
            && After(s, a).capture == Pushing(Item(|s.places|, Video(s.capture.pts, len, width, height)))
  {
  }

  lemma PushEffect(s: State)
    requires Inv(s) && s.capture.Pushing?
    ensures Enabled(s, CapturePushes) && s.capture.item.media.Video?
    ensures var t := After(s, CapturePushes);
            && OnwardsSending(s, t, [s.capture.item.media.timestamp])
            && t.capture.FrameDone? && EndsWith(t.pushed, s.capture.item)
  {
    hide Owned, Sticky, Shaped, Moved, Stamps;
    SentGrows(s, s.capture.item);
  }

  /** In a safe state the unsigned subtraction gives the time less the pauses. */
  lemma ClockIsRight(s: State)
    requires Inv(s) && s.capture.AtTop?
    ensures s.startTime <= s.now && s.pauseTime <= Milliseconds(s.now - s.startTime)
    ensures Wrapped64(Milliseconds(s.now - s.startTime) - s.pauseTime) == Milliseconds(s.now - s.startTime) - s.pauseTime
    ensures Timestamp(s) == Milliseconds(s.now - s.startTime) - s.pauseTime
    ensures IsNearest(s.now - s.startTime, Timestamp(s) + s.pauseTime)
  {
    hide Owned, Ordered, Sticky, Shaped, StampsUpTo, Milliseconds, IsNearest;
    TimestampIsReading(s);
    MillisecondsAreNearest(s.now - s.startTime);
  }

  class ScreenRecorder {
    /** status_, the queue, the clock, and how far each thread is. */
    var world: State
    /** What the other threads and the user do in each gap. */
    var gaps: seq<seq<Action>>
    var fps: int

    ghost var history: seq<State>
    ghost var trace: seq<Action>

    /** What has happened is a run of RecorderMachine that ends in `world`. */
    ghost predicate Valid()
      reads this
    {
      |history| == |trace| + 1 && history[|trace|] == world && Behaves(history, trace) && Inv(world)
    }

    constructor (now: nat)
      requires now < CLOCK_END
      ensures Valid() && world == Initial(now) && trace == []
      ensures world.status == STOPPED && world.pushed == [] && world.capture.NoCapture? && world.encoder.NoEncoder?
    {
      world := Initial(now);
      gaps := [];
      fps := 0;
      history := [Initial(now)];
      trace := [];
      InvInitially(now);
    }

    /** abort_func_ */
    predicate AbortFunc()
      reads this`world
    {
      Aborting(world.status)
    }

    /** The running thread takes its next step. */
    method Step(a: Action)
      requires Valid() && Enabled(world, a)
      modifies this`world, this`history, this`trace
      ensures Valid() && world == After(old(world), a)
      ensures history == old(history) + [world] && trace == old(trace) + [a]
      ensures Mine(By(a), trace) == Mine(By(a), old(trace)) + [a]
    {
      hide Inv, Behaves, After, Enabled;
      InvKept(world, a);
      BehaviourGrows(history, trace, a, After(world, a));
      MineGlued(By(a), trace, [a]);
      world := After(world, a);
      history := history + [world];
      trace := trace + [a];
    }

    /** A gap between two steps of `who`: the others take the steps that are possible. */
    method Others(who: Thread)
      requires Valid()
      modifies this`world, this`gaps, this`history, this`trace
      ensures Valid() && Same(who, old(world), world)
      ensures old(history) <= history && old(trace) <= trace
      ensures Mine(who, trace) == Mine(who, old(trace))
      ensures gaps == if old(gaps) == [] then [] else old(gaps)[1..]
    {
      hide Inv, Behaves, After, Enabled, Same, By;
      var actions := if gaps == [] then [] else gaps[0];
      gaps := if gaps == [] then [] else gaps[1..];
      SameAsItself(who, world);
      for i := 0 to |actions|
        invariant Valid() && Same(who, old(world), world)
        invariant old(history) <= history && old(trace) <= trace
        invariant Mine(who, trace) == Mine(who, old(trace))
        invariant gaps == if old(gaps) == [] then [] else old(gaps)[1..]
      {
        if By(actions[i]) != who && Enabled(world, actions[i]) {
          OthersKeepSame(who, world, actions[i]);
          SameChains(who, old(world), world, After(world, actions[i]));
          MineGlued(who, trace, [actions[i]]);
          MineOfOther(who, actions[i]);
          Step(actions[i]);
        }
      }
    }

    // ----- the buttons -----

    /** Records that the running thread's assignment to `world` was the step `a`. */
    ghost method Took(a: Action, before: State)
      requires |history| == |trace| + 1 && history[|trace|] == before && Behaves(history, trace) && Inv(before)
      requires Enabled(before, a) && world == After(before, a)
      modifies this`history, this`trace
      ensures Valid() && history == old(history) + [world] && trace == old(trace) + [a]
    {
      hide Inv, Behaves, After, Enabled;
      InvKept(before, a);
      BehaviourGrows(history, trace, a, world);
      history := history + [world];
      trace := trace + [a];
    }

    /** Status, Clear, both threads.  What an earlier recording left in the queue is
        deleted and never encoded. */
    method StartRecord(fps: int)
      requires Valid() && fps > 0 && world.capture.NoCapture? && world.encoder.NoEncoder?
      modifies this`world, this`fps, this`history, this`trace
      ensures Valid() && trace == old(trace) + [Start] && world == After(old(world), Start) && this.fps == fps
      ensures world.status == RECORDING && world.capture.Starting? && world.encoder.Opening?
      ensures world.head == |world.pushed| && Deleted(old(world), Start) <= FreedIn(world)
      ensures StartsAfresh(world)
    {
      hide Behaves, Inv, StartsAfresh;
      this.fps := fps;
      ghost var before := world;
      world := world.(status := RECORDING);
      world := world.(base := |world.pushed|, head := |world.pushed|, handled := [], places := Cleared(world.places));
      world := world.(capture := Starting, encoder := Opening);
      Took(Start, before);
      OrderedHolds(world);
      StartIsFresh(world);
    }

    /** Until the next start the stop is not taken back: the capture thread makes at most
        seven more steps with at most one picture, and unless cancel follows the recording
        is reported as completed. */
    method StopRecord()
      requires Valid()
      modifies this`world, this`history, this`trace
      ensures Valid() && trace == old(trace) + [Stop] && world == After(old(world), Stop)
      ensures AbortFunc() && WindsDown(world) && WillBeCompleted(world)
    {
      hide Behaves, Inv, WindsDown, WillBeCompleted;
      ghost var before := world;
      world := world.(status := STOPPING);
      Took(Stop, before);
      AbortWindsDown(world);
      StopIsKept(world);
    }

    /** The same, and unless stop follows the recording is reported as canceled. */
    method CancelRecord()
      requires Valid()
      modifies this`world, this`history, this`trace
      ensures Valid() && trace == old(trace) + [Cancel] && world == After(old(world), Cancel)
      ensures AbortFunc() && WindsDown(world) && WillBeCanceled(world)
    {
      hide Behaves, Inv, WindsDown, WillBeCanceled;
      ghost var before := world;
      world := world.(status := CANCELING);
      Took(Cancel, before);
      AbortWindsDown(world);
      CancelIsKept(world);
    }

    /** Until the next button the recorder stays paused, with at most one more picture. */
    method PauseRecord()
      requires Valid() && world.status == RECORDING
      modifies this`world, this`history, this`trace
      ensures Valid() && trace == old(trace) + [Pause] && world == After(old(world), Pause)
      ensures !AbortFunc() && StaysPaused(world)
    {
      hide Behaves, Inv, StaysPaused;
      ghost var before := world;
      world := world.(status := PAUSE);
      Took(Pause, before);
      StickyHolds(world);
      PauseStays(world);
    }

    /** Undoes a pause: right after one, nothing is left of it. */
    method RestartRecord()
      requires Valid() && world.status == PAUSE
      modifies this`world, this`history, this`trace
      ensures Valid() && trace == old(trace) + [Restart] && world == After(old(world), Restart)
      ensures !AbortFunc()
      ensures forall s :: Enabled(s, Pause) && After(s, Pause) == old(world) ==> world == s
    {
      hide Behaves, Inv;
      ghost var before := world;
      world := world.(status := RECORDING);
      Took(Restart, before);
    }

    // ----- run -----

    /** Pop's wait loop, gap by gap, until there is an item or abort_func says yes. */
    method AwaitItem()
      requires Valid() && world.encoder.Popping?
      modifies this`world, this`gaps, this`history, this`trace
      ensures Valid() && Ordered(world) && old(history) <= history && old(trace) <= trace
      ensures SameEncoder(old(world), world) && Mine(ENCODER, trace) == Mine(ENCODER, old(trace))
      ensures if old(gaps) == [] then gaps == [] else |gaps| < |old(gaps)|
      ensures world.head == |world.pushed| && gaps != [] ==> AbortFunc()
    {
      hide Inv, Behaves, Mine, Ordered, After, Enabled;
      Others(ENCODER);
      OrderedHolds(world);
      while world.head == |world.pushed| && !AbortFunc() && gaps != []
        invariant Valid() && Ordered(world) && old(history) <= history && old(trace) <= trace
        invariant SameEncoder(old(world), world) && Mine(ENCODER, trace) == Mine(ENCODER, old(trace))
        invariant if old(gaps) == [] then gaps == [] else |gaps| < |old(gaps)|
        decreases |gaps|
      {
        Others(ENCODER);
        OrderedHolds(world);
      }
    }

    /** Pop: takes the front of the queue, or returns false when the queue is empty and
        abort_func says yes. */
    method Pop() returns (result: PopResult)
      requires Valid() && world.encoder.Popping?
      modifies this`world, this`gaps, this`history, this`trace
      ensures Valid() && old(history) <= history && old(trace) <= trace
      ensures world.handled == old(world.handled) && world.base == old(world.base)
      ensures if old(gaps) == [] then gaps == [] else |gaps| < |old(gaps)|
      ensures match result
              case Got(item) =>
                world.encoder == Encoding(item) &&
                Mine(ENCODER, trace) == Mine(ENCODER, old(trace)) + [RecorderMachine.Pop]
              case Refused =>
                world.encoder.Leaving? && AbortFunc() && LeftAt(history, trace, |trace| - 1, world.handled) &&
                Mine(ENCODER, trace) == Mine(ENCODER, old(trace)) + [PopAborts]
              case StillEmpty => world.encoder.Popping? && Mine(ENCODER, trace) == Mine(ENCODER, old(trace))
    {
      hide Inv, Behaves, Mine, Sent, Timestamp, Moved, Cleared;
      AwaitItem();
      if world.head < |world.pushed| {
        result := Got(world.pushed[world.head]);
        Step(RecorderMachine.Pop);
      } else if AbortFunc() {
        NothingLeftBehind(world);
        Step(PopAborts);
        result := Refused;
      } else {
        result := StillEmpty;
      }
    }

    /** One AVData in the loop of run: the call into the muxer, then its deletion. */
    method EncodeOne() returns (call: Call)
      requires Valid() && world.encoder.Encoding?
      modifies this`world, this`gaps, this`history, this`trace
      ensures Valid() && old(history) <= history && old(trace) <= trace && |gaps| <= |old(gaps)|
      ensures world.encoder.Popping? && Encodes(call, old(world.encoder.item))
      ensures world.handled == old(world.handled) + [old(world.encoder.item)]
      ensures Mine(ENCODER, trace) == Mine(ENCODER, old(trace)) + [Encode]
    {
      hide Inv, Behaves, Mine, Encodes, FramePts;
      var avData := world.encoder.item;
      EncodingIsShaped(world);
      match avData.media {
        case Audio(len) =>
          call := EncodeAudioFrame(avData.id, len);
        case Video(timestamp, len, width, height) =>
          var stride := len / height;
          var pts := FramePts(timestamp);
          call := EncodeVideoFrame(avData.id, width, height, stride, pts);
      }
      CallEncodes(call, avData);
      Others(ENCODER);
      Step(Encode);
    }

    /** The loop of run: one call for each AVData that Pop delivers, in order. */
    method Drain() returns (calls: seq<Call>, aborted: bool)
      requires Valid() && world.encoder.Popping? && world.handled == []
      modifies this`world, this`gaps, this`history, this`trace
      ensures Valid() && old(history) <= history && old(trace) <= trace
      ensures EncodesAll(calls, world.handled)
      ensures Mine(ENCODER, trace) ==
              Mine(ENCODER, old(trace)) + Rounds(|calls|) + (if aborted then [PopAborts] else [])
      ensures if aborted then
                world.encoder.Leaving? && AbortFunc() && LeftAt(history, trace, |trace| - 1, world.handled)
              else world.encoder.Popping?
    {
      hide Inv, Behaves, Mine, EncodesAll, Encodes, After, Enabled, Aborting, LeftAt;
      calls := [];
      NothingEncodesNothing();
      while gaps != []
        invariant Valid() && old(history) <= history && old(trace) <= trace
        invariant world.encoder.Popping? && EncodesAll(calls, world.handled)
        invariant Mine(ENCODER, trace) == Mine(ENCODER, old(trace)) + Rounds(|calls|)
        decreases |gaps|
      {
        ghost var mine := Mine(ENCODER, trace);
        var result := Pop();
        if result == StillEmpty {
          return calls, false;
        }
        if result == Refused {
          return calls, true;
        }
        ghost var handled := world.handled;
        var call := EncodeOne();
        EncodesOneMore(calls, handled, call, result.item);
        calls := calls + [call];
        assert Mine(ENCODER, trace) == mine + [RecorderMachine.Pop, Encode];
      }
      return calls, false;
    }

    /** Waits one gap for the capture thread. */
    method JoinCapture() returns (joined: bool)
      requires Valid() && world.encoder.Joining? && AbortFunc()
      modifies this`world, this`gaps, this`history, this`trace
      ensures Valid() && old(history) <= history && old(trace) <= trace
      ensures world.handled == old(world.handled) && AbortFunc()
      ensures Mine(ENCODER, trace) == Mine(ENCODER, old(trace)) + (if joined then [Join] else [])
      ensures joined ==> world.encoder.NoEncoder? && world.capture.NoCapture?
    {
      hide Inv, Behaves, Mine, Sent, After, Enabled, Aborting;
      Others(ENCODER);
      joined := world.capture.CaptureDone?;
      if joined {
        JoinEffect(world);
        Step(Join);
      }
    }

    /** What run does after its loop: the callback is chosen by the status at step `seen`,
        then the status becomes STOPPED, then it waits for the capture thread. */
    method Leave() returns (outcome: Outcome, ghost seen: nat)
      requires Valid() && world.encoder.Leaving? && AbortFunc()
      modifies this`world, this`gaps, this`history, this`trace
      ensures Valid() && old(history) <= history && old(trace) <= trace
      ensures world.handled == old(world.handled) && AbortFunc() && (outcome.StillJoining? || outcome.Finished?)
      ensures Mine(ENCODER, trace) == Mine(ENCODER, old(trace)) + (if outcome.Finished? then [Finish, Join] else [Finish])
      ensures old(|trace|) <= seen < |history| && (outcome.canceled <==> history[seen].status == CANCELING)
      ensures outcome.Finished? ==> world.encoder.NoEncoder? && world.capture.NoCapture?
    {
      hide Inv, Behaves, Mine, Sent, After, Enabled;
      Others(ENCODER);
      var canceled := world.status == CANCELING;
      seen := |trace|;
      Others(ENCODER);
      FinishEffect(world);
      Step(Finish);
      var joined := JoinCapture();
      outcome := if joined then Finished(canceled) else StillJoining(canceled);
    }

    /** The loop of run and what follows it. */
    method EncodeUntilStopped() returns (calls: seq<Call>, outcome: Outcome, ghost left: nat, ghost seen: nat)
      requires Valid() && world.encoder.Popping? && world.handled == []
      modifies this`world, this`gaps, this`history, this`trace
      ensures Valid() && old(history) <= history && old(trace) <= trace && !outcome.OpenFailed?
      ensures EncodesAll(calls, world.handled)
      ensures Mine(ENCODER, trace) == Mine(ENCODER, old(trace)) + Rounds(|calls|) + Tail(outcome)
      ensures outcome.StillPopping? || (
        && LeftAt(history, trace, left, world.handled) && AbortFunc()
        && left < seen < |history| && (outcome.canceled <==> history[seen].status == CANCELING))
      ensures outcome.Finished? ==> world.encoder.NoEncoder? && world.capture.NoCapture?
    {
      hide Inv, Behaves, Mine, EncodesAll, Encodes, Rounds, LeftAt, Aborting, After, Enabled;
      left, seen := 0, 0;
      var aborted;
      calls, aborted := Drain();
      if !aborted {
        return calls, StillPopping, 0, 0;
      }
      left := |trace| - 1;
      ghost var before, done := history, trace;
      outcome, seen := Leave();
      LeftAtStays(before, done, left, world.handled, history, trace);
    }

    /** The muxer is initialised and opened, or not, and then run just returns. */
    method OpenMuxer(muxerOpens: bool)
      requires Valid() && world.encoder.Opening?
      modifies this`world, this`gaps, this`history, this`trace
      ensures Valid() && old(history) <= history && old(trace) <= trace && world.handled == old(world.handled)
      ensures Mine(ENCODER, trace) == Mine(ENCODER, old(trace)) + [if muxerOpens then Opens else OpenFails]
      ensures if muxerOpens then world.encoder.Popping? else Stuck(world)
    {
      hide Inv, Behaves, Mine, Sent, After, Enabled, Stuck, Aborting;
      Others(ENCODER);
      OpenEffects(world);
      if muxerOpens {
        Step(Opens);
      } else {
        FailedOpenIsStuck(world);
        Step(OpenFails);
      }
    }

    /** A muxer that does not open leaves the recorder stuck for good.  Otherwise there is
        one call for each AVData that was handled, in order; when the loop ends, that is
        everything pushed up to then.  The callback is the one for the status found at step
        `seen`, after the loop and before the status becomes STOPPED. */
    method Run(muxerOpens: bool) returns (calls: seq<Call>, outcome: Outcome, ghost left: nat, ghost seen: nat)
      requires Valid() && world.encoder.Opening? && world.handled == []
      modifies this`world, this`gaps, this`history, this`trace
      ensures Valid() && old(history) <= history && old(trace) <= trace
      ensures EncodesAll(calls, world.handled) && (outcome.OpenFailed? <==> !muxerOpens)
      ensures if muxerOpens
              then Mine(ENCODER, trace) == Mine(ENCODER, old(trace)) + [Opens] + Rounds(|calls|) + Tail(outcome)
              else Mine(ENCODER, trace) == Mine(ENCODER, old(trace)) + [OpenFails] && Stuck(world)
      ensures outcome.StillJoining? || outcome.Finished? ==>
        && LeftAt(history, trace, left, world.handled) && AbortFunc()
        && left < seen < |history| && (outcome.canceled <==> history[seen].status == CANCELING)
      ensures outcome.Finished? ==> world.encoder.NoEncoder? && world.capture.NoCapture?
    {
      hide Inv, Behaves, Mine, EncodesAll, Encodes, Rounds, Tail, LeftAt, Aborting, After, Enabled, Stuck;
      OpenMuxer(muxerOpens);
      if muxerOpens {
        calls, outcome, left, seen := EncodeUntilStopped();
      } else {
        NothingEncodesNothing();
        calls, outcome, left, seen := [], OpenFailed, 0, 0;
      }
    }

    // ----- the threads that push -----

    /** Push's wait for room, `full` times: false if abort_func says yes meanwhile. */
    method WaitForRoom(who: Thread, full: nat) returns (room: bool)
      requires Valid()
      modifies this`world, this`gaps, this`history, this`trace
      ensures Valid() && old(history) <= history && old(trace) <= trace
      ensures Same(who, old(world), world) && Mine(who, trace) == Mine(who, old(trace))
      ensures !room ==> AbortFunc()
    {
      hide Inv, Behaves, Mine, Same, Aborting;
      SameAsItself(who, world);
      for i := 0 to full
        invariant Valid() && old(history) <= history && old(trace) <= trace
        invariant Same(who, old(world), world) && Mine(who, trace) == Mine(who, old(trace))
      {
        if AbortFunc() {
          return false;
        }
        ghost var before := world;
        Others(who);
        SameChains(who, old(world), before, world);
      }
      room := true;
    }

    /** The voice callback: its AVData ends up at the back of the queue, or, if Push is
        told to abort, deleted. */
    method HandleVoiceDataCallback(len: int, full: nat) returns (pushed: bool)
      requires Valid() && world.voice.Silent? && len > 0
      modifies this`world, this`gaps, this`history, this`trace
      ensures Valid() && old(history) <= history && old(trace) <= trace
      ensures var item := Item(old(|world.places|), Audio(len));
              && item.id < |world.places| && world.voice.Silent?
              && if pushed then EndsWith(world.pushed, item) && world.places[item.id].InQueue?
                 else AbortFunc() && world.places[item.id] == Freed
      ensures Mine(VOICE, trace) ==
              Mine(VOICE, old(trace)) + [VoiceArrives(len), if pushed then VoicePushes else VoicePushAborts]
    {
      hide Inv, Behaves, Mine, Sent, Timestamp, Cleared;
      Step(VoiceArrives(len));
      pushed := WaitForRoom(VOICE, full);
      VoiceHolds(world);
      Step(if pushed then VoicePushes else VoicePushAborts);
    }

    // ----- the capture thread -----

    /** The last step was one of these. */
    ghost predicate EndedBy(actions: set<Action>)
      reads this`trace
    {
      trace != [] && trace[|trace| - 1] in actions
    }

    /** The turns that `++count` has counted. */
    ghost function Counted(): nat
      reads this`trace
    {
      Frames(Mine(CAPTURE, trace))
    }

    method CaptureGap()
      requires Valid() && Active(world.capture)
      modifies this`world, this`gaps, this`history, this`trace
      ensures Valid() && old(history) <= history && old(trace) <= trace
      ensures Onwards(old(world), world) && world.capture == old(world.capture)
      ensures Mine(CAPTURE, trace) == Mine(CAPTURE, old(trace)) && Counted() == old(Counted())
      ensures gaps == if old(gaps) == [] then [] else old(gaps)[1..]
    {
      hide Inv, Behaves, Mine, Sent, Aborting;
      Others(CAPTURE);
    }

    method CaptureStep(a: Action)
      requires Valid() && Enabled(world, a) && Quiet(a)
      modifies this`world, this`history, this`trace
      ensures Valid() && old(history) <= history && trace == old(trace) + [a]
      ensures Onwards(old(world), world) && world == After(old(world), a) && world.now == old(world.now)
      ensures Mine(CAPTURE, trace) == Mine(CAPTURE, old(trace)) + [a]
      ensures Counted() == old(Counted()) + (if a.CaptureNothing? then 1 else 0)
    {
      hide Inv, Behaves, Mine, Onwards, Frames, After, Enabled;
      QuietGoesOnwards(world, a);
      FramesGrow(Mine(CAPTURE, trace), a);
      Step(a);
    }

    /** Push of a picture, and its deletion if Push returns false. */
    method PushPicture(full: nat) returns (room: bool, sent: seq<nat>)
      requires Valid() && world.capture.Pushing? && world.capture.item.media.Video?
      modifies this`world, this`gaps, this`history, this`trace
      ensures Valid() && old(history) <= history && old(trace) <= trace
      ensures var item := old(world.capture.item);
              && OnwardsSending(old(world), world, sent)
              && if room then sent == [item.media.timestamp] && EndsWith(world.pushed, item) && world.capture.FrameDone?
                 else sent == [] && world.capture.CaptureDone? && AbortFunc()
      ensures Counted() == old(Counted()) + (if room then 1 else 0)
      ensures EndedBy({if room then CapturePushes else CapturePushAborts})
    {
      hide Inv, Behaves, Mine, Sent, Frames, After, Enabled, Aborting;
      var item := world.capture.item;
      room := WaitForRoom(CAPTURE, full);
      if room {
        FramesGrow(Mine(CAPTURE, trace), CapturePushes);
        PushEffect(world);
        Step(CapturePushes);
        sent := [item.media.timestamp];
      } else {
        CaptureEffects(world);
        CaptureStep(CapturePushAborts);
        sent := [];
      }
    }

    /** The top of the loop: the clock and the stamp made from it. */
    method ReadTheClock(startTime: nat, pauseTime: nat) returns (start: nat, pts: nat)
      requires Valid() && world.capture.AtTop?
      requires startTime == world.startTime && pauseTime == world.pauseTime
      modifies this`world, this`gaps, this`history, this`trace
      ensures Valid() && old(history) <= history && old(trace) <= trace
      ensures Onwards(old(world), world) && world.capture == Stamped(pts)
      ensures startTime <= start == world.now && IsNearest(start - startTime, pts + pauseTime)
      ensures Counted() == old(Counted())
    {
      hide Inv, Behaves, Mine, Sent, After, Enabled, Aborting, Timestamp, Milliseconds, Wrapped64, IsNearest;
      CaptureGap();
      start := world.now;
      ClockIsRight(world);
      pts := Wrapped64(Milliseconds(start - startTime) - pauseTime);
      CaptureEffects(world);
      CaptureStep(ReadClock);
    }

    /** CaptureScreen and what is done with its answer. */
    method Shoot(shot: Shot) returns (sent: seq<nat>, end: TurnEnd)
      requires Valid() && ShotOk(shot) && world.capture.Capturing?
      modifies this`world, this`gaps, this`history, this`trace
      ensures Valid() && old(history) <= history && old(trace) <= trace
      ensures OnwardsSending(old(world), world, sent)
      ensures sent == if shot.Picture? && end == NextFrame then [old(world.capture.pts)] else []
      ensures Counted() == old(Counted()) + (if end == NextFrame then 1 else 0)
      ensures end == Failure <==> shot.NoScreen?
      ensures sent != [] ==> EndsWithPicture(world.pushed, Video(sent[0], shot.len, shot.width, shot.height))
      ensures match end
              case NextFrame => world.capture.FrameDone?
              case Abort => world.capture.CaptureDone? && AbortFunc() && EndedBy({CaptureAborts, CapturePushAborts})
              case Failure => world.capture.CaptureDone? && EndedBy({CaptureFails})
    {
      hide Inv, Behaves, Mine, Sent, After, Enabled, Aborting, Frames;
      CaptureGap();
      CaptureEffects(world);
      match shot {
        case NoScreen =>
          CaptureStep(CaptureFails);
          return [], Failure;
        case NoNews =>
          CaptureStep(CaptureNothing);
          return [], NextFrame;
        case Picture(len, width, height, full) =>
          PictureEffect(world, len, width, height);
          CaptureStep(CapturePicture(len, width, height));
          var room;
          room, sent := PushPicture(full);
          end := if room then NextFrame else Abort;
      }
    }

    /** One turn of the capture loop up to `++count`.  `start` is the first reading of the
        clock; a picture goes to the queue with the time since start_time, less pause_time. */
    method CaptureTurn(startTime: nat, pauseTime: nat, shot: Shot) returns (start: nat, sent: seq<nat>, end: TurnEnd)
      requires Valid() && ShotOk(shot) && world.capture.AtTop?
      requires startTime == world.startTime && pauseTime == world.pauseTime
      modifies this`world, this`gaps, this`history, this`trace
      ensures Valid() && old(history) <= history && old(trace) <= trace
      ensures OnwardsSending(old(world), world, sent)
      ensures startTime <= start && old(world.now) <= start <= world.now
      ensures |sent| == if shot.Picture? && end == NextFrame then 1 else 0
      ensures sent != [] ==>
        && IsNearest(start - startTime, sent[0] + pauseTime)
        && EndsWithPicture(world.pushed, Video(sent[0], shot.len, shot.width, shot.height))
      ensures end == Failure ==> shot.NoScreen?
      ensures shot.NoScreen? ==> end != NextFrame
      ensures match end
              case NextFrame => world.capture.FrameDone?
              case Abort => world.capture.CaptureDone? && AbortFunc() && EndedBy({CaptureAborts, CapturePushAborts})
              case Failure => world.capture.CaptureDone? && EndedBy({CaptureFails})
      ensures Counted() == old(Counted()) + (if end == NextFrame then 1 else 0)
    {
      hide Inv, Behaves, Mine, Sent, After, Enabled, Aborting, IsNearest, Frames, EndsWithPicture;
      var pts;
      start, pts := ReadTheClock(startTime, pauseTime);
      CaptureGap();
      CaptureEffects(world);
      if AbortFunc() {
        CaptureStep(CaptureAborts);
        return start, [], Abort;
      }
      CaptureStep(CaptureGoesOn);
      sent, end := Shoot(shot);
    }

    /** The sleep that paces the frames, in whole milliseconds; at `end` the clock was read
        for it.  It is asked for exactly if time is left of the interval, and it is as long
        as fits into what is left.  Not awake: it goes on after the last gap. */
    method Pace(start: nat, interval: real) returns (awake: bool, ghost asked: Asked, ghost end: nat)
      requires Valid() && world.capture.FrameDone? && start <= world.now
      modifies this`world, this`gaps, this`history, this`trace
      ensures Valid() && old(history) <= history && old(trace) <= trace
      ensures Onwards(old(world), world) && Counted() == old(Counted())
      ensures awake ==> world.capture.Resting? && Paced(start, world.now, interval)
      ensures old(world.now) <= end <= world.now
      ensures AsksForTheRest(asked, interval - Millis(end - start))
      ensures Mine(CAPTURE, trace) == Mine(CAPTURE, old(trace)) + PaceSteps(asked, awake)
    {
      hide Inv, Behaves, Mine, Sent, After, Enabled, Aborting, Frames, Paced;
      CaptureGap();
      end := world.now;
      var diff := Millis(world.now - start);
      var sleepTime := interval - diff;
      if sleepTime > 0.0 {
        var milliseconds := sleepTime.Floor;
        asked := Sleep(milliseconds);
        awake := FrameSleep(milliseconds);
        if awake {
          SleepsLongEnough(start, end, world.now, interval);
        }
      } else {
        asked, awake := NoSleep, true;
        CaptureEffects(world);
        CaptureStep(FrameGoesOn);
        LateEnough(start, world.now, interval);
      }
    }

    method FrameSleep(milliseconds: nat) returns (awake: bool)
      requires Valid() && world.capture.FrameDone?
      modifies this`world, this`gaps, this`history, this`trace
      ensures Valid() && old(history) <= history && old(trace) <= trace
      ensures Onwards(old(world), world) && Counted() == old(Counted())
      ensures awake ==> world.capture.Resting? && old(world.now) + milliseconds * NS_PER_MS <= world.now
      ensures Mine(CAPTURE, trace) == Mine(CAPTURE, old(trace)) + PaceSteps(Sleep(milliseconds), awake)
    {
      hide Inv, Behaves, Mine, Sent, After, Enabled, Aborting, Frames;
      var until := world.now + milliseconds * NS_PER_MS;
      SleepEffect(world, milliseconds);
      CaptureStep(FrameSleeps(milliseconds));
      CaptureGap();
      awake := until <= world.now;
      if awake {
        CaptureEffects(world);
        CaptureStep(FrameWakes);
      }
    }

    /** One 100 ms sleep of the pause loop.  False: it goes on after the last gap. */
    method Nap() returns (awake: bool)
      requires Valid() && world.capture.Resting? && world.status == PAUSE
      modifies this`world, this`gaps, this`history, this`trace
      ensures Valid() && old(history) <= history && old(trace) <= trace
      ensures Rested(old(world), world, 100) && Counted() == old(Counted())
      ensures awake ==> world.capture.Resting?
      ensures gaps == if old(gaps) == [] then [] else old(gaps)[1..]
    {
      hide Inv, Behaves, Mine, Sent, After, Enabled, Aborting, Frames;
      PauseEffect(world);
      FramesGrow(Mine(CAPTURE, trace), PauseSleeps);
      Step(PauseSleeps);
      var until := world.capture.until;
      CaptureGap();
      awake := until <= world.now;
      if awake {
        CaptureEffects(world);
        CaptureStep(PauseWakes);
      }
    }

    /** The pause loop: each 100 ms sleep is added to pause_time. */
    method Rest(paused: nat) returns (pauseTime: nat, awake: bool)
      requires Valid() && world.capture.Resting? && paused == world.pauseTime
      modifies this`world, this`gaps, this`history, this`trace
      ensures Valid() && old(history) <= history && old(trace) <= trace
      ensures paused <= pauseTime && Rested(old(world), world, pauseTime - paused) && Counted() == old(Counted())
      ensures awake ==> world.capture.AtTop?
    {
      hide Inv, Behaves, Mine, Sent, After, Enabled, Aborting, Frames;
      pauseTime := paused;
      CaptureGap();
      while world.status == PAUSE
        invariant Valid() && old(history) <= history && old(trace) <= trace
        invariant paused <= pauseTime && Rested(old(world), world, pauseTime - paused)
        invariant world.capture.Resting? && Counted() == old(Counted())
        decreases |gaps|
      {
        if gaps == [] {
          return pauseTime, false;
        }
        pauseTime := pauseTime + 100;
        awake := Nap();
        if !awake {
          return pauseTime, false;
        }
      }
      CaptureEffects(world);
      CaptureStep(PauseEnds);
      awake := true;
    }

    /** A whole turn of the capture loop: the picture, the pacing sleep, the pauses. */
    method Frame(startTime: nat, paused: nat, shot: Shot, interval: real)
      returns (start: nat, sent: seq<nat>, pauseTime: nat, end: TurnEnd, awake: bool)
      requires Valid() && ShotOk(shot) && world.capture.AtTop?
      requires startTime == world.startTime && paused == world.pauseTime
      modifies this`world, this`gaps, this`history, this`trace
      ensures Valid() && old(history) <= history && old(trace) <= trace
      ensures world.startTime == startTime && world.pauseTime == pauseTime
      ensures startTime <= start && old(world.now) <= start <= world.now
      ensures Sent(world) == Sent(old(world)) + sent
      ensures |sent| == if shot.Picture? && end == NextFrame then 1 else 0
      ensures sent != [] ==> IsNearest(start - startTime, sent[0] + paused)
      ensures paused <= pauseTime
      ensures Counted() == old(Counted()) + (if end == NextFrame then 1 else 0)
      ensures awake ==> end == NextFrame && world.capture.AtTop? && Paced(start, world.now, interval)
      ensures match end
              case NextFrame => true
              case Abort => world.capture.CaptureDone? && AbortFunc() && EndedBy({CaptureAborts, CapturePushAborts})
              case Failure => world.capture.CaptureDone? && EndedBy({CaptureFails})
    {
      hide Inv, Behaves, Mine, Sent, After, Enabled, Aborting, Frames, IsNearest, Paced, EndsWithPicture;
      pauseTime, awake := paused, false;
      start, sent, end := CaptureTurn(startTime, paused, shot);
      if end == NextFrame {
        ghost var asked, paceEnd;
        awake, asked, paceEnd := Pace(start, interval);
        if awake {
          ghost var rested := world.now;
          pauseTime, awake := Rest(paused);
          PacedOn(start, rested, world.now, interval);
        }
      }
    }

    /** start_time, and nothing sent yet. */
    method StartClock() returns (startTime: nat)
      requires Valid() && world.capture.Starting?
      modifies this`world, this`gaps, this`history, this`trace
      ensures Valid() && old(history) <= history && old(trace) <= trace
      ensures world.capture.AtTop? && startTime == world.startTime == world.now
      ensures world.pauseTime == 0 && Sent(world) == [] && Counted() == old(Counted())
    {
      hide Inv, Behaves, Mine, Sent, After, Enabled, Aborting, Frames;
      CaptureGap();
      StartEffect(world);
      FramesGrow(Mine(CAPTURE, trace), CaptureStarts);
      startTime := world.now;
      Step(CaptureStarts);
    }

    /** The capture loop from its first turn. */
    method CaptureLoop(startTime: nat, shots: seq<Shot>, interval: real)
      returns (count: nat, sent: seq<nat>, starts: seq<nat>, ending: Ending, ghost taken: seq<Taken>)
      requires Valid() && world.capture.AtTop? && forall k :: 0 <= k < |shots| ==> ShotOk(shots[k])
      requires startTime == world.startTime && world.pauseTime == 0 && Sent(world) == []
      modifies this`world, this`gaps, this`history, this`trace
      ensures Valid() && old(history) <= history && old(trace) <= trace
      ensures sent == Sent(world) && WellPaced(starts, interval)
      ensures count <= |shots| && |sent| == PicturesIn(shots[..count]) && WellStamped(startTime, sent, taken, starts)
      ensures world.startTime == startTime
      ensures count <= |starts| <= count + 1 && Counted() == old(Counted()) + count
      ensures match ending
              case StillCapturing => true
              case Stopped => world.capture.CaptureDone? && AbortFunc() && EndedBy({CaptureAborts, CapturePushAborts})
              case Failed => world.capture.CaptureDone? && EndedBy({CaptureFails})
    {
      hide Inv, Behaves, Mine, Sent, After, Enabled, Aborting, Frames, IsNearest, Paced, WellPaced, ShotOk, WellStamped, PicturesIn;
      count, sent, starts, ending, taken := 0, [], [], StillCapturing, [];
      var pauseTime := 0;
      StartsPaced(interval);
      NothingStamped(startTime, shots);
      for i := 0 to |shots|
        invariant Valid() && old(history) <= history && old(trace) <= trace
        invariant world.capture.AtTop? && startTime == world.startTime && pauseTime == world.pauseTime
        invariant sent == Sent(world) && i == count == |starts| && Counted() == old(Counted()) + count
        invariant |sent| == PicturesIn(shots[..i]) && WellStamped(startTime, sent, taken, starts)
        invariant WellPaced(starts, interval)
        invariant starts != [] ==> Paced(starts[|starts| - 1], world.now, interval)
        invariant ending == StillCapturing
      {
        ghost var latest, paused := world.now, pauseTime;
        var start, picture, end, awake;
        start, picture, pauseTime, end, awake := Frame(startTime, pauseTime, shots[i], interval);
        PacedLater(starts, interval, latest, start);
        StampedLater(startTime, sent, taken, starts, start, paused, picture);
        OneMoreShot(shots, i);
        taken := taken + (if picture == [] then [] else [Taken(i, paused)]);
        sent, starts := sent + picture, starts + [start];
        if end != NextFrame {
          ending := if end == Abort then Stopped else Failed;
          return;
        }
        count := count + 1;
        if !awake {
          return;
        }
      }
    }

    /** The capture thread for any answers of CaptureScreen.  The pictures sent carry
        stamps in order, whatever was paused; the loop's first clock readings are more than
        the frame interval less one millisecond apart; `count` is the turns that got a
        frame or no news; the failure callback is called exactly when CaptureScreen failed. */
    method CapturePictureThread(shots: seq<Shot>)
      returns (count: nat, sent: seq<nat>, starts: seq<nat>, ending: Ending, ghost taken: seq<Taken>)
      requires Valid() && fps > 0 && world.capture.Starting? && forall k :: 0 <= k < |shots| ==> ShotOk(shots[k])
      modifies this`world, this`gaps, this`history, this`trace
      ensures Valid() && old(history) <= history && old(trace) <= trace
      ensures sent == Sent(world) && Sorted(sent) && WellStamped(world.startTime, sent, taken, starts)
      ensures count <= |shots| && |sent| == PicturesIn(shots[..count])
      ensures WellPaced(starts, 1000.0 / fps as real)
      ensures count <= |starts| <= count + 1 && Counted() == old(Counted()) + count
      ensures match ending
              case StillCapturing => true
              case Stopped => world.capture.CaptureDone? && AbortFunc() && EndedBy({CaptureAborts, CapturePushAborts})
              case Failed => world.capture.CaptureDone? && EndedBy({CaptureFails})
    {
      hide Inv, Behaves, Mine, Sent, After, Enabled, Aborting, Frames, WellPaced, Sorted, ShotOk, WellStamped, PicturesIn;
      var interval := 1000.0 / fps as real;
      var startTime := StartClock();
      count, sent, starts, ending, taken := CaptureLoop(startTime, shots, interval);
      SentInOrder(world);
    }
  }
}
