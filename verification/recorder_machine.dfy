/** ScreenRecorder as its threads see it: the user interface sets the status, the
    capture thread and the voice thread push, the encoder thread pops until the queue is
    empty and the status says stop.  Each action is one indivisible step of one thread;
    the queue is the one that DataQueueMachine describes, reduced to order. */
module RecorderMachine {

  datatype Status = RECORDING | PAUSE | CANCELING | STOPPING | STOPPED

  /** An AVData: which allocation it is, and the fields that its type uses. */
  datatype Media = Audio(len: int) | Video(timestamp: nat, len: int, width: int, height: int)
  datatype Item = Item(id: nat, media: Media)

  /** Who is responsible for an AVData; `slot` counts all pushes so far. */
  datatype Place = WithCapture | WithVoice | InQueue(slot: nat) | WithEncoder | Freed

  datatype Capture =
    | NoCapture                       // not started, or joined
    | Starting                        // about to read start_time
    | AtTop                           // about to read the clock
    | Stamped(pts: nat)               // about to ask abort_func
    | Capturing(pts: nat)             // inside CaptureScreen
    | Pushing(item: Item)             // inside Push
    | FrameDone                       // about to read the clock again
    | Waiting(until: nat)             // in the sleep that paces the frames
    | Resting                         // at the test of the pause loop
    | Sleeping(until: nat)            // in the 100 ms sleep of the pause loop
    | CaptureDone

  datatype Voice = Silent | VoicePushing(item: Item)

  datatype Encoder =
    | NoEncoder
    | Opening                         // initialising and opening the muxer
    | Popping
    | Encoding(item: Item)
    | Leaving                         // out of the loop, status not yet STOPPED
    | Joining                         // waiting for the capture thread

  /** Times are nanoseconds of the clock; `pauseTime` is milliseconds.  `pushed` is
      everything ever pushed; the queue is the part from `head` on, and this recording
      began at `base`.  `places` says of each AVData who has it. */
  datatype State = State(
    status: Status, now: nat, startTime: nat, pauseTime: nat,
    capture: Capture, voice: Voice, encoder: Encoder,
    pushed: seq<Item>, base: nat, head: nat, handled: seq<Item>, places: seq<Place>)

  datatype Action =
    | Start | Stop | Cancel | Pause | Restart
    | Tick(elapsed: nat)
    | CaptureStarts | ReadClock | CaptureAborts | CaptureGoesOn
    | CaptureFails | CaptureNothing | CapturePicture(len: int, width: int, height: int)
    | CapturePushes | CapturePushAborts
    | FrameSleeps(milliseconds: nat) | FrameWakes | FrameGoesOn
    | PauseEnds | PauseSleeps | PauseWakes
    | VoiceArrives(voiceLen: int) | VoicePushes | VoicePushAborts
    | Opens | OpenFails | Pop | Encode | PopAborts | Finish | Join

  // ----- the clock -----

  const NS_PER_MS := 1_000_000
  const UINT64_MODULUS := 0x1_0000_0000_0000_0000
  /** The clock counts in a 64-bit signed number. */
  const CLOCK_END := 0x8000_0000_0000_0000

  /** std::llround of a time in milliseconds: to the nearest, halves up. */
  function Milliseconds(ns: nat): nat {
    (ns + NS_PER_MS / 2) / NS_PER_MS
  }

  /** long long minus uint64_t. */
  function Wrapped64(n: int): nat {
    if 0 <= n < UINT64_MODULUS then n else n % UINT64_MODULUS
  }

  function Timestamp(s: State): nat
    requires s.startTime <= s.now
  {
    Wrapped64(Milliseconds(s.now - s.startTime) - s.pauseTime)
  }

  // ----- the steps -----

  /** abort_func_ */
  predicate Aborting(status: Status) {
    status == CANCELING || status == STOPPING || status == STOPPED
  }

  function Initial(now: nat): State {
    State(STOPPED, now, now, 0, NoCapture, Silent, NoEncoder, [], 0, 0, [], [])
  }

  predicate Enabled(s: State, a: Action) {
    match a
    case Start => s.capture.NoCapture? && s.encoder.NoEncoder?
    case Stop => true
    case Cancel => true
    case Pause => s.status == RECORDING
    case Restart => s.status == PAUSE
    case Tick(elapsed) => s.now + elapsed < CLOCK_END
    case CaptureStarts => s.capture.Starting?
    case ReadClock => s.capture.AtTop? && s.startTime <= s.now
    case CaptureAborts => s.capture.Stamped? && Aborting(s.status)
    case CaptureGoesOn => s.capture.Stamped? && !Aborting(s.status)
    case CaptureFails => s.capture.Capturing?
    case CaptureNothing => s.capture.Capturing?
    case CapturePicture(len, _, height) => s.capture.Capturing? && len > 0 && height > 0
    case CapturePushes => s.capture.Pushing?
    case CapturePushAborts => s.capture.Pushing? && Aborting(s.status)
    case FrameSleeps(_) => s.capture.FrameDone?
    case FrameWakes => s.capture.Waiting? && s.capture.until <= s.now
    case FrameGoesOn => s.capture.FrameDone?
    case PauseEnds => s.capture.Resting? && s.status != PAUSE
    case PauseSleeps => s.capture.Resting? && s.status == PAUSE
    case PauseWakes => s.capture.Sleeping? && s.capture.until <= s.now
    case VoiceArrives(len) => s.voice.Silent? && len > 0
    case VoicePushes => s.voice.VoicePushing?
    case VoicePushAborts => s.voice.VoicePushing? && Aborting(s.status)
    case Opens => s.encoder.Opening?
    case OpenFails => s.encoder.Opening?
    case Pop => s.encoder.Popping? && s.head < |s.pushed|
    case Encode => s.encoder.Encoding?
    case PopAborts => s.encoder.Popping? && s.head == |s.pushed| && Aborting(s.status)
    case Finish => s.encoder.Leaving?
    case Join => s.encoder.Joining? && s.capture.CaptureDone?
  }

  /** `places` after `id` changed hands. */
  function Moved(places: seq<Place>, id: nat, place: Place): (r: seq<Place>)
    ensures |r| == |places|
  {
    if id < |places| then places[id := place] else places
  }

  /** Clear: everything still queued is deleted. */
  function Cleared(places: seq<Place>): (r: seq<Place>)
    ensures |r| == |places|
  {
    seq(|places|, i requires 0 <= i < |places| => if places[i].InQueue? then Freed else places[i])
  }

  function Pushed(s: State, item: Item): State {
    s.(pushed := s.pushed + [item], places := Moved(s.places, item.id, InQueue(|s.pushed|)))
  }

  /** startRecord: status, Clear, both threads. */
  function Started(s: State): State {
    s.(status := RECORDING, capture := Starting, encoder := Opening,
       base := |s.pushed|, head := |s.pushed|, handled := [], places := Cleared(s.places))
  }

  function After(s: State, a: Action): State
    requires Enabled(s, a)
  {
    match a
    case Start => Started(s)
    case Stop => s.(status := STOPPING)
    case Cancel => s.(status := CANCELING)
    case Pause => s.(status := PAUSE)
    case Restart => s.(status := RECORDING)
    case Tick(elapsed) => s.(now := s.now + elapsed)
    case CaptureStarts => s.(startTime := s.now, pauseTime := 0, capture := AtTop)
    case ReadClock => s.(capture := Stamped(Timestamp(s)))
    case CaptureAborts => s.(capture := CaptureDone)
    case CaptureGoesOn => s.(capture := Capturing(s.capture.pts))
    case CaptureFails => s.(capture := CaptureDone)
    case CaptureNothing => s.(capture := FrameDone)
    case CapturePicture(len, width, height) =>
      s.(capture := Pushing(Item(|s.places|, Video(s.capture.pts, len, width, height))),
         places := s.places + [WithCapture])
    case CapturePushes => Pushed(s, s.capture.item).(capture := FrameDone)
    case CapturePushAborts => s.(capture := CaptureDone, places := Moved(s.places, s.capture.item.id, Freed))
    case FrameSleeps(milliseconds) => s.(capture := Waiting(s.now + milliseconds * NS_PER_MS))
    case FrameWakes => s.(capture := Resting)
    case FrameGoesOn => s.(capture := Resting)
    case PauseEnds => s.(capture := AtTop)
    case PauseSleeps => s.(capture := Sleeping(s.now + 100 * NS_PER_MS), pauseTime := s.pauseTime + 100)
    case PauseWakes => s.(capture := Resting)
    case VoiceArrives(len) =>
      s.(voice := VoicePushing(Item(|s.places|, Audio(len))), places := s.places + [WithVoice])
    case VoicePushes => Pushed(s, s.voice.item).(voice := Silent)
    case VoicePushAborts => s.(voice := Silent, places := Moved(s.places, s.voice.item.id, Freed))
    case Opens => s.(encoder := Popping)
    case OpenFails => s.(encoder := NoEncoder)
    case Pop =>
      s.(head := s.head + 1, encoder := Encoding(s.pushed[s.head]),
         places := Moved(s.places, s.pushed[s.head].id, WithEncoder))
    case Encode =>
      s.(encoder := Popping, handled := s.handled + [s.encoder.item],
         places := Moved(s.places, s.encoder.item.id, Freed))
    case PopAborts => s.(encoder := Leaving)
    case Finish => s.(status := STOPPED, encoder := Joining)
    case Join => s.(encoder := NoEncoder, capture := NoCapture)
  }

  ghost predicate IsRun(s: State, actions: seq<Action>)
    decreases |actions|
  {
    actions == [] || (Enabled(s, actions[0]) && IsRun(After(s, actions[0]), actions[1..]))
  }

  function End(s: State, actions: seq<Action>): State
    requires IsRun(s, actions)
    decreases |actions|
  {
    if actions == [] then s else End(After(s, actions[0]), actions[1..])
  }

  // ----- ownership: every AVData is in exactly one place -----

  /** The queue holds exactly the AVData that are marked as queued, each in its slot. */
  predicate QueueMatches(places: seq<Place>, pushed: seq<Item>, head: nat) {
    && head <= |pushed|
    && (forall p :: head <= p < |pushed| ==> pushed[p].id < |places| && places[pushed[p].id] == InQueue(p))
    && (forall id :: 0 <= id < |places| && places[id].InQueue? ==>
          head <= places[id].slot < |pushed| && pushed[places[id].slot].id == id)
  }

  /** One thread's hands: `held` is the one AVData marked with `place`, or -1 for none. */
  predicate HandMatches(places: seq<Place>, held: int, place: Place) {
    && (held >= 0 ==> held < |places| && places[held] == place)
    && (forall id :: 0 <= id < |places| && places[id] == place ==> id == held)
  }

  function InCapture(s: State): int {
    if s.capture.Pushing? then s.capture.item.id else -1
  }

  function InVoice(s: State): int {
    if s.voice.VoicePushing? then s.voice.item.id else -1
  }

  function InEncoder(s: State): int {
    if s.encoder.Encoding? then s.encoder.item.id else -1
  }

  predicate Owned(s: State) {
    && QueueMatches(s.places, s.pushed, s.head)
    && HandMatches(s.places, InCapture(s), WithCapture)
    && HandMatches(s.places, InVoice(s), WithVoice)
    && HandMatches(s.places, InEncoder(s), WithEncoder)
  }

  /** The AVData that the action deletes. */
  function Deleted(s: State, a: Action): set<nat>
    requires Enabled(s, a)
  {
    match a
    case Start => set id | 0 <= id < |s.places| && s.places[id].InQueue?
    case CapturePushAborts => {s.capture.item.id}
    case VoicePushAborts => {s.voice.item.id}
    case Encode => {s.encoder.item.id}
    case _ => {}
  }

  /** A hand is not touched when something else moves to somewhere else. */
  lemma HandKept(places: seq<Place>, held: int, place: Place, id: nat, to: Place)
    requires HandMatches(places, held, place) && id < |places| && places[id] != place && to != place
    ensures HandMatches(Moved(places, id, to), held, place)
  {
  }

  lemma HandEmptied(places: seq<Place>, held: int, place: Place, to: Place)
    requires HandMatches(places, held, place) && held >= 0 && to != place
    ensures HandMatches(Moved(places, held, to), -1, place)
  {
  }

  lemma HandFilled(places: seq<Place>, place: Place, id: nat)
    requires HandMatches(places, -1, place) && id < |places|
    ensures HandMatches(Moved(places, id, place), id, place)
  {
  }

  lemma HandKeptByNew(places: seq<Place>, held: int, place: Place, to: Place)
    requires HandMatches(places, held, place) && to != place
    ensures HandMatches(places + [to], held, place)
  {
  }

  lemma HandTakesNew(places: seq<Place>, place: Place)
    requires HandMatches(places, -1, place)
    ensures HandMatches(places + [place], |places|, place)
  {
  }

  lemma HandKeptByClear(places: seq<Place>, held: int, place: Place)
    requires HandMatches(places, held, place) && !place.InQueue? && place != Freed
    ensures HandMatches(Cleared(places), held, place)
  {
  }

  lemma QueueKept(places: seq<Place>, pushed: seq<Item>, head: nat, id: nat, to: Place)
    requires QueueMatches(places, pushed, head) && id < |places| && !places[id].InQueue? && !to.InQueue?
    ensures QueueMatches(Moved(places, id, to), pushed, head)
  {
  }

  lemma QueueKeptByNew(places: seq<Place>, pushed: seq<Item>, head: nat, to: Place)
    requires QueueMatches(places, pushed, head) && !to.InQueue?
    ensures QueueMatches(places + [to], pushed, head)
  {
  }

  lemma QueueTakes(places: seq<Place>, pushed: seq<Item>, head: nat, item: Item)
    requires QueueMatches(places, pushed, head) && item.id < |places| && !places[item.id].InQueue?
    ensures QueueMatches(Moved(places, item.id, InQueue(|pushed|)), pushed + [item], head)
  {
  }

  lemma QueueGives(places: seq<Place>, pushed: seq<Item>, head: nat, to: Place)
    requires QueueMatches(places, pushed, head) && head < |pushed| && !to.InQueue?
    ensures QueueMatches(Moved(places, pushed[head].id, to), pushed, head + 1)
  {
    var id := pushed[head].id;
    assert places[id] == InQueue(head);
    forall p | head + 1 <= p < |pushed|
      ensures pushed[p].id != id
    {
      assert places[pushed[p].id] == InQueue(p);
    }
  }

  lemma QueueCleared(places: seq<Place>, pushed: seq<Item>)
    ensures QueueMatches(Cleared(places), pushed, |pushed|)
  {
  }

  lemma InitialOwned(now: nat)
    ensures Owned(Initial(now))
  {
  }

  /** A new AVData in one hand. */
  lemma CreateKeepsOwned(s: State, place: Place)
    requires Owned(s) && (if place == WithCapture then InCapture(s) == -1 else place == WithVoice && InVoice(s) == -1)
    ensures var places := s.places + [place];
            && QueueMatches(places, s.pushed, s.head)
            && HandMatches(places, if place == WithCapture then |s.places| else InCapture(s), WithCapture)
            && HandMatches(places, if place == WithVoice then |s.places| else InVoice(s), WithVoice)
            && HandMatches(places, InEncoder(s), WithEncoder)
  {
    hide QueueMatches, HandMatches;
    QueueKeptByNew(s.places, s.pushed, s.head, place);
    HandKeptByNew(s.places, InEncoder(s), WithEncoder, place);
    if place == WithCapture {
      HandTakesNew(s.places, WithCapture);
      HandKeptByNew(s.places, InVoice(s), WithVoice, place);
    } else {
      HandTakesNew(s.places, WithVoice);
      HandKeptByNew(s.places, InCapture(s), WithCapture, place);
    }
  }

  /** An AVData leaves the hand that holds it for `to`. */
  lemma LeavesHand(s: State, held: int, place: Place, to: Place)
    requires Owned(s) && held >= 0 && to != WithCapture && to != WithVoice && to != WithEncoder
    requires match place
             case WithCapture => held == InCapture(s)
             case WithVoice => held == InVoice(s)
             case WithEncoder => held == InEncoder(s)
             case _ => false
    ensures var places := Moved(s.places, held, to);
            && held < |s.places| && s.places[held] == place
            && HandMatches(places, if place == WithCapture then -1 else InCapture(s), WithCapture)
            && HandMatches(places, if place == WithVoice then -1 else InVoice(s), WithVoice)
            && HandMatches(places, if place == WithEncoder then -1 else InEncoder(s), WithEncoder)
  {
    hide QueueMatches, Moved;
    assert held < |s.places| && s.places[held] == place;
    HandEmptied(s.places, held, place, to);
    if place != WithCapture {
      HandKept(s.places, InCapture(s), WithCapture, held, to);
    }
    if place != WithVoice {
      HandKept(s.places, InVoice(s), WithVoice, held, to);
    }
    if place != WithEncoder {
      HandKept(s.places, InEncoder(s), WithEncoder, held, to);
    }
  }

  lemma DeleteKeepsOwned(s: State, a: Action, held: int, place: Place)
    requires Owned(s) && Enabled(s, a)
    requires match a
             case CapturePushAborts => held == InCapture(s) && place == WithCapture
             case VoicePushAborts => held == InVoice(s) && place == WithVoice
             case Encode => held == InEncoder(s) && place == WithEncoder
             case _ => false
    ensures Owned(After(s, a))
  {
    hide QueueMatches, HandMatches, Moved;
    LeavesHand(s, held, place, Freed);
    QueueKept(s.places, s.pushed, s.head, held, Freed);
  }

  lemma PushKeepsOwned(s: State, a: Action, item: Item, place: Place)
    requires Owned(s) && Enabled(s, a)
    requires match a
             case CapturePushes => item == s.capture.item && place == WithCapture
             case VoicePushes => item == s.voice.item && place == WithVoice
             case _ => false
    ensures Owned(After(s, a))
  {
    hide QueueMatches, HandMatches, Moved;
    LeavesHand(s, item.id, place, InQueue(|s.pushed|));
    QueueTakes(s.places, s.pushed, s.head, item);
  }

  lemma PopKeepsOwned(s: State)
    requires Owned(s) && Enabled(s, Pop)
    ensures Owned(After(s, Pop))
  {
    hide HandMatches, Moved;
    var id := s.pushed[s.head].id;
    assert s.places[id] == InQueue(s.head);
    QueueGives(s.places, s.pushed, s.head, WithEncoder);
    HandFilled(s.places, WithEncoder, id);
    HandKept(s.places, InCapture(s), WithCapture, id, WithEncoder);
    HandKept(s.places, InVoice(s), WithVoice, id, WithEncoder);
  }

  lemma StartKeepsOwned(s: State)
    requires Owned(s) && Enabled(s, Start)
    ensures Owned(After(s, Start))
  {
    hide QueueMatches, HandMatches, Cleared;
    QueueCleared(s.places, s.pushed);
    HandKeptByClear(s.places, -1, WithCapture);
    HandKeptByClear(s.places, InVoice(s), WithVoice);
    HandKeptByClear(s.places, -1, WithEncoder);
  }

  lemma OwnedKept(s: State, a: Action)
    requires Owned(s) && Enabled(s, a)
    ensures Owned(After(s, a))
  {
    hide QueueMatches, HandMatches, Moved, Cleared;
    match a
    case CapturePicture(_, _, _) => CreateKeepsOwned(s, WithCapture);
    case VoiceArrives(_) => CreateKeepsOwned(s, WithVoice);
    case CapturePushAborts => DeleteKeepsOwned(s, a, s.capture.item.id, WithCapture);
    case VoicePushAborts => DeleteKeepsOwned(s, a, s.voice.item.id, WithVoice);
    case Encode => DeleteKeepsOwned(s, a, s.encoder.item.id, WithEncoder);
    case CapturePushes => PushKeepsOwned(s, a, s.capture.item, WithCapture);
    case VoicePushes => PushKeepsOwned(s, a, s.voice.item, WithVoice);
    case Pop => PopKeepsOwned(s);
    case Start => StartKeepsOwned(s);
    case _ =>
  }

  /** Where an AVData can be found, looking at the threads and the queue. */
  predicate FoundAt(s: State, id: nat, place: Place)
    requires id < |s.places|
  {
    match place
    case WithCapture => InCapture(s) == id
    case WithVoice => InVoice(s) == id
    case WithEncoder => InEncoder(s) == id
    case InQueue(p) => s.head <= p < |s.pushed| && s.pushed[p].id == id
    case Freed => s.places[id] == Freed
  }

  /** Every AVData is found in exactly one place: one thread, one slot, or freed. */
  lemma FoundInOnePlace(s: State, id: nat, place: Place)
    requires Owned(s) && id < |s.places|
    ensures FoundAt(s, id, place) <==> s.places[id] == place
  {
  }

  /** Nothing is deleted twice or deleted behind the back of its owner, and what is
      freed stays freed. */
  lemma DeletedOnce(s: State, a: Action, id: nat)
    requires Owned(s) && Enabled(s, a) && id < |s.places|
    ensures id < |After(s, a).places|
    ensures id in Deleted(s, a) ==> s.places[id] != Freed
    ensures After(s, a).places[id] == Freed <==> s.places[id] == Freed || id in Deleted(s, a)
  {
    match a
    case Start =>
    case CapturePushAborts =>
    case VoicePushAborts =>
    case Encode =>
    case Pop => FoundInOnePlace(s, s.pushed[s.head].id, InQueue(s.head));
    case _ =>
  }

  // ----- the encoder works in push order and leaves nothing behind -----

  function InHand(s: State): seq<Item> {
    if s.encoder.Encoding? then [s.encoder.item] else []
  }

  /** What was handled, then what is in hand, is what was popped since the start. */
  predicate Ordered(s: State) {
    s.base <= s.head <= |s.pushed| && s.handled + InHand(s) == s.pushed[s.base..s.head]
  }

  lemma OrderedKept(s: State, a: Action)
    requires Ordered(s) && Enabled(s, a)
    ensures Ordered(After(s, a))
  {
    match a
    case Pop => assert s.pushed[s.base..s.head + 1] == s.pushed[s.base..s.head] + [s.pushed[s.head]];
    case CapturePushes => assert (s.pushed + [s.capture.item])[s.base..s.head] == s.pushed[s.base..s.head];
    case VoicePushes => assert (s.pushed + [s.voice.item])[s.base..s.head] == s.pushed[s.base..s.head];
    case _ =>
  }

  /** The encoder leaves its loop only when told to stop, and then everything pushed
      since the start has been handled, in push order. */
  lemma NothingLeftBehind(s: State)
    requires Ordered(s) && Enabled(s, PopAborts)
    ensures Aborting(s.status) && After(s, PopAborts).handled == s.pushed[s.base..]
  {
  }

  /** Once the encoder has been told to stop, no button takes that back. */
  predicate Sticky(s: State) {
    s.encoder.Leaving? || s.encoder.Joining? ==> Aborting(s.status)
  }

  lemma StickyKept(s: State, a: Action)
    requires Sticky(s) && Enabled(s, a)
    ensures Sticky(After(s, a))
    ensures Aborting(s.status) && a != Start ==> Aborting(After(s, a).status)
  {
    hide Timestamp, Moved, Cleared;
  }

  /** An encoder thread that runs has a capture thread to join. */
  predicate Paired(s: State) {
    s.encoder.NoEncoder? || !s.capture.NoCapture?
  }

  lemma PairedKept(s: State, a: Action)
    requires Paired(s) && Enabled(s, a)
    ensures Paired(After(s, a))
  {
    hide Timestamp, Moved, Cleared;
  }

  // ----- time stamps -----

  /** The pictures pushed in this recording carry stamps in order, none above `t`. */
  predicate StampsUpTo(pushed: seq<Item>, base: nat, t: int) {
    && (forall k :: base <= k < |pushed| && pushed[k].media.Video? ==> pushed[k].media.timestamp <= t)
    && (forall j, k :: base <= j < k < |pushed| && pushed[j].media.Video? && pushed[k].media.Video? ==>
          pushed[j].media.timestamp <= pushed[k].media.timestamp)
  }

  /** The stamp that a reading of the clock at `t` would give. */
  function Reading(s: State, t: nat): int
    requires s.startTime <= t
  {
    Milliseconds(t - s.startTime) - s.pauseTime
  }

  /** Where the clock stands against the newest stamp, phase by phase. */
  ghost predicate Clocked(s: State) {
    && s.startTime <= s.now < CLOCK_END
    && (s.voice.VoicePushing? ==> s.voice.item.media.Audio?)
    && match s.capture
       case Starting => StampsUpTo(s.pushed, s.base, -1)
       case AtTop => 0 <= Reading(s, s.now) && StampsUpTo(s.pushed, s.base, Reading(s, s.now))
       case FrameDone => 0 <= Reading(s, s.now) && StampsUpTo(s.pushed, s.base, Reading(s, s.now))
       case Waiting(_) => 0 <= Reading(s, s.now) && StampsUpTo(s.pushed, s.base, Reading(s, s.now))
       case Resting => 0 <= Reading(s, s.now) && StampsUpTo(s.pushed, s.base, Reading(s, s.now))
       case Stamped(p) => p <= Reading(s, s.now) && StampsUpTo(s.pushed, s.base, p)
       case Capturing(p) => p <= Reading(s, s.now) && StampsUpTo(s.pushed, s.base, p)
       case Pushing(item) =>
         item.media.Video? && item.media.timestamp <= Reading(s, s.now) &&
         StampsUpTo(s.pushed, s.base, item.media.timestamp)
       case Sleeping(until) =>
         s.startTime <= until && 0 <= Reading(s, until) && StampsUpTo(s.pushed, s.base, Reading(s, until))
       case _ => exists t :: StampsUpTo(s.pushed, s.base, t)
  }

  /** `ms` is the nearest number of milliseconds, and the upper one of two equally near. */
  predicate IsNearest(ns: int, ms: int) {
    -NS_PER_MS <= 2 * (ns - ms * NS_PER_MS) < NS_PER_MS
  }

  lemma MillisecondsAreNearest(ns: nat)
    ensures IsNearest(ns, Milliseconds(ns))
  {
  }

  lemma MillisecondsGrow(a: nat, b: nat)
    requires a <= b
    ensures Milliseconds(a) <= Milliseconds(b)
  {
  }

  /** A sleep of the pause loop is worth exactly what is added to pause_time. */
  lemma PauseIsExact(ns: nat)
    ensures Milliseconds(ns + 100 * NS_PER_MS) == Milliseconds(ns) + 100
  {
  }

  lemma StampsLoosen(pushed: seq<Item>, base: nat, t: int, u: int)
    requires StampsUpTo(pushed, base, t) && t <= u
    ensures StampsUpTo(pushed, base, u)
  {
  }

  lemma StampsTakeVideo(pushed: seq<Item>, base: nat, item: Item)
    requires item.media.Video? && StampsUpTo(pushed, base, item.media.timestamp)
    ensures StampsUpTo(pushed + [item], base, item.media.timestamp)
  {
  }

  lemma StampsTakeAudio(pushed: seq<Item>, base: nat, item: Item, t: int)
    requires item.media.Audio? && StampsUpTo(pushed, base, t)
    ensures StampsUpTo(pushed + [item], base, t)
  {
  }

  lemma ReadingsGrow(s: State, t: nat, u: nat)
    requires s.startTime <= t <= u
    ensures Reading(s, t) <= Reading(s, u)
  {
    MillisecondsGrow(t - s.startTime, u - s.startTime);
  }

  lemma TimestampIsReading(s: State)
    requires s.startTime <= s.now < CLOCK_END && 0 <= Reading(s, s.now)
    ensures Timestamp(s) == Reading(s, s.now)
  {
  }

  /** Time passes. */
  lemma TickKeepsClocked(s: State, elapsed: nat)
    requires Clocked(s) && Enabled(s, Tick(elapsed))
    ensures Clocked(After(s, Tick(elapsed)))
  {
    hide StampsUpTo, Milliseconds;
    ReadingsGrow(s, s.now, s.now + elapsed);
    if s.capture.AtTop? || s.capture.FrameDone? || s.capture.Waiting? || s.capture.Resting? {
      StampsLoosen(s.pushed, s.base, Reading(s, s.now), Reading(s, s.now + elapsed));
    }
  }

  lemma NoTimeYet()
    ensures Milliseconds(0) == 0
  {
  }

  lemma ClockKeepsClocked(s: State, a: Action)
    requires Clocked(s) && Enabled(s, a)
    requires a == CaptureStarts || a == ReadClock || a == PauseSleeps || a == PauseWakes
    ensures Clocked(After(s, a))
  {
    hide StampsUpTo, Milliseconds;
    match a
    case CaptureStarts =>
      NoTimeYet();
      StampsLoosen(s.pushed, s.base, -1, 0);
    case ReadClock => TimestampIsReading(s);
    case PauseSleeps => PauseIsExact(s.now - s.startTime);
    case PauseWakes =>
      ReadingsGrow(s, s.capture.until, s.now);
      StampsLoosen(s.pushed, s.base, Reading(s, s.capture.until), Reading(s, s.now));
  }

  lemma CaptureKeepsClocked(s: State, a: Action)
    requires Clocked(s) && Enabled(s, a)
    requires a.CaptureAborts? || a.CaptureGoesOn? || a.CaptureFails? || a.CaptureNothing? || a.CapturePicture? ||
             a.CapturePushAborts? || a.FrameSleeps? || a.FrameWakes? || a.FrameGoesOn? || a.PauseEnds?
    ensures Clocked(After(s, a))
  {
    hide StampsUpTo, Milliseconds, Moved;
    match a
    case CaptureNothing => StampsLoosen(s.pushed, s.base, s.capture.pts, Reading(s, s.now));
    case _ =>
  }

  lemma PushKeepsClocked(s: State, a: Action)
    requires Clocked(s) && Enabled(s, a) && (a == CapturePushes || a == VoicePushes)
    ensures Clocked(After(s, a))
  {
    hide StampsUpTo, Milliseconds, Moved;
    if a == CapturePushes {
      var item := s.capture.item;
      StampsTakeVideo(s.pushed, s.base, item);
      StampsLoosen(s.pushed + [item], s.base, item.media.timestamp, Reading(s, s.now));
    } else {
      forall t | StampsUpTo(s.pushed, s.base, t)
        ensures StampsUpTo(s.pushed + [s.voice.item], s.base, t)
      {
        StampsTakeAudio(s.pushed, s.base, s.voice.item, t);
      }
    }
  }

  lemma StartKeepsClocked(s: State)
    requires Clocked(s) && Enabled(s, Start)
    ensures Clocked(After(s, Start))
  {
    hide Cleared;
    assert StampsUpTo(s.pushed, |s.pushed|, -1);
  }

  lemma ClockedKept(s: State, a: Action)
    requires Clocked(s) && Enabled(s, a)
    ensures Clocked(After(s, a))
  {
    hide StampsUpTo, Milliseconds, Moved, Cleared, Timestamp;
    match a
    case Start => StartKeepsClocked(s);
    case Tick(elapsed) => TickKeepsClocked(s, elapsed);
    case CaptureStarts => ClockKeepsClocked(s, a);
    case ReadClock => ClockKeepsClocked(s, a);
    case PauseSleeps => ClockKeepsClocked(s, a);
    case PauseWakes => ClockKeepsClocked(s, a);
    case CaptureAborts => CaptureKeepsClocked(s, a);
    case CaptureGoesOn => CaptureKeepsClocked(s, a);
    case CaptureFails => CaptureKeepsClocked(s, a);
    case CaptureNothing => CaptureKeepsClocked(s, a);
    case CapturePicture(_, _, _) => CaptureKeepsClocked(s, a);
    case CapturePushAborts => CaptureKeepsClocked(s, a);
    case FrameSleeps(_) => CaptureKeepsClocked(s, a);
    case FrameWakes => CaptureKeepsClocked(s, a);
    case FrameGoesOn => CaptureKeepsClocked(s, a);
    case PauseEnds => CaptureKeepsClocked(s, a);
    case CapturePushes => PushKeepsClocked(s, a);
    case VoicePushes => PushKeepsClocked(s, a);
    case _ =>
  }

  // ----- what the encoder divides by -----

  predicate ItemShaped(item: Item) {
    match item.media
    case Audio(len) => len > 0
    case Video(_, len, _, height) => len > 0 && height > 0
  }

  /** Audio has a length and pictures have a height, wherever they are. */
  predicate Shaped(s: State) {
    && (forall k :: 0 <= k < |s.pushed| ==> ItemShaped(s.pushed[k]))
    && (s.capture.Pushing? ==> ItemShaped(s.capture.item))
    && (s.voice.VoicePushing? ==> ItemShaped(s.voice.item))
    && (s.encoder.Encoding? ==> ItemShaped(s.encoder.item))
  }

  lemma ShapedKept(s: State, a: Action)
    requires Shaped(s) && Enabled(s, a) && s.head <= |s.pushed|
    ensures Shaped(After(s, a))
  {
    hide ItemShaped, Moved, Cleared, Timestamp;
    match a
    case CapturePicture(len, width, height) => NewPictureShaped(|s.places|, s.capture.pts, len, width, height);
    case VoiceArrives(len) => NewVoiceShaped(|s.places|, len);
    case _ =>
  }

  lemma NewPictureShaped(id: nat, timestamp: nat, len: int, width: int, height: int)
    requires len > 0 && height > 0
    ensures ItemShaped(Item(id, Video(timestamp, len, width, height)))
  {
  }

  lemma NewVoiceShaped(id: nat, len: int)
    requires len > 0
    ensures ItemShaped(Item(id, Audio(len)))
  {
  }

  // ----- all runs -----

  ghost predicate Inv(s: State) {
    Owned(s) && Ordered(s) && Sticky(s) && Paired(s) && Clocked(s) && Shaped(s)
  }

  lemma InvInitially(now: nat)
    requires now < CLOCK_END
    ensures Inv(Initial(now))
  {
    InitialOwned(now);
    assert StampsUpTo([], 0, 0);
    assert Shaped(Initial(now));
  }

  lemma HeadInside(s: State)
    requires Ordered(s)
    ensures s.head <= |s.pushed|
  {
  }

  lemma InvKept(s: State, a: Action)
    requires Inv(s) && Enabled(s, a)
    ensures Inv(After(s, a))
  {
    HeadInside(s);
    hide Owned, Ordered, Sticky, Paired, Clocked, Shaped, After, Enabled;
    OwnedKept(s, a);
    PairedKept(s, a);
    ShapedKept(s, a);
    OrderedKept(s, a);
    StickyKept(s, a);
    ClockedKept(s, a);
  }

  lemma {:induction false} ReachableStatesAreSafe(s: State, actions: seq<Action>)
    requires Inv(s) && IsRun(s, actions)
    ensures Inv(End(s, actions))
    decreases |actions|
  {
    hide Inv, After, Enabled;
    if actions != [] {
      InvKept(s, actions[0]);
      ReachableStatesAreSafe(After(s, actions[0]), actions[1..]);
    }
  }

  /** The unsigned subtraction never wraps: in every reachable state a new time stamp and
      the time paused make the time since the start, to the nearest millisecond. */
  lemma TimestampsNeverWrap(now: nat, actions: seq<Action>)
    requires now < CLOCK_END && IsRun(Initial(now), actions)
    requires Enabled(End(Initial(now), actions), ReadClock)
    ensures var s := End(Initial(now), actions);
            s.pauseTime <= Milliseconds(s.now - s.startTime) &&
            Timestamp(s) == Milliseconds(s.now - s.startTime) - s.pauseTime &&
            IsNearest(s.now - s.startTime, Timestamp(s) + s.pauseTime)
  {
    hide Owned, Ordered, Sticky, Shaped, After, IsRun, StampsUpTo, Milliseconds;
    InvInitially(now);
    ReachableStatesAreSafe(Initial(now), actions);
    TimestampIsReading(End(Initial(now), actions));
    MillisecondsAreNearest(End(Initial(now), actions).now - End(Initial(now), actions).startTime);
  }

  /** In every reachable state the encoder has handled the pictures of this recording in
      stamp order, whatever was paused. */
  lemma HandledStampsNeverDecrease(now: nat, actions: seq<Action>, j: nat, k: nat)
    requires now < CLOCK_END && IsRun(Initial(now), actions)
    requires var h := End(Initial(now), actions).handled;
             j < k < |h| && h[j].media.Video? && h[k].media.Video?
    ensures var h := End(Initial(now), actions).handled;
            h[j].media.timestamp <= h[k].media.timestamp
  {
    hide Owned, Sticky, Shaped, After, Enabled, IsRun;
    InvInitially(now);
    ReachableStatesAreSafe(Initial(now), actions);
    var s := End(Initial(now), actions);
    HandledIsPushed(s, j);
    HandledIsPushed(s, k);
    assert s.pushed[s.base + j].media.timestamp <= s.pushed[s.base + k].media.timestamp;
  }

  /** The pictures of one recording are pushed in stamp order, through any pauses. */
  lemma PushedStampsNeverDecrease(now: nat, actions: seq<Action>, j: nat, k: nat)
    requires now < CLOCK_END && IsRun(Initial(now), actions)
    requires var s := End(Initial(now), actions);
             s.base <= j < k < |s.pushed| && s.pushed[j].media.Video? && s.pushed[k].media.Video?
    ensures var s := End(Initial(now), actions);
            s.pushed[j].media.timestamp <= s.pushed[k].media.timestamp
  {
    hide Owned, Sticky, Shaped, Ordered, After, Enabled, IsRun;
    InvInitially(now);
    ReachableStatesAreSafe(Initial(now), actions);
    assert exists t :: StampsUpTo(End(Initial(now), actions).pushed, End(Initial(now), actions).base, t);
  }

  lemma HandledIsPushed(s: State, k: nat)
    requires Ordered(s) && k < |s.handled|
    ensures s.base + k < s.head && s.handled[k] == s.pushed[s.base + k]
  {
    assert (s.handled + InHand(s))[k] == s.pushed[s.base..s.head][k];
  }

  /** In every reachable state every AVData ever made is in exactly one place. */
  lemma EveryMediaHasOneOwner(now: nat, actions: seq<Action>, id: nat, place: Place)
    requires now < CLOCK_END && IsRun(Initial(now), actions) && id < |End(Initial(now), actions).places|
    ensures var s := End(Initial(now), actions); FoundAt(s, id, place) <==> s.places[id] == place
  {
    hide Owned, Ordered, Sticky, Clocked, Shaped, After, Enabled, IsRun, FoundAt;
    InvInitially(now);
    ReachableStatesAreSafe(Initial(now), actions);
    FoundInOnePlace(End(Initial(now), actions), id, place);
  }

  /** Whenever the encoder leaves its loop, it was told to stop and has handled all that
      was pushed since the start, in push order. */
  lemma EveryExitIsComplete(now: nat, actions: seq<Action>)
    requires now < CLOCK_END && IsRun(Initial(now), actions)
    requires Enabled(End(Initial(now), actions), PopAborts)
    ensures var s := End(Initial(now), actions);
            Aborting(s.status) && s.base <= |s.pushed| && After(s, PopAborts).handled == s.pushed[s.base..]
  {
    hide Owned, Sticky, Clocked, Shaped, IsRun;
    InvInitially(now);
    ReachableStatesAreSafe(Initial(now), actions);
    NothingLeftBehind(End(Initial(now), actions));
  }
}
