/** What the recorder can still do from a given state, whatever its threads and buttons
    do next, and how a history of states is a run of RecorderMachine. */
module RecorderFutures {
  import opened RecorderMachine

  datatype Thread = BUTTONS | CLOCK | CAPTURE | VOICE | ENCODER

  function By(a: Action): Thread {
    match a
    case Start => BUTTONS
    case Stop => BUTTONS
    case Cancel => BUTTONS
    case Pause => BUTTONS
    case Restart => BUTTONS
    case Tick(_) => CLOCK
    case VoiceArrives(_) => VOICE
    case VoicePushes => VOICE
    case VoicePushAborts => VOICE
    case Opens => ENCODER
    case OpenFails => ENCODER
    case Pop => ENCODER
    case Encode => ENCODER
    case PopAborts => ENCODER
    case Finish => ENCODER
    case Join => ENCODER
    case _ => CAPTURE
  }

  /** The steps of one thread, in order. */
  function Mine(who: Thread, actions: seq<Action>): seq<Action> {
    if actions == [] then []
    else (if By(actions[0]) == who then [actions[0]] else []) + Mine(who, actions[1..])
  }

  lemma GluesAssociate<T>(a: seq<T>, b: seq<T>, c: seq<T>)
    ensures a + b + c == a + (b + c)
  {
  }

  lemma {:induction false} MineGlued(who: Thread, a: seq<Action>, b: seq<Action>)
    ensures Mine(who, a + b) == Mine(who, a) + Mine(who, b)
  {
    hide By;
    if a == [] {
      assert a + b == b;
    } else {
      MineGlued(who, a[1..], b);
      var first := if By(a[0]) == who then [a[0]] else [];
      assert Mine(who, a + b) == first + Mine(who, a[1..] + b) by {
        assert (a + b)[1..] == a[1..] + b;
      }
      GluesAssociate(first, Mine(who, a[1..]), Mine(who, b));
    }
  }

  /** How many pictures are taken. */
  function Pictures(actions: seq<Action>): nat {
    if actions == [] then 0
    else (if actions[0].CapturePicture? then 1 else 0) + Pictures(actions[1..])
  }

  // ----- after stop or cancel -----

  /** The most steps the capture thread still makes when abort_func says yes. */
  function StepsLeft(c: Capture): nat {
    match c
    case Capturing(_) => 7
    case Pushing(_) => 6
    case FrameDone => 5
    case Waiting(_) => 4
    case Sleeping(_) => 4
    case Resting => 3
    case Starting => 3
    case AtTop => 2
    case Stamped(_) => 1
    case CaptureDone => 0
    case NoCapture => 0
  }

  lemma StepsLeftFall(s: State, a: Action)
    requires Enabled(s, a) && Aborting(s.status) && a != Start
    ensures Aborting(After(s, a).status)
    ensures StepsLeft(After(s, a).capture) + (if By(a) == CAPTURE then 1 else 0) <= StepsLeft(s.capture)
    ensures a.CapturePicture? ==> s.capture.Capturing?
    ensures After(s, a).capture.Capturing? ==> s.capture.Capturing? && !a.CapturePicture?
  {
    hide Timestamp, Moved;
  }

  lemma {:induction false} AbortingRunsDown(s: State, actions: seq<Action>)
    requires IsRun(s, actions) && Aborting(s.status) && Start !in actions
    ensures Aborting(End(s, actions).status)
    ensures |Mine(CAPTURE, actions)| <= StepsLeft(s.capture)
    ensures Pictures(actions) <= if s.capture.Capturing? then 1 else 0
    decreases |actions|
  {
    hide After, Enabled, Aborting, StepsLeft;
    if actions != [] {
      StepsLeftFall(s, actions[0]);
      AbortingRunsDown(After(s, actions[0]), actions[1..]);
    }
  }

  /** Until the next start nothing takes the stop back, the capture thread makes at most
      seven more steps, and at most one more picture is taken. */
  ghost predicate WindsDown(s: State) {
    forall actions :: IsRun(s, actions) && Start !in actions ==>
      && Aborting(End(s, actions).status)
      && |Mine(CAPTURE, actions)| <= 7
      && Pictures(actions) <= 1
  }

  lemma AbortWindsDown(s: State)
    requires Aborting(s.status)
    ensures WindsDown(s)
  {
    forall actions | IsRun(s, actions) && Start !in actions
      ensures Aborting(End(s, actions).status) && |Mine(CAPTURE, actions)| <= 7 && Pictures(actions) <= 1
    {
      AbortingRunsDown(s, actions);
    }
  }

  // ----- completed or canceled -----

  lemma {:induction false} CancelingRuns(s: State, actions: seq<Action>)
    requires IsRun(s, actions) && Start !in actions && Stop !in actions
    requires s.status == CANCELING || s.status == STOPPED
    ensures End(s, actions).status == CANCELING || End(s, actions).status == STOPPED
    ensures s.status == CANCELING && Finish !in actions ==> End(s, actions).status == CANCELING
    decreases |actions|
  {
    hide Timestamp, Moved;
    if actions != [] {
      CancelingRuns(After(s, actions[0]), actions[1..]);
    }
  }

  /** Unless the stop button follows, the encoder will find the recording canceled. */
  ghost predicate WillBeCanceled(s: State) {
    forall actions :: IsRun(s, actions) && Start !in actions && Stop !in actions && Finish !in actions ==>
      End(s, actions).status == CANCELING
  }

  lemma CancelIsKept(s: State)
    requires s.status == CANCELING
    ensures WillBeCanceled(s)
  {
    forall actions | IsRun(s, actions) && Start !in actions && Stop !in actions && Finish !in actions
      ensures End(s, actions).status == CANCELING
    {
      CancelingRuns(s, actions);
    }
  }

  lemma {:induction false} CompletingRuns(s: State, actions: seq<Action>)
    requires IsRun(s, actions) && Start !in actions && Cancel !in actions
    requires s.status == STOPPING || s.status == STOPPED
    ensures End(s, actions).status == STOPPING || End(s, actions).status == STOPPED
    decreases |actions|
  {
    hide Timestamp, Moved;
    if actions != [] {
      CompletingRuns(After(s, actions[0]), actions[1..]);
    }
  }

  /** Unless the cancel button follows, the encoder will find the recording complete. */
  ghost predicate WillBeCompleted(s: State) {
    forall actions :: IsRun(s, actions) && Start !in actions && Cancel !in actions ==>
      End(s, actions).status != CANCELING && Aborting(End(s, actions).status)
  }

  lemma StopIsKept(s: State)
    requires s.status == STOPPING
    ensures WillBeCompleted(s)
  {
    forall actions | IsRun(s, actions) && Start !in actions && Cancel !in actions
      ensures End(s, actions).status != CANCELING && Aborting(End(s, actions).status)
    {
      CompletingRuns(s, actions);
    }
  }

  // ----- during a pause -----

  function PicturesLeft(c: Capture): nat {
    if c.Starting? || c.AtTop? || c.Stamped? || c.Capturing? then 1 else 0
  }

  lemma PicturesLeftFall(s: State, a: Action)
    requires Enabled(s, a) && s.status == PAUSE && Sticky(s) && By(a) != BUTTONS
    ensures After(s, a).status == PAUSE && Sticky(After(s, a))
    ensures PicturesLeft(After(s, a).capture) + (if a.CapturePicture? then 1 else 0) <= PicturesLeft(s.capture)
  {
    hide Timestamp, Moved;
  }

  lemma {:induction false} PausedRuns(s: State, actions: seq<Action>)
    requires IsRun(s, actions) && s.status == PAUSE && Sticky(s) && Mine(BUTTONS, actions) == []
    ensures End(s, actions).status == PAUSE && Pictures(actions) <= PicturesLeft(s.capture)
    decreases |actions|
  {
    hide After, Enabled, Sticky, PicturesLeft, By;
    if actions != [] {
      PicturesLeftFall(s, actions[0]);
      PausedRuns(After(s, actions[0]), actions[1..]);
    }
  }

  /** Until the next button the recorder stays paused and takes at most one picture. */
  ghost predicate StaysPaused(s: State) {
    forall actions :: IsRun(s, actions) && Mine(BUTTONS, actions) == [] ==>
      End(s, actions).status == PAUSE && Pictures(actions) <= 1
  }

  lemma PauseStays(s: State)
    requires s.status == PAUSE && Sticky(s)
    ensures StaysPaused(s)
  {
    forall actions | IsRun(s, actions) && Mine(BUTTONS, actions) == []
      ensures End(s, actions).status == PAUSE && Pictures(actions) <= 1
    {
      PausedRuns(s, actions);
    }
  }

  // ----- after start -----

  lemma {:induction false} BaseStays(s: State, actions: seq<Action>)
    requires IsRun(s, actions) && Start !in actions && Ordered(s)
    ensures End(s, actions).base == s.base && Ordered(End(s, actions))
    decreases |actions|
  {
    hide Ordered, Timestamp, Moved, Enabled;
    if actions != [] {
      OrderedKept(s, actions[0]);
      BaseStays(After(s, actions[0]), actions[1..]);
    }
  }

  /** Nothing pushed before this state is ever handled in this recording: what is handled
      is, in order, what was pushed since. */
  ghost predicate StartsAfresh(s: State) {
    forall actions :: IsRun(s, actions) && Start !in actions ==>
      var e := End(s, actions); |s.pushed| <= |e.pushed| && e.handled <= e.pushed[|s.pushed|..]
  }

  lemma StartIsFresh(s: State)
    requires Ordered(s) && s.base == |s.pushed|
    ensures StartsAfresh(s)
  {
    forall actions | IsRun(s, actions) && Start !in actions
      ensures var e := End(s, actions); |s.pushed| <= |e.pushed| && e.handled <= e.pushed[|s.pushed|..]
    {
      BaseStays(s, actions);
      HandledIsPrefix(End(s, actions));
    }
  }

  lemma HandledIsPrefix(s: State)
    requires Ordered(s)
    ensures s.handled <= s.pushed[s.base..]
  {
    forall k | 0 <= k < |s.handled|
      ensures s.handled[k] == s.pushed[s.base..][k]
    {
      HandledIsPushed(s, k);
    }
    assert |s.handled| <= |s.handled + InHand(s)|;
  }

  // ----- after a muxer that does not open -----

  /** Nobody joins the capture thread any more: no other recording starts and nothing is
      handled, whatever is pressed. */
  lemma {:induction false} FailedOpenIsFinal(s: State, actions: seq<Action>)
    requires IsRun(s, actions) && s.encoder.NoEncoder? && !s.capture.NoCapture?
    ensures Start !in actions && Mine(ENCODER, actions) == [] && End(s, actions).handled == s.handled
    decreases |actions|
  {
    hide Timestamp, Moved, Cleared;
    if actions != [] {
      FailedOpenIsFinal(After(s, actions[0]), actions[1..]);
    }
  }

  /** The recorder is stuck after a failed opening: it never records again. */
  ghost predicate Stuck(s: State) {
    forall actions :: IsRun(s, actions) ==> Start !in actions && End(s, actions).handled == s.handled
  }

  lemma FailedOpenIsStuck(s: State)
    requires Inv(s) && Enabled(s, OpenFails)
    ensures Stuck(After(s, OpenFails))
  {
    var t := After(s, OpenFails);
    forall actions | IsRun(t, actions)
      ensures Start !in actions && End(t, actions).handled == t.handled
    {
      FailedOpenIsFinal(t, actions);
    }
  }

  // ----- histories -----

  predicate Follows(s: State, a: Action, t: State) {
    Enabled(s, a) && t == After(s, a)
  }

  /** `history` is the states of a run from the beginning, `trace` its steps. */
  predicate Behaves(history: seq<State>, trace: seq<Action>) {
    && |history| == |trace| + 1
    && history[0].now < CLOCK_END && history[0] == Initial(history[0].now)
    && (forall k :: 0 <= k < |trace| ==> Follows(history[k], trace[k], history[k + 1]))
  }

  lemma BehaviourGrows(history: seq<State>, trace: seq<Action>, a: Action, t: State)
    requires Behaves(history, trace) && Follows(history[|trace|], a, t)
    ensures Behaves(history + [t], trace + [a]) && (history + [t])[|trace| + 1] == t
  {
    hide Follows;
  }

  lemma {:induction false} RunGrows(s: State, actions: seq<Action>, a: Action)
    requires IsRun(s, actions) && Enabled(End(s, actions), a)
    ensures IsRun(s, actions + [a]) && End(s, actions + [a]) == After(End(s, actions), a)
    decreases |actions|
  {
    hide After, Enabled;
    if actions == [] {
      assert actions + [a] == [a];
    } else {
      assert (actions + [a])[1..] == actions[1..] + [a];
      RunGrows(After(s, actions[0]), actions[1..], a);
    }
  }

  /** Every state of a history is reached by the steps before it. */
  lemma {:induction false} BehaviourIsRun(history: seq<State>, trace: seq<Action>, k: nat)
    requires Behaves(history, trace) && k <= |trace|
    ensures IsRun(history[0], trace[..k]) && End(history[0], trace[..k]) == history[k]
  {
    hide After, Enabled, Initial;
    if k > 0 {
      BehaviourIsRun(history, trace, k - 1);
      assert Follows(history[k - 1], trace[k - 1], history[k - 1 + 1]);
      assert trace[..k] == trace[..k - 1] + [trace[k - 1]];
      RunGrows(history[0], trace[..k - 1], trace[k - 1]);
    }
  }
}
