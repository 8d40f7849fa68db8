# A verified model of the screen recorder's core

This project models the parts of the screen recorder that do not depend on
Direct3D, waveIn, FFmpeg or Qt, and proves what they promise.  `dafny verify
dfyconfig.toml` checks all of it with Dafny 4.11.

| file | what it models |
|---|---|
| `data_queue_machine.dfy`, `data_queue_calls.dfy`, `data_queue.dfy` | the byte-bounded queue: first as a machine with a mutex owner, sleepers and pending notifications; then what becomes of every call in it; then the class whose critical sections are that machine's steps |
| `recorder_machine.dfy`, `recorder_futures.dfy`, `screen_recorder.dfy` | the recorder: first as a machine of status, capture clock, voice thread, encoder thread and the owner of each AVData; then what can still happen after each button; then the buttons and the loops of the threads as code whose every step is a step of that machine |
| `av_muxer.dfy` | the audio re-framer over an array buffer |
| `tls_key_race.dfy`, `tls_slots.dfy`, `tls_exit.dfy` | thread-local storage: the lock-free race for the native key, slots and vectors with a re-entrant allocator, and the destructor scans of an exiting thread |
| `file_path.dfy`, `path_components.dfy`, `path_laws.dfy`, `file_path_class.dfy`, `create_directory.dfy` | FilePath in the Windows configuration, as functions and as a class, and recursive directory creation over an abstract file system that others change too |
| `int_types.dfy`, `range_checks.dfy`, `checked_math.dfy`, `checked_ops.dfy`, `clamped_math.dfy` | `base/numerics` on integers of any width: casts, comparisons, range checks, overflow checks, saturation |
| `icu_utf.dfy`, `utf_conversions.dfy`, `utf_laws.dfy` | UTF-8 and UTF-16: the ICU macros on bit vectors, the conversion loops, and their laws.  The encodings follow section 3 of RFC 3629 and section 2.1 of RFC 2781 |
| `string_number.dfy` | parsing of numbers and of hexadecimal bytes |
| `cursor_mask.dfy` | clipping and drawing of the mouse pointer |
| `rand_util.dfy` | rejection sampling |

Code that changes state is a class or a method with its loops; each is tied by
its `ensures` to a function of the old state, and the properties are lemmas about
that function.  Threads are step relations: one action is one indivisible step of
one thread, atomics are sequentially consistent, and a theorem about "every
reachable state" holds for any number of threads and any interleaving.  What the
outside world answers (the clock, the allocator, destructors, the encoder, the file
system, the D3D surface, random draws) is a parameter that may be anything.

## Where the code falls short of the obvious property

These are stated as lemmas, with the exact condition or with a concrete input.

- `DataQueue::Clear` sends no notification.  It keeps the wake-up guarantee exactly
  when no producer sleeps or a notification is pending (`ClearKeepsWakeupsExactlyWhen`);
  `ClearCanStrandAProducer` reaches a state where it does not.
- `DirName(Append(p, c))` and `BaseName(Append(p, c))` invert `Append` exactly
  when `c` does not turn into a drive, as "a:b" does on an empty path or on ".".
  Appending in two steps and splitting what was appended have their own few exceptions
  (`AppendInTwoSteps`, `ComponentsOfAppend`).
- `DirName` turns an absolute path without a drive into a relative one exactly when it is
  cut to a single separator (`ParentOfAbsolute`): the parent of "////x" is "/".
- `GetComponents` drops one leading "." exactly for "." and for paths such as
  "./a" (`DropsLeadingDot`); "./" alone keeps it.
- The UTF conversions count with a 32-bit index.  A text of 2^31 units or more is cut
  or ignored while success is reported (`LongTextIsIgnored`, `TwoGigabytesAreIgnored`);
  `RoundTrip16` and `RoundTrip8` say exactly when the round trip is the identity.
- Unsigned parsing takes a minus sign and wraps: "-5" succeeds with 4294967291
  (`UnsignedMinusWraps`).  `UnsignedMinusMagnitude` says what comes out of every text, and
  `DecimalParsing` exactly when it is what decimal parsing promises.
- `HexStringToInt` accepts "0x" without digits as 0 (`HexPrefixAlone`), and above 2^32 it
  may succeed with the value modulo 2^32 (`HexParsing`).
- A failed audio frame drops the rest of its chunk, and a frame that the writer
  refuses is still counted (`FailureDropsTail`).
- When the muxer does not open, `run` returns without resetting the status or joining the
  capture thread: in no run that follows does a recording start (`FailedOpenIsStuck`).
- Time stamps pass through an `int`: they reach the file intact exactly below 2^31
  milliseconds (`PtsKeptExactlyWhenShort`), and jump back there (`PtsJumpsBack`).
- The pointer rectangle is the intersection with the desktop exactly unless the shape
  sticks out on both sides (`ClipIsIntersectionExactlyWhen`); an odd height of a
  monochrome shape is lost for good (`PictureCapturer.Clip`).
- The thread-exit loop hits NOTREACHED after 256 scans even if the last of them found
  nothing to do: exactly when it called nothing (`FalseAlarmExactlyWhen`), as with one
  stubborn destructor (`FalseAlarmIsPossible`).

## Model

| member | source | states |
|---|---|---|
| DataQueueMachine.ReachableStatesAreSafe | screen_record/src/data_queue.h:18-86 | in every run of any number of threads: mutual exclusion, first-in first-out, total_size_ exact and below MAX_SIZE plus one item, no lost wake-up |
| DataQueueMachine.NeverBothAsleep | screen_record/src/data_queue.h:21-64 | a producer and a consumer never sleep at the same time with no notification pending, though notification happens on edges only |
| DataQueueMachine.NoDeadlock | screen_record/src/data_queue.h:18-67 | in every reachable state a thread inside a call can go on, or all are idle or asleep, and then only producers at a full queue or only consumers at an empty one |
| DataQueueMachine.BusyThreadsGoOn | screen_record/src/data_queue.h:21-67 | a thread that is not asleep can take its next step or waits for the owner of the mutex, who can; an abort is possible exactly where waiting is |
| DataQueueMachine.SleepersMayWake | screen_record/src/data_queue.h:23-53 | a sleeper may wake without a reason, or because anybody outside notifies, and then enters again with the item it carried |
| DataQueueCalls.NoCallIsLost | screen_record/src/data_queue.h:18-67 | for each thread of any run: the calls it began are, in order and with their items, those that ended and the one it is in the middle of; a woken call goes on |
| DataQueueCalls.CallsConserved | screen_record/src/data_queue.h:18-67 | in every run, with or without Clear: each call was begun as often as it succeeded, was told to abort and is in progress |
| DataQueueCalls.ItemsAccountedFor | screen_record/src/data_queue.h:18-67 | without Clear: an item was given to Push as often as it was enqueued, refused by an abort, and is in the hands of a thread |
| DataQueueCalls.PopsAccountedFor | screen_record/src/data_queue.h:43-67 | without Clear: the calls of Pop begun are the items popped, the aborts, and the calls in progress |
| DataQueueCalls.WokenGoesOn | screen_record/src/data_queue.h:23-53 | notify_all neither ends nor changes the call of a sleeper |
| DataQueueMachine.RecorderQueueNeverWraps | screen_record/src/screen_recorder.h:12 | with MAX_SIZE 2^30 and any int lengths total_size_ is the sum of the queued lengths and never wraps uint32 |
| DataQueueMachine.WakeupsKept | screen_record/src/data_queue.h:23-39 | every step keeps: a sleeping consumer means an empty queue or a pending notify_all, a sleeping producer a full one or a pending notify_all |
| DataQueueMachine.FifoKept | screen_record/src/data_queue.h:32-58 | every step keeps: popped items followed by queued items are the pushed items in order |
| DataQueueMachine.EnqueueAccounting | screen_record/src/data_queue.h:32-33 | a push below MAX_SIZE adds exactly the item's length without wrapping |
| DataQueueMachine.DequeueAccounting | screen_record/src/data_queue.h:57-59 | a pop subtracts exactly the front item's length without wrapping |
| DataQueueMachine.MutualExclusionKept | screen_record/src/data_queue.h:22-47 | only the owner of the mutex is inside a critical section |
| DataQueueMachine.AccountingKept | screen_record/src/data_queue.h:32-82 | every step keeps total_size_ equal to the sum of the queued lengths |
| DataQueueMachine.ClearKeepsWakeupsExactlyWhen | screen_record/src/data_queue.h:69-82 | emptying without notifying keeps the wake-up guarantee if and only if no producer sleeps or a notification is pending |
| DataQueueMachine.ClearCanStrandAProducer | screen_record/src/data_queue.h:69-82 | a reachable state in which Clear leaves a producer asleep on an empty queue |
| DataQueueClass.DataQueue.Enqueue | screen_record/src/data_queue.h:30-33 | the class's critical section is the machine's push step |
| DataQueueClass.DataQueue.Dequeue | screen_record/src/data_queue.h:55-59 | the class's critical section is the machine's pop step |
| DataQueueClass.DataQueue.Push | screen_record/src/data_queue.h:18-41 | it sleeps only while full and not aborted, gives up only when full and aborted, and otherwise appends the item; it notifies exactly if the queue was empty |
| DataQueueClass.DataQueue.AwaitItem | screen_record/src/data_queue.h:48-53 | the wait loop ends with an item, or with an empty queue and an abort |
| DataQueueClass.DataQueue.Pop | screen_record/src/data_queue.h:43-67 | it sleeps only while empty and not aborted, gives up only when empty and aborted, and otherwise removes the front item; it notifies exactly if the queue was full |
| DataQueueClass.DataQueue.Clear | screen_record/src/data_queue.h:69-82 | every queued item is deleted once, in order, and total_size_ ends at 0 |
| RecorderMachine.ReachableStatesAreSafe | screen_record/src/screen_recorder.cc:117-341 | every run keeps ownership, push order, the stop status of a leaving encoder, the clock invariant, and that every AVData has a positive length and height |
| RecorderMachine.OwnedKept | screen_record/src/screen_recorder.cc:117-341 | every step keeps what threads and queue hold in agreement with who owns what |
| RecorderMachine.ClockedKept | screen_record/src/screen_recorder.cc:259-311 | every step keeps the clock at or above the newest stamp plus the time paused |
| RecorderMachine.EveryMediaHasOneOwner | screen_record/src/screen_recorder.cc:192-238 | in every reachable state each AVData is in exactly one place: capture thread, voice thread, one queue slot, encoder, or freed |
| RecorderMachine.DeletedOnce | screen_record/src/screen_recorder.cc:209-288 | no step deletes an AVData that was already freed, and nothing else frees one |
| RecorderMachine.EveryExitIsComplete | screen_record/src/screen_recorder.cc:192-210 | whenever the encoder leaves its loop it was told to stop and has handled all that was pushed since the start, in push order |
| RecorderMachine.OrderedKept | screen_record/src/screen_recorder.cc:192-210 | what was handled, then what is in hand, is what was popped, after every step |
| RecorderMachine.NothingLeftBehind | screen_record/src/screen_recorder.cc:194-196 | at the step that leaves the loop, all that was pushed since the start has been handled |
| RecorderMachine.StickyKept | screen_record/src/screen_recorder.cc:136-156 | once told to stop, no button but start takes it back |
| RecorderMachine.TimestampsNeverWrap | screen_record/src/screen_recorder.cc:271-275 | in every reachable state the unsigned subtraction does not wrap, and stamp plus pause is the time since the start to the nearest millisecond |
| RecorderMachine.MillisecondsAreNearest | screen_record/src/screen_recorder.cc:272-275 | llround gives the nearest number of milliseconds, the upper one of two equally near |
| RecorderMachine.HandledStampsNeverDecrease | screen_record/src/screen_recorder.cc:271-310 | the pictures handled in a recording carry stamps in order, across any pauses |
| RecorderMachine.PushedStampsNeverDecrease | screen_record/src/screen_recorder.cc:270-311 | so do all pictures pushed in a recording, handled or not |
| RecorderMachine.ShapedKept | screen_record/src/screen_recorder.cc:201 | no step lets an AVData without a positive length and, for a picture, height reach the encoder, which divides by it |
| RecorderMachine.PauseIsExact | screen_record/src/screen_recorder.cc:307-310 | one 100 ms sleep moves the rounded clock by exactly the 100 added to pause_time |
| ScreenRecording.ScreenRecorder.StartRecord | screen_record/src/screen_recorder.cc:117-134 | all that was queued is deleted, and in every run up to the next start only what is pushed from now on is handled |
| RecorderFutures.StartIsFresh | screen_record/src/screen_recorder.cc:124-133 | in every run from a start to the next, what is handled is a prefix of what was pushed since |
| ScreenRecording.ScreenRecorder.StopRecord | screen_record/src/screen_recorder.cc:136-138 | in every run up to the next start: abort_func stays true, the capture thread makes at most seven more steps and takes at most one picture, and unless cancel follows the recording is reported as completed |
| RecorderFutures.AbortingRunsDown | screen_record/src/screen_recorder.cc:270-311 | from any state in which abort_func is true, every run has at most the number of capture steps that the phase of the thread leaves, and at most one picture if it is inside CaptureScreen, otherwise none |
| RecorderFutures.AbortWindsDown | screen_record/src/screen_recorder.cc:95-99 | hence every stop or cancel winds the capture thread down whatever buttons but start follow |
| RecorderFutures.StopIsKept | screen_record/src/screen_recorder.cc:136-138 | after stop, no run without start and cancel shows the encoder a canceled recording |
| ScreenRecording.ScreenRecorder.CancelRecord | screen_record/src/screen_recorder.cc:140-142 | the same winding down, and unless stop follows the recording is reported as canceled |
| RecorderFutures.CancelIsKept | screen_record/src/screen_recorder.cc:214-219 | after cancel, in every run without start and stop the status is CANCELING until the encoder makes it STOPPED |
| ScreenRecording.ScreenRecorder.PauseRecord | screen_record/src/screen_recorder.cc:144-149 | in every run up to the next button the recorder stays paused and takes at most one more picture |
| RecorderFutures.PausedRuns | screen_record/src/screen_recorder.cc:270-311 | while no button is pressed a paused capture thread takes one picture if it is between the pause loop and CaptureScreen, otherwise none, and the encoder never makes the status STOPPED |
| RecorderFutures.PauseStays | screen_record/src/screen_recorder.cc:307-310 | hence a pause lasts until a button ends it |
| ScreenRecording.ScreenRecorder.RestartRecord | screen_record/src/screen_recorder.cc:151-156 | undoes the pause: pressed right after it, it gives back exactly the state before |
| ScreenRecording.ScreenRecorder.AwaitItem | screen_record/src/screen_recorder.cc:194 | Pop waits through gaps, in which others do anything, until there is an item or abort_func says yes |
| ScreenRecording.ScreenRecorder.Pop | screen_record/src/screen_recorder.cc:193-196 | the step of the machine: the front item, or, from an empty queue and told to stop, the end of the loop with everything pushed handled |
| ScreenRecording.ScreenRecorder.EncodeOne | screen_record/src/screen_recorder.cc:198-209 | the call into the muxer with the exact stride and the pts, then the deletion |
| ScreenRecording.ScreenRecorder.Drain | screen_record/src/screen_recorder.cc:192-210 | whatever other threads do in between, each pass is Pop then Encode and the calls are those for what was handled, in order |
| ScreenRecording.ScreenRecorder.Leave | screen_record/src/screen_recorder.cc:212-221 | the callback is the one for the status found between the loop and the assignment of STOPPED; then the capture thread is joined |
| ScreenRecording.ScreenRecorder.EncodeUntilStopped | screen_record/src/screen_recorder.cc:192-221 | the loop and what follows it: passes of Pop and Encode, then PopAborts, Finish and Join; at the end all that was pushed up to leaving the loop was handled; canceled exactly if the status read after the loop was CANCELING |
| ScreenRecording.ScreenRecorder.OpenMuxer | screen_record/src/screen_recorder.cc:181-190 | after a failed opening no run of any buttons and threads starts another recording or handles anything |
| RecorderFutures.FailedOpenIsFinal | screen_record/src/screen_recorder.cc:183-190 | once the encoder has gone without joining the capture thread, every run is without start and without any step of an encoder |
| RecorderFutures.FailedOpenIsStuck | screen_record/src/screen_recorder.cc:183-190 | that is where every failed opening in a safe state leads |
| RecorderMachine.PairedKept | screen_record/src/screen_recorder.cc:128-133 | every step keeps: an encoder thread that runs has a capture thread to join |
| ScreenRecording.ScreenRecorder.Run | screen_record/src/screen_recorder.cc:158-224 | whatever other threads and buttons do in between: either the muxer fails to open and the recorder is stuck, or there is one exact call for each AVData handled, in push order, up to everything pushed when the loop was left, and the callback is canceled exactly for CANCELING |
| ScreenRecording.ScreenRecorder.HandleVoiceDataCallback | screen_record/src/screen_recorder.cc:226-238 | the AVData ends up at the back of the queue or, only if told to abort, deleted |
| ScreenRecording.ScreenRecorder.CaptureTurn | screen_record/src/screen_recorder.cc:270-293 | exactly one picture is sent if one was captured and not refused; its stamp plus pause_time is the time since start_time to the nearest millisecond, and it stands at the back of the queue with its sizes; a failed capture ends the loop |
| ScreenRecording.ScreenRecorder.Pace | screen_record/src/screen_recorder.cc:295-304 | a sleep is asked for exactly if time is left of the interval, for all whole milliseconds of what is left; after it more than the interval less one millisecond has passed |
| ScreenRecording.ScreenRecorder.Rest | screen_record/src/screen_recorder.cc:307-310 | the pause loop adds to pause_time what it adds in the machine, and sends nothing |
| ScreenRecording.ScreenRecorder.CapturePictureThread | screen_record/src/screen_recorder.cc:240-341 | for any answers of CaptureScreen and anything other threads and buttons do: one picture sent for each captured in a counted turn, in order; each stamp plus the pause before it is the time from start_time to the clock reading of its turn to the nearest millisecond; the stamps are sorted; the turns start more than the interval less one millisecond apart; the failure callback belongs to a failed capture alone |
| ScreenRecording.SentInOrder | screen_record/src/screen_recorder.cc:270-311 | in every safe state the stamps sent so far are sorted, and there are none before start_time is read |
| ScreenRecording.OthersKeepSame | screen_record/src/screen_recorder.cc:117-341 | no step of another thread or button touches what a thread relies on in a gap: its own state, and for capture the stamps sent |
| RecorderFutures.BehaviourIsRun | screen_record/src/screen_recorder.cc:117-341 | every state in the history that the class keeps is reached by the steps before it, so the theorems about reachable states hold of the class |
| ScreenRecording.FileStampsNeverDecrease | screen_record/src/screen_recorder.cc:192-207 | the muxer calls of any reachable recorder carry pts in order as long as they are below 2^31 |
| ScreenRecording.PtsKeptExactlyWhenShort | screen_record/src/screen_recorder.cc:202-204 | a stamp reaches the frame unchanged if and only if it is below 2^31 |
| ScreenRecording.PtsJumpsBack | screen_record/src/screen_recorder.cc:202-204 | at 2^31 ms the frame's pts becomes negative |
| AudioReframing.AVMuxer.constructor | encoder/av_muxer.cc:240-241 | the frame buffer has the encoder's size and nothing waits in it |
| AudioReframing.AVMuxer.EncodeAudioFrame | encoder/av_muxer.cc:135-182 | for any data, any state and any answers of encoder and writer: result, waiting bytes, sample count and written frames |
| AudioReframing.AVMuxer.EncodeData | encoder/av_muxer.cc:142-181 | the loop computes the frame-by-frame specification of the re-framing for any data and any answers |
| AudioReframing.AVMuxer.EncodeTurn | encoder/av_muxer.cc:149-178 | one turn: the bytes wait if they do not fill a frame, otherwise one frame goes through, or the call fails |
| AudioReframing.AVMuxer.EncodeFullFrame | encoder/av_muxer.cc:159-178 | one full frame: filled from the waiting bytes and the data, counted before it is written, buffer rewound only on success |
| AudioReframing.RunConserves | encoder/av_muxer.cc:135-182 | over any run of calls, each with its own answers, all successful: written frames followed by waiting bytes are what was there before followed by all the data; samples grow by those of the frames written |
| AudioReframing.FourBytesAreOneSample | encoder/audio_encoder.cc:117 | over any successful run four times the samples counted is the number of bytes written |
| AudioReframing.StampsArePositions | encoder/av_muxer.cc:166-168 | over any successful run four times the stamp of a frame is the position of its first byte |
| AudioReframing.CallStamps | encoder/av_muxer.cc:166-168 | in every call, failed or not, the frames written are stamped with the samples counted before each |
| AudioReframing.RunKeepsWellFramed | encoder/av_muxer.cc:135-182 | over any run, whatever fails: frames are full, less than a frame waits, stamps are a frame apart and below the count |
| AudioReframing.SuccessfulRunsAgree | encoder/av_muxer.cc:135-182 | two successful runs over the same bytes end alike, however the bytes were cut and whatever encoder and writer answered |
| AudioReframing.CallConserves | encoder/av_muxer.cc:149-181 | the same for one call |
| AudioReframing.CallKeepsWellFramed | encoder/av_muxer.cc:149-181 | whatever fails: frames are full, less than a frame waits, stamps are a frame apart and below the count |
| AudioReframing.CallSplits | encoder/av_muxer.cc:149-181 | one call on two chunks glued together equals two calls |
| AudioReframing.ChunkingDoesNotMatter | encoder/av_muxer.cc:135-182 | any two ways of cutting the same bytes give the same frames, stamps and waiting bytes |
| AudioReframing.SuccessIsQuiet | encoder/av_muxer.cc:160-174 | a call that succeeded did what it does when nothing can fail |
| AudioReframing.FailureDropsTail | encoder/av_muxer.cc:160-174 | a failed call kept the frames of a prefix and dropped the rest, at least one frame's worth; at most one frame is counted but not written |
| TlsKeyRace.ReachableStatesAreSafe | base/threading/thread_local_storage.cc:61-91 | every interleaving of any number of threads keeps the key invariant |
| TlsKeyRace.MoverBalanced | base/threading/thread_local_storage.cc:65-88 | a thread has freed what it obtained but for what it still holds or installed |
| TlsKeyRace.ExclusionKept | base/threading/thread_local_storage.cc:65-88 | no step puts one key into two hands |
| TlsKeyRace.LeaksKept | base/threading/thread_local_storage.cc:65-88 | no step loses a live key |
| TlsKeyRace.WinnerKept | base/threading/thread_local_storage.cc:81-84 | at most one thread ever wins, and one has exactly when the key is set |
| TlsKeyRace.GlobalSetAtMostOnce | base/threading/thread_local_storage.cc:81-84 | g_native_tls_key leaves the sentinel at most once |
| TlsKeyRace.FinishedThreadsAgree | base/threading/thread_local_storage.cc:61-91 | every thread that finishes holds the installed, live key, and freed exactly the other keys it obtained, each once |
| TlsKeyRace.FreeIsSafe | base/threading/thread_local_storage.cc:76-88 | a key that is freed is live, not installed, and in nobody else's hands |
| TlsKeyRace.LiveKeysAreCounted | base/threading/thread_local_storage.cc:61-91 | live native keys are the installed one plus those in flight |
| TlsSlots.TablesHoldLastSet | base/threading/thread_local_storage.cc:231-251 | in every interleaving a table slot holds what its own thread stored last |
| TlsSlots.RegistryHoldsLastRegistered | base/threading/thread_local_storage.cc:216-228 | the destructor table holds what was registered last, and nothing after Free |
| TlsSlots.SlotsAreNeverReissued | base/threading/thread_local_storage.cc:211-229 | issued slots are 1, 2, 3 and so on, below 256, freed or not |
| TlsSlots.IssuedSlotsDiffer | base/threading/thread_local_storage.cc:211-214 | two issues never return the same slot |
| TlsSlots.UnissuedIsUntouched | base/threading/thread_local_storage.cc:211-251 | in every run, slots not yet issued are NULL in every thread and in the destructor table, because only issued numbers can be used and none is issued twice |
| TlsSlots.FreshSlotReadsNull | base/threading/thread_local_storage.cc:231-240 | after any run, a slot just issued reads NULL in every thread, and goes on doing so until that thread sets it |
| TlsStorage.ThreadLocalStorage.ConstructTlsVector | base/threading/thread_local_storage.cc:99-111 | what the allocator sets while it is re-entered survives the swap from the stack vector to the heap |
| TlsStorage.ThreadLocalStorage.Install | base/threading/thread_local_storage.cc:102-110 | the thread reads the new vector, every other thread its own |
| TlsStorage.ThreadLocalStorage.InstallStackVector | base/threading/thread_local_storage.cc:102-105 | the thread gets a zeroed vector of its own |
| TlsStorage.ThreadLocalStorage.InstallHeapVector | base/threading/thread_local_storage.cc:107-110 | the copy holds what the stack vector held |
| TlsStorage.ThreadLocalStorage.Initialize | base/threading/thread_local_storage.cc:204-219 | builds the vector if there is none, takes the next slot, registers the destructor |
| TlsStorage.ThreadLocalStorage.Free | base/threading/thread_local_storage.cc:221-229 | wipes the destructor and nothing else |
| TlsStorage.ThreadLocalStorage.Get | base/threading/thread_local_storage.cc:231-240 | returns what the history says this thread stored |
| TlsStorage.ThreadLocalStorage.Set | base/threading/thread_local_storage.cc:242-251 | stores in this thread's vector and no other |
| TlsExit.OnThreadExitInternal | base/threading/thread_local_storage.cc:114-170 | for any destructors: the scans made and the vector left are those of the specification, at most 256 of them |
| TlsExit.ScanOnce | base/threading/thread_local_storage.cc:144-161 | one descending scan in place, each slot cleared before its destructor runs |
| TlsExit.ScanRepeatedly | base/threading/thread_local_storage.cc:134-166 | the outer loop with any number of attempts; NOTREACHED exactly when all were used |
| TlsExit.ScansAreBounded | base/threading/thread_local_storage.cc:134-166 | the number of scans is bounded and every scan but the last called something |
| TlsExit.IdleScanIsClean | base/threading/thread_local_storage.cc:146-160 | a scan calls nothing if and only if every slot has no value or, when it is looked at, no destructor; then it changes nothing |
| TlsExit.ScanByNumber | base/threading/thread_local_storage.cc:136-166 | the n-th scan begins at the step and on the vector that the scans before it lead to |
| TlsExit.EarlyStopIsClean | base/threading/thread_local_storage.cc:136-166 | if the loop stops early, its last scan met no slot with both a value and, when it was looked at, a destructor, and left the vector as it found it |
| TlsExit.FalseAlarmExactlyWhen | base/threading/thread_local_storage.cc:162-166 | NOTREACHED is hit with nothing left to do if and only if all scans were made and the last one called nothing |
| TlsExit.FalseAlarmIsPossible | base/threading/thread_local_storage.cc:134-166 | a destructor that stores its value again until the scan before the last hits it that way, after 256 scans |
| TlsExit.QuietScan | base/threading/thread_local_storage.cc:146-161 | if destructors store nothing, a scan destroys exactly the values with a destructor, each once, in descending slot order |
| TlsExit.QuietExit | base/threading/thread_local_storage.cc:134-166 | then the exit needs at most two scans and destroys exactly those values |
| FilePaths.StripIsIdempotent | base/files/file_path.cc:346-366 | stripping twice is stripping once |
| FilePaths.StripIsPrefix | base/files/file_path.cc:346-366 | stripping removes trailing separators only and keeps the drive |
| FilePaths.StripFixpoints | base/files/file_path.cc:346-366 | it leaves a path alone exactly if it is a root or ends in no separator |
| FilePaths.StripKeepsRoots | base/files/file_path.cc:346-366 | a root, an exact double root and a bare drive survive, with or without a drive letter |
| FilePaths.DirNameShrinks | base/files/file_path.cc:183-217 | DirName is the path, strictly shorter, or "." |
| FilePaths.DirNameFixpoints | base/files/file_path.cc:183-217 | exactly "." and the roots are their own DirName |
| FilePaths.HeightFalls | base/files/file_path.cc:157-162 | a measure that falls on every step of the DirName chain, so both loops over it end |
| FilePaths.BaseNameOfAppend | base/files/file_path.cc:219-303 | BaseName(Append(p, c)) is c, if and only if c does not become a drive |
| FilePaths.DirNameOfAppend | base/files/file_path.cc:183-303 | DirName(Append(p, c)) is the stripped p, or "." for an empty p, if and only if c does not become a drive |
| FilePaths.AppendInTwoSteps | base/files/file_path.cc:261-303 | Append(p, x + "\" + d) is Append(Append(p, x), d), if and only if x is not a dot or a bare drive with nothing in front |
| FilePaths.AppendKeepsTheRest | base/files/file_path.cc:284-301 | Append(p, x + y) is Append(p, x) followed by y, separators and all, up to the first NUL |
| FilePaths.AppendNothing | base/files/file_path.cc:284-301 | appending nothing strips the path, and makes "." empty |
| FilePaths.AppendUpToNul | base/files/file_path.cc:262-268 | a component ends at its first NUL |
| PathLaws.NamesOfAlike | base/files/file_path.cc:183-240 | DirName and BaseName of paths that differ in the direction of slashes differ in nothing else |
| PathLaws.ComponentsOfAlike | base/files/file_path.cc:144-177 | the same for GetComponents |
| PathLaws.AppendToAlike | base/files/file_path.cc:261-303 | the same for Append |
| PathLaws.ComponentsOfAppend | base/files/file_path.cc:144-177 | GetComponents(Append(p, c)) is GetComponents(p) and c, if and only if p is not a dot with separators behind it, nor empty or "." with a c that is a dot or begins with a drive |
| PathLaws.ChainOfStripped | base/files/file_path.cc:144-177 | trailing separators make no component, except exactly behind a single dot |
| PathLaws.DrivesAreLetters | base/files/file_path.cc:35-49 | a drive is an ASCII letter and a colon |
| PathLaws.DotsAndBlanks | base/files/file_path.cc:333-339 | the five characters that may stand around a reference to the parent |
| PathComponents.ComponentsLossless | base/files/file_path.cc:144-177 | path and components have the same letters in the same order, but for exactly one dropped leading "." |
| PathComponents.ComponentsArePieces | base/files/file_path.cc:156-174 | every component is a contiguous piece of the path, and all but roots are non-empty and separator-free |
| PathComponents.EarlyExitAgrees | base/files/file_path.cc:320-344 | a path without ".." has no component that reads as one, so the early exit agrees with the full scan |
| FilePathClass.FilePath.constructor | base/files/file_path.cc:103-107 | everything from the first NUL on is dropped |
| FilePathClass.FilePath.StripTrailingSeparatorsInternal | base/files/file_path.cc:346-366 | the backwards loop, with its npos arithmetic, computes the stripped path |
| FilePathClass.FilePath.StripTrailingSeparators | base/files/file_path.cc:313-318 | a new path with the stripped value |
| FilePathClass.FilePath.DirName | base/files/file_path.cc:183-217 | the resizes through npos compute DirName |
| FilePathClass.FilePath.BaseName | base/files/file_path.cc:219-240 | the erasures compute BaseName |
| FilePathClass.FilePath.Append | base/files/file_path.cc:261-303 | the appends compute the function Append, whose laws hold for any component, with separators or without |
| FilePathClass.ParentOfAbsolute | base/files/file_path.cc:69-85 | DirName of a path is absolute if and only if the path is, and is not all separators, three or more, or one name behind four or more |
| FilePathClass.FilePath.PushBase | base/files/file_path.cc:158-160 | the base name is collected unless it is separators only |
| FilePathClass.FilePath.PushRoot | base/files/file_path.cc:164-174 | root and drive of the last path are collected |
| FilePathClass.FilePath.GetComponents | base/files/file_path.cc:144-177 | the loop over the DirName chain ends and collects the components |
| FilePathClass.FilePath.ReferencesParent | base/files/file_path.cc:320-344 | true exactly if some component reads as a reference to the parent |
| FilePathClass.DirNameComparison | base/files/file_path.cc:117-123 | comparing drives without case never changes when the GetComponents loop stops |
| CreateDirectories.FileSystem.CreateDirectoryAndGetError | base/files/file_util_win.cc:57-107 | whatever others add meanwhile: each lookup but the last found its ancestor absent in the file system of that moment; on success the missing directories were asked for one by one, the highest first, and the path and all ancestors up to the one found are directories; once a directory was found a failure carries the code of the refused create call, and there is none if nothing is refused without reason and others make directories only; undisturbed, it succeeds exactly when the nearest existing ancestor is a directory and creates exactly the missing ones |
| CreateDirectories.LookedUpAt | base/files/file_util_win.cc:60-87 | each file system looked at lies between the one before the call and the one after it |
| CreateDirectories.FileSystem.CreateLast | base/files/file_util_win.cc:91-106 | it succeeds exactly if the create call made the directory or answered that the name exists and a directory is there now, so losing the race to create the same directory counts as success and losing it to a file does not; otherwise the error is that of the create call |
| CreateDirectories.ChainMeansAll | base/files/file_util_win.cc:78-89 | a chain of directories makes every ancestor on it one |
| CreateDirectories.ExpectedAfterParent | base/files/file_util_win.cc:85-92 | what the recursion leaves for the parent plus the path itself is what the call promises |
| IntTypes.CastIs | base/numerics/safe_conversions_impl.h:668-687 | a cast is the value in range with the right residue |
| IntTypes.CommonKeepsShared | base/numerics/safe_conversions_impl.h:694-697 | what both types can represent survives conversion to their common type |
| RangeChecks.CheckIsExact | base/numerics/safe_conversions_impl.h:294-389 | for every pair of integer types the two flags of a RangeCheck are exactly underflow and overflow |
| RangeChecks.ContainedIsSubrange | base/numerics/safe_conversions_impl.h:158-188 | a static relation that says contained is never wrong |
| RangeChecks.ContainedExactlyWhen | base/numerics/safe_conversions_impl.h:158-188 | it is the subrange relation, except exactly for an unsigned type one bit narrower than a signed one |
| RangeChecks.FlagsOrder | base/numerics/safe_conversions_impl.h:694-697 | equal range flags mean both values fit both types; otherwise the flags tell the order |
| RangeChecks.TestIsExact | base/numerics/safe_conversions_impl.h:689-795 | the six comparison tests are mathematical comparison for every pair of types |
| RangeChecks.SafeCompareIsExact | base/numerics/safe_conversions_impl.h:797-812 | so is SafeCompare, through whatever promotion |
| RangeChecks.BigEnoughContains | base/numerics/safe_conversions_impl.h:493-532 | a promotion that says is_contained holds every value of both operands |
| RangeChecks.InRangeIsExact | base/numerics/safe_conversions.h:49-96 | the fast range tests agree with the RangeCheck and with the range |
| RangeChecks.RoundTripFits | base/numerics/safe_conversions.h:60-64 | casting down and back is the identity exactly on what fits |
| RangeChecks.UnsignedViewFits | base/numerics/safe_conversions.h:78-82 | seen as unsigned, a negative value lies above every limit |
| RangeChecks.CommonLimits | base/numerics/safe_conversions_impl.h:814-846 | CommonMax and CommonMin are the limits of the intersection |
| RangeChecks.SaturationIsClamping | base/numerics/safe_conversions.h:137-192 | SaturateFastOp and saturated_cast_impl both clamp to the destination range |
| CheckedMath.AddIsExact | base/numerics/checked_math_impl.h:23-39 | for every width and signedness: true exactly if the sum fits, and the result is the sum modulo 2^n |
| CheckedMath.SubIsExact | base/numerics/checked_math_impl.h:83-99 | the same for the difference |
| CheckedMath.MulIsExact | base/numerics/checked_math_impl.h:143-161 | the same for the product, with the bound one larger below zero and no division by zero |
| CheckedMath.XorBits | base/numerics/checked_math_impl.h:36-38 | the top bit of an xor says whether the top bits differ |
| CheckedMath.BitwiseAtEachBit | base/numerics/checked_math_impl.h:36-38 | xor and and, bit by bit |
| CheckedMath.AndBits | base/numerics/checked_math_impl.h:36-38 | the top bit of an and says whether both are set |
| CheckedMath.SignTest | base/numerics/checked_math_impl.h:36-38 | the sign expression says whether one of two pairs of patterns has equal signs |
| CheckedMath.SignsDiffer | base/numerics/checked_math_impl.h:153-154 | x ^ y is negative exactly if the signs differ |
| CheckedMath.MulOfMagnitudesIsExact | base/numerics/checked_math_impl.h:150-160 | the test by division bounds the product of the magnitudes exactly |
| CheckedMath.AbsIsExact | base/numerics/safe_conversions_impl.h:79-86 | SafeUnsignedAbs is the magnitude, of the lowest value too |
| CheckedOps.AddOpIsExact | base/numerics/checked_math_impl.h:44-81 | for any two types: valid if and only if both operands fit the promotion and the sum fits the result type, and then exact |
| CheckedOps.SubOpIsExact | base/numerics/checked_math_impl.h:104-141 | the same, although an unsigned difference may wrap in the promoted type |
| CheckedOps.MulOpIsExact | base/numerics/checked_math_impl.h:166-200 | the same, where a zero lets an operand out of range through |
| CheckedOps.DivOpIsExact | base/numerics/checked_math_impl.h:207-241 | valid if and only if the divisor is not zero, the operands fit (or the dividend is zero) and the truncated quotient fits |
| CheckedOps.OpsOnMachines | base/numerics/checked_math_impl.h:44-241 | on types of 8 to 64 bits the four operations fail exactly when the mathematical result does not fit the result type or an operand is negative while the result type is unsigned with 64 bits (a zero factor or dividend excepted), or the divisor is zero |
| CheckedOps.NoPromotionExactlyWhen | base/numerics/safe_conversions_impl.h:486-520 | on such types a promotion is missing exactly for the unsigned 64-bit type beside a signed one |
| CheckedOps.OperandFits | base/numerics/safe_conversions_impl.h:534-576 | an operand fits the promotion unless it is negative and the result type is unsigned with 64 bits |
| CheckedOps.ResultTypeReachesHighest | base/numerics/safe_conversions_impl.h:447-466 | the result type is an operand type, and the one that reaches highest |
| CheckedOps.QuotientTruncates | base/numerics/checked_math_impl.h:237 | the quotient of the magnitudes without remainder, with the sign of the operands |
| CheckedOps.DivisorStaysNonzero | base/numerics/checked_math_impl.h:230-237 | the promoted divisor is never zero |
| CheckedOps.ResultFitsPromotion | base/numerics/safe_conversions_impl.h:493-576 | every promotion holds every value of the result type |
| CheckedOps.SafeSum | base/numerics/safe_conversions_impl.h:534-548 | where arithmetic is called safe a sum cannot overflow, nor a difference unless the type is unsigned |
| CheckedOps.SafeProduct | base/numerics/safe_conversions_impl.h:534-548 | nor can a product |
| CheckedOps.WrappedDifference | base/numerics/checked_math_impl.h:132-139 | a difference that wrapped lands far outside the result type |
| CheckedOps.OverflowIsReal | base/numerics/checked_math_impl.h:221-228 | the guard before the division stops quotients that do not fit |
| CheckedOps.NoOtherOverflow | base/numerics/checked_math_impl.h:221-237 | and every other quotient fits the promotion |
| ClampedMath.AddIsClamped | base/numerics/clamped_math_impl.h:71-95 | clamped addition is the sum clamped to the type, on any machine widths |
| ClampedMath.SubIsClamped | base/numerics/clamped_math_impl.h:97-122 | clamped subtraction likewise |
| ClampedMath.MulIsClamped | base/numerics/clamped_math_impl.h:124-146 | clamped multiplication likewise |
| ClampedMath.DivIsClamped | base/numerics/clamped_math_impl.h:148-166 | the clamped truncated quotient; x/0 goes to the largest, the lowest or 0 by the sign of x |
| ClampedMath.NegIsClamped | base/numerics/clamped_math_impl.h:24-40 | saturated negation is the clamped negative |
| ClampedMath.AbsIsClamped | base/numerics/clamped_math_impl.h:49-62 | saturated absolute value is the clamped magnitude |
| ClampedMath.ReversibleShift | base/numerics/clamped_math_impl.h:200-205 | a shift is undone by the reverse shift if and only if nothing was lost |
| ClampedMath.LshIsClamped | base/numerics/clamped_math_impl.h:189-209 | for every shift count and every x, negative ones too: x times 2^s, clamped |
| ClampedMath.CheckedLshIsExact | base/numerics/checked_math_impl.h:267-292 | valid exactly for a non-negative x whose product fits, within the digits of the type, or zero shifted by all digits of a signed type |
| IcuUtf.Table3 | base/third_party/icu/icu_utf.h:123-130 | the three-byte table accepts exactly the second bytes of section 4 of RFC 3629 |
| IcuUtf.Table4 | base/third_party/icu/icu_utf.h:140-147 | the four-byte table likewise |
| IcuUtf.Next8ReadsEncoded | base/third_party/icu/icu_utf.h:233-256 | wherever the encoding of a scalar value stands, the reader reads it |
| IcuUtf.Next8AcceptsOnlyEncoded | base/third_party/icu/icu_utf.cc:72-129 | the reader advances inside the string and accepts nothing but encodings of scalar values |
| IcuUtf.ShortCutsAgree | base/third_party/icu/icu_utf.h:218-262 | the inline forms of the reader and the body of its slow path agree on every input |
| IcuUtf.Encoded16 | base/third_party/icu/icu_utf.h:313-350 | the two units of a supplementary value are a lead and a trail, and join to it |
| IcuUtf.Accepted16 | base/third_party/icu/icu_utf.h:336-350 | any lead and trail are the encoding of what they join to |
| IcuUtf.Append8IsEncode8 | base/third_party/icu/icu_utf.h:270-288 | the UTF-8 writer writes the encoding of RFC 3629 |
| IcuUtf.Append16IsEncode16 | base/third_party/icu/icu_utf.h:431-439 | the UTF-16 writer writes the encoding of RFC 2781 |
| UtfConversions.ReadUnicodeCharacter8 | base/strings/utf_string_conversion_utils.cc:31-42 | the UTF-8 reader: value, verdict, and the index left on the last byte |
| UtfConversions.ReadUnicodeCharacter16 | base/strings/utf_string_conversion_utils.cc:44-63 | the UTF-16 reader, with every reason to fail |
| UtfConversions.WriteUnicodeCharacter8 | base/strings/utf_string_conversion_utils.cc:65-79 | the output grows by exactly the encoding, whatever room was made for it |
| UtfConversions.WriteUnicodeCharacter16 | base/strings/utf_string_conversion_utils.cc:15-27 | the same for UTF-16 |
| UtfConversions.Utf8ToUtf16 | base/strings/utf_string_conversions.cc:16-42 | the loop computes verdict and text of the scan over the input that a 32-bit length covers |
| UtfConversions.Utf16ToUtf8 | base/strings/utf_string_conversions.cc:16-53 | the same in the other direction |
| UtfLaws.Utf16ToUtf8Meaning | base/strings/utf_string_conversions.cc:16-33 | true exactly on well-formed input, that is without unpaired surrogates; the text always encodes the input with each unpaired surrogate replaced by one U+FFFD |
| UtfLaws.Utf8ToUtf16Meaning | base/strings/utf_string_conversions.cc:16-33 | true exactly on well-formed input; the output is well-formed whatever the input |
| UtfLaws.RoundTrip16 | base/strings/utf_string_conversions.cc:16-53 | UTF-16 to UTF-8 and back is the identity if and only if the UTF-8 text is shorter than 2^31 |
| UtfLaws.RoundTrip8 | base/strings/utf_string_conversions.cc:16-53 | UTF-8 to UTF-16 and back is the identity if and only if the UTF-8 text is shorter than 2^31 |
| UtfLaws.ScanRepairs | base/strings/utf_string_conversion_utils.cc:44-63 | from any place between pairs, the scan replaces exactly the unpaired surrogates |
| UtfLaws.CleanExactlyWhenWellFormed8 | base/strings/utf_string_conversion_utils.cc:31-42 | no replacement is needed exactly on well-formed UTF-8 |
| UtfLaws.CleanExactlyWhenWellFormed16 | base/strings/utf_string_conversion_utils.cc:44-63 | the same for UTF-16 |
| UtfLaws.EncodedScans8 | base/strings/utf_string_conversions.cc:16-33 | scanning the encoding of scalar values gives them back |
| UtfLaws.EncodedScans16 | base/strings/utf_string_conversions.cc:16-33 | the same for UTF-16 |
| UtfLaws.Next16AcceptsOnlyEncoded | base/third_party/icu/icu_utf.h:336-350 | the UTF-16 reader advances inside the text and accepts nothing but encodings of scalar values |
| UtfLaws.LongTextIsIgnored | base/strings/utf_string_conversions.cc:21-22 | a text of 2^31 units and less than 2^32 converts to nothing, successfully |
| UtfLaws.TwoGigabytesAreIgnored | base/strings/utf_string_conversions.cc:21-22 | 2^31 letters are such a text |
| UtfLaws.LongerTextIsCut | base/strings/utf_string_conversions.cc:21-22 | a text of n units is converted as its first n mod 2^32 units, if that number is below 2^31 |
| UtfLaws.FailureTakesTheLongestTruncation | base/third_party/icu/icu_utf.cc:72-129 | where the reader fails it passes over the longest beginning of an encoding that stands there, or one byte if none does |
| UtfLaws.BeginsExactlyWhenTruncated | base/third_party/icu/icu_utf.h:123-147 | the tables tell exactly the beginnings of encodings |
| UtfLaws.LoneUnitBecomesFffd | base/strings/utf_string_conversions.cc:26-29 | a surrogate alone becomes EF BF BD, a byte of 128 or more alone U+FFFD, and neither is a success |
| StringNumbers.Invoke | base/strings/string_number_conversions.cc:78-102 | whitespace, sign and digit loops compute the specified verdict and output |
| StringNumbers.InvokeBase | base/strings/string_number_conversions.cc:108-138 | the digit loop, with the bounds check before each digit but the first |
| StringNumbers.PassesIsExact | base/strings/string_number_conversions.cc:143-167 | both bounds checks stop exactly the digit that would pass the limit |
| StringNumbers.FoldIsClamped | base/strings/string_number_conversions.cc:121-137 | from any point of the loop: the clamped value of the whole run, and success exactly for a run to the end that fits |
| StringNumbers.FoldWraps | base/strings/string_number_conversions.cc:116-137 | for any type and sign, overflowing or not: the loop ends with the limit at the first check that stops it, or else with the value modulo the size of the type |
| StringNumbers.UnsignedMinusMagnitude | base/strings/string_number_conversions.cc:157-167 | an unsigned type behind a minus sign: a failed 0 exactly if a digit other than 0 stands behind digits that make a multiple of 2^n, otherwise the negated value modulo 2^n |
| StringNumbers.DecimalObeys | base/strings/string_number_conversions.cc:225-250 | signed types, and unsigned ones without a minus sign: the output is always the clamped value of the longest digit run after blanks and sign; true exactly on sign? digits+ in range |
| StringNumbers.DecimalParsing | base/strings/string_number_conversions.cc:225-250 | for every type and text that law holds if and only if the type is signed, or there is no minus sign, or the digits behind it are stopped at a multiple of 2^n, or make 0, or make a multiple of 2^n in a text that has other letters |
| StringNumbers.UnsignedMinusWraps | base/strings/string_number_conversions.cc:157-170 | an unsigned parse of "-5" succeeds with 4294967291, against the law |
| StringNumbers.PrintThenParse | base/strings/string_number_conversions.cc:225-250 | printing a value in decimal and parsing it gives it back, for every integer type |
| StringNumbers.NumberAmongText | base/strings/string_number_conversions.cc:78-138 | for every integer type: behind blanks, with or without a plus sign and in front of other text, a number in decimal form gives its value, and success means that there is nothing else |
| StringNumbers.BlanksByName | base/strings/string_number_conversions.cc:57-68 | the six blanks |
| StringNumbers.HexParsing | base/strings/string_number_conversions.cc:252-255 | for every text: behind a minus sign the clamped value; otherwise the bit pattern of the value modulo 2^32, unless a check stops it with -1, which takes a value of 2^32 or more |
| StringNumbers.HexBelowNeverStops | base/strings/string_number_conversions.cc:143-155 | below 2^32 no check stops, though the accumulator turns negative |
| StringNumbers.HexPrefixAlone | base/strings/string_number_conversions.cc:252-255 | "0x" is read as 0, successfully |
| StringNumbers.HexIgnoresCase | base/strings/string_number_conversions.cc:252-255 | HexStringToInt gives the same for texts that differ in case only |
| StringNumbers.PrintHexThenParse | base/strings/string_number_conversions.cc:252-255 | a number below 2^32 printed in hexadecimal, with or without 0x and with either case at each letter, is read as its bit pattern |
| StringNumbers.CharToDigit | base/strings/string_number_conversions.cc:20-52 | a character is a digit of the base or not, and which |
| StringNumbers.LettersIgnoreCase | base/strings/string_number_conversions.cc:31-52 | in base 16 a letter counts the same in either case |
| StringNumbers.HexStringToBytes | base/strings/string_number_conversions.cc:257-272 | true exactly on nonempty even-length hexadecimal text; the bytes of the pairs before the first bad one are appended, all of them on success |
| StringNumbers.BytesOfHex | base/strings/string_number_conversions.cc:257-272 | any bytes survive being written in hexadecimal and read back |
| StringNumbers.BytesOfAnyHex | base/strings/string_number_conversions.cc:257-272 | the same with either case at each digit |
| CursorMask.ClipIsIntersectionExactlyWhen | capturer/picture_capturer_dxgi.cc:390-415 | on one axis the clipped interval is the intersection if and only if the shape does not stick out on both sides |
| CursorMask.ClipStaysInside | capturer/picture_capturer_dxgi.cc:390-415 | a shape no larger than the desktop that overlaps it is clipped to a nonempty part that stays on the desktop |
| CursorMask.RectangleIsIntersection | capturer/picture_capturer_dxgi.cc:385-415 | the rectangle is exactly the set of the shape's pixels that are on the desktop |
| CursorMask.PictureCapturer.Clip | capturer/picture_capturer_dxgi.cc:385-415 | the out-parameters, and what halving and doubling does to the height |
| CursorMask.PictureCapturer.DrawMono | capturer/picture_capturer_dxgi.cc:474-499 | all indices are in bounds and each pixel is that of the per-pixel function |
| CursorMask.PictureCapturer.DrawColor | capturer/picture_capturer_dxgi.cc:500-515 | the same for colour shapes |
| CursorMask.MixMono | capturer/picture_capturer_dxgi.cc:486-491 | the two masks of one bit, widened and applied |
| CursorMask.MonoPixelParts | capturer/picture_capturer_dxgi.cc:488-491 | the AND bit keeps or clears the colour of the desktop, the XOR bit turns it over, and the alpha byte stays |
| CursorMask.MixColor | capturer/picture_capturer_dxgi.cc:507-512 | the result is opaque; its colour is the shape's where the shape's alpha byte is 0, and otherwise the desktop's turned over by the shape's |
| CursorMask.InvertingTwiceRestores | capturer/picture_capturer_dxgi.cc:486-512 | where a shape inverts, drawing it twice gives the desktop's colour back |
| CursorMask.MaskRotates | capturer/picture_capturer_dxgi.cc:493-497 | the rotating mask selects bit 7 - (col + skip_x) % 8 at every column |
| CursorMask.MaskReadsBit | capturer/picture_capturer_dxgi.cc:486-487 | testing with the mask reads that bit |
| CursorMask.LeftmostIsTopBit | capturer/picture_capturer_dxgi.cc:474-487 | the first column of a byte is its top bit, the last its bottom bit |
| CursorMask.MonoDrawsTheShape | capturer/picture_capturer_dxgi.cc:467-499 | wherever the shape lies, each desktop pixel under it gets the mask bits at the same place of the shape |
| CursorMask.ColorDrawsTheShape | capturer/picture_capturer_dxgi.cc:500-515 | the same for colour shapes |
| RandUtil.RandGenerator | base/rand_util.cc:73-85 | the result is the residue of the first draw that is not rejected |
| RandUtil.PreimagesCount | base/rand_util.cc:76-84 | each block of `range` draws gives each result once |
| RandUtil.EveryResidueIsEquallyLikely | base/rand_util.cc:76-84 | every result has exactly floor((2^64 - 1) / range) accepted draws |
| RandUtil.FewDrawsAreRejected | base/rand_util.cc:76-77 | at least one draw and at most `range` draws are rejected |

## Left out

- Calls into Direct3D, DXGI, GDI, waveIn, FFmpeg, Qt and Win32 are foreign; encoder, writer, clock, allocator, destructors and surfaces answer through parameters.
- A guaranteed wake-up on stop: the status is set outside the queue's mutex and Notify takes no lock, so no such claim is made.
- The voice capturer's Start, Stop and Pause (pauseRecord and restartRecord both call Pause) are foreign; the log line with its frame rate is left out.
- ScreenRecording.ScreenRecorder.CapturePictureThread: `count` is unbounded, so its wrap after 2^32 frames is not modelled; CaptureScreen is foreign and its pictures are taken to have a positive length and height.
- Weak memory orders: every atomic access is one sequentially consistent step.
- Queue entries are never null; the null test in Clear has no counterpart.
- RecorderMachine.ReachableStatesAreSafe: a push may be refused whenever the recorder is stopping, which includes every refusal by a full queue; how full the queue is belongs to DataQueueMachine.
- RecorderMachine.TimestampsNeverWrap: times are exact nanoseconds; the rounding of the double in which the code measures milliseconds is not modelled.
- AudioReframing.AVMuxer.EncodeAudioFrame: audio_samples_ is unbounded, so its int overflow after 2^31 samples is not modelled; av_rescale_q is foreign, so a frame records the sample count its pts is made from.
- The waiting bytes of the last audio frame are never encoded; Flush only drains the encoder.
- TlsKeyRace.ReachableStatesAreSafe: AllocTLS fails only by ending the process, as its CHECK says.
- CreateDirectories.FileSystem.CreateDirectoryAndGetError: the file system is keyed by path strings, without links or aliases, and others only add entries.
- NarrowingRange's masks are the identity on integers and are not modelled; floating point, NaN, ARM assembly and compiler builtins are left out.
- CheckedMath.MulIsExact: operands are unbounded before the cast, so the C++ promotion of two 16-bit factors to int is not modelled; the code never multiplies that narrow a type here.
- ClampedMath.LshIsClamped: a right shift of a negative value is arithmetic, which C++ leaves to the compiler before C++20.
- CursorMask.PictureCapturer.Clip: coordinates are unbounded integers; a 32-bit overflow of position plus extent is not modelled.
- FilePath extensions, comparison order, PathService, ScopedGeneric, string pieces, formatting, RandInt and RandDouble, the DXGI pointer protocol, and the duplicated demo capturer and queue would only add easy or foreign members.
