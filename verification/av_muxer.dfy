/** encoder/av_muxer.cc: EncodeAudioFrame cuts audio chunks of any length into frames of
    one fixed size.  The encoder and the file writer answer as they like. */
module AudioReframing {

  type Byte = n: int | 0 <= n < 256

  /** A frame given to the writer, and the sample count its time stamp is made from. */
  datatype Frame = Frame(bytes: seq<Byte>, stamp: int)

  /** How the encoder and the writer answer for one frame: the value that
      PushEncodeFrame returns when it fails is negative. */
  datatype Verdict = Verdict(push: int, write: bool)

  /** The muxer's audio state: bytes waiting for a full frame, samples counted, and
      frames written. */
  datatype Audio = Audio(pending: seq<Byte>, samples: int, frames: seq<Frame>)

  datatype Outcome = Outcome(ok: bool, audio: Audio)

  /** The verdict on the next frame; nothing goes wrong unless it is said to. */
  function First(verdicts: seq<Verdict>): Verdict {
    if verdicts == [] then Verdict(0, true) else verdicts[0]
  }

  function Rest(verdicts: seq<Verdict>): seq<Verdict> {
    if verdicts == [] then [] else verdicts[1..]
  }

  /** PushEncodeFrame's answer: four bytes are one sample. */
  function Samples(size: nat): int {
    size / 4
  }

  /** What one call does: frame by frame, until the data is used up or a frame fails. */
  function Encoded(size: nat, a: Audio, data: seq<Byte>, verdicts: seq<Verdict>): Outcome
    requires |a.pending| < size
    decreases |data|
  {
    if |a.pending| + |data| < size then Outcome(true, a.(pending := a.pending + data))
    else
      var take := size - |a.pending|;
      var v := First(verdicts);
      if v.push < 0 then Outcome(false, a)
      else
        var counted := a.(samples := a.samples + Samples(size));
        if !v.write then Outcome(false, counted)
        else
          var frame := Frame(a.pending + data[..take], a.samples);
          Encoded(size, counted.(pending := [], frames := a.frames + [frame]), data[take..], Rest(verdicts))
  }

  lemma EncodeWaits(size: nat, a: Audio, data: seq<Byte>, verdicts: seq<Verdict>)
    requires |a.pending| + |data| < size
    ensures Encoded(size, a, data, verdicts) == Outcome(true, a.(pending := a.pending + data))
  {
  }

  lemma EncodeNothing(size: nat, a: Audio, verdicts: seq<Verdict>)
    requires |a.pending| < size
    ensures Encoded(size, a, [], verdicts) == Outcome(true, a)
  {
    assert a.pending + [] == a.pending;
  }

  lemma EncodeFrame(size: nat, a: Audio, data: seq<Byte>, verdicts: seq<Verdict>)
    requires |a.pending| < size <= |a.pending| + |data|
    ensures var take, v := size - |a.pending|, First(verdicts);
            Encoded(size, a, data, verdicts) ==
            if v.push < 0 then Outcome(false, a)
            else if !v.write then Outcome(false, a.(samples := a.samples + Samples(size)))
            else
              Encoded(size,
                      Audio([], a.samples + Samples(size), a.frames + [Frame(a.pending + data[..take], a.samples)]),
                      data[take..], Rest(verdicts))
  {
  }

  // ----- the method -----

  class AVMuxer {
    var bufferAudioFrame: array<Byte>
    var sizePerAudioFrame: nat
    var lastIndex: nat
    var audioSamples: int
    var written: seq<Frame>

    ghost predicate Valid()
      reads this
    {
      4 <= sizePerAudioFrame == bufferAudioFrame.Length && lastIndex < sizePerAudioFrame
    }

    ghost function View(): Audio
      reads this, bufferAudioFrame
      requires Valid()
    {
      Audio(bufferAudioFrame[..lastIndex], audioSamples, written)
    }

    /** The constructor and OpenAudio, for a frame size the encoder chose. */
    constructor (size: nat)
      requires 4 <= size
      ensures Valid() && fresh(bufferAudioFrame) && sizePerAudioFrame == size
      ensures View() == Audio([], 0, [])
    {
      bufferAudioFrame := new Byte[size](_ => 0);
      sizePerAudioFrame, lastIndex, audioSamples, written := size, 0, 0, [];
    }

    /** memcpy(buffer_audio_frame_ + at, data + from, count) */
    method CopyIn(at: nat, data: array<Byte>, from: nat, count: nat)
      requires Valid() && data != bufferAudioFrame
      requires at + count <= bufferAudioFrame.Length && from + count <= data.Length
      modifies bufferAudioFrame
      ensures bufferAudioFrame[..at] == old(bufferAudioFrame[..at])
      ensures bufferAudioFrame[..at + count] == old(bufferAudioFrame[..at]) + data[from..from + count]
    {
      var k := 0;
      while k < count
        invariant 0 <= k <= count
        invariant forall j :: 0 <= j < at ==> bufferAudioFrame[j] == old(bufferAudioFrame[j])
        invariant forall j :: at <= j < at + k ==> bufferAudioFrame[j] == data[from + (j - at)]
      {
        bufferAudioFrame[at + k] := data[from + k];
        k := k + 1;
      }
    }

    /** The loop body for a full frame: fill the buffer, push it, count it, write it.
        Only then does the next frame start at the front of the buffer. */
    method EncodeFullFrame(data: array<Byte>, index: nat, verdict: Verdict) returns (ok: bool)
      requires Valid() && data != bufferAudioFrame && index + (sizePerAudioFrame - lastIndex) <= data.Length
      modifies this, bufferAudioFrame
      ensures Valid() && bufferAudioFrame == old(bufferAudioFrame) && sizePerAudioFrame == old(sizePerAudioFrame)
      ensures var a, take := old(View()), old(sizePerAudioFrame - lastIndex);
              Outcome(ok, View()) ==
              if verdict.push < 0 then Outcome(false, a)
              else if !verdict.write then Outcome(false, a.(samples := a.samples + Samples(sizePerAudioFrame)))
              else
                var frame := Frame(a.pending + data[index..index + take], a.samples);
                Outcome(true, Audio([], a.samples + Samples(sizePerAudioFrame), a.frames + [frame]))
    {
      var copyLen := sizePerAudioFrame - lastIndex;
      CopyIn(lastIndex, data, index, copyLen);
      assert bufferAudioFrame[..] == bufferAudioFrame[..lastIndex + copyLen];
      var ret := if verdict.push < 0 then verdict.push else Samples(sizePerAudioFrame);
      if ret < 0 {
        return false;
      }
      var stamp := audioSamples;
      audioSamples := audioSamples + ret;
      if !verdict.write {
        return false;
      }
      written := written + [Frame(bufferAudioFrame[..], stamp)];
      lastIndex := 0;
      ok := true;
    }

    /** The loop body for less than a frame: the bytes join those that wait. */
    method KeepWaiting(data: array<Byte>, index: nat, count: nat)
      requires Valid() && data != bufferAudioFrame && lastIndex + count < sizePerAudioFrame
      requires index + count <= data.Length
      modifies this`lastIndex, bufferAudioFrame
      ensures Valid()
      ensures View() == old(View()).(pending := old(View()).pending + data[index..index + count])
    {
      CopyIn(lastIndex, data, index, count);
      lastIndex := lastIndex + count;
    }

    /** One turn of the loop: the bytes wait, or fill a frame. */
    method EncodeTurn(data: array<Byte>, index: nat, remainingLen: nat, verdict: Verdict)
      returns (done: bool, ok: bool, copyLen: nat)
      requires Valid() && data != bufferAudioFrame && 0 < remainingLen && index + remainingLen <= data.Length
      modifies this, bufferAudioFrame
      ensures Valid() && bufferAudioFrame == old(bufferAudioFrame) && sizePerAudioFrame == old(sizePerAudioFrame)
      ensures var a, rest := old(View()), old(data[index..index + remainingLen]);
              && copyLen == sizePerAudioFrame - |a.pending|
              && (done <==> !ok || remainingLen < copyLen)
              && Outcome(ok, View()) ==
                 (if remainingLen < copyLen then Outcome(true, a.(pending := a.pending + rest))
                  else if verdict.push < 0 then Outcome(false, a)
                  else if !verdict.write then Outcome(false, a.(samples := a.samples + Samples(sizePerAudioFrame)))
                  else Outcome(true, WithFrame(sizePerAudioFrame, a, a.pending + rest[..copyLen])))
    {
      hide Samples;
      copyLen := sizePerAudioFrame - lastIndex;
      if remainingLen < copyLen {
        KeepWaiting(data, index, remainingLen);
        return true, true, copyLen;
      }
      Slices(data[..], index, copyLen, index + remainingLen);
      ok := EncodeFullFrame(data, index, verdict);
      done := !ok;
    }

    /** The loop of EncodeAudioFrame. */
    method EncodeData(data: array<Byte>, len: nat, verdicts: seq<Verdict>) returns (ok: bool)
      requires Valid() && data != bufferAudioFrame && len <= data.Length
      modifies this, bufferAudioFrame
      ensures Valid() && bufferAudioFrame == old(bufferAudioFrame) && sizePerAudioFrame == old(sizePerAudioFrame)
      ensures Outcome(ok, View()) == Encoded(sizePerAudioFrame, old(View()), old(data[..len]), verdicts)
    {
      hide Encoded, First, Rest, Samples;
      var index, remainingLen := 0, len;
      var answers := verdicts;
      ghost var all := data[..len];
      assert all == data[0..len];
      while remainingLen > 0
        invariant Valid() && bufferAudioFrame == old(bufferAudioFrame) && sizePerAudioFrame == old(sizePerAudioFrame)
        invariant index + remainingLen == len && data[..len] == all
        invariant Encoded(sizePerAudioFrame, View(), data[index..len], answers) ==
                  Encoded(sizePerAudioFrame, old(View()), all, verdicts)
      {
        ghost var a, rest := View(), data[index..len];
        var done, copyLen;
        done, ok, copyLen := EncodeTurn(data, index, remainingLen, First(answers));
        if |a.pending| + |rest| < sizePerAudioFrame {
          EncodeWaits(sizePerAudioFrame, a, rest, answers);
        } else {
          EncodeFrame(sizePerAudioFrame, a, rest, answers);
        }
        if done {
          return ok;
        }
        assert data[index..len][copyLen..] == data[index + copyLen..len];
        index := index + copyLen;
        remainingLen := remainingLen - copyLen;
        answers := Rest(answers);
      }
      EncodeNothing(sizePerAudioFrame, View(), answers);
      assert data[index..len] == [];
      ok := true;
    }

    /** EncodeAudioFrame.  Without data it flushes the encoder, with `flushed` for an
        answer, and leaves the waiting bytes where they are. */
    method EncodeAudioFrame(data: array?<Byte>, len: int, verdicts: seq<Verdict>, flushed: bool) returns (ok: bool)
      requires Valid() && (data != null ==> data != bufferAudioFrame && len <= data.Length)
      modifies this, bufferAudioFrame
      ensures Valid() && bufferAudioFrame == old(bufferAudioFrame) && sizePerAudioFrame == old(sizePerAudioFrame)
      ensures data == null || len <= 0 ==> ok == flushed && View() == old(View())
      ensures data != null && len > 0 ==>
                Outcome(ok, View()) == Encoded(sizePerAudioFrame, old(View()), old(data[..len]), verdicts)
    {
      if data == null || len <= 0 {
        return flushed;
      }
      ok := EncodeData(data, len, verdicts);
    }
  }

  lemma Slices(s: seq<Byte>, i: nat, k: nat, n: nat)
    requires i + k <= n <= |s|
    ensures s[i..n][..k] == s[i..i + k] && s[i..n][k..] == s[i + k..n]
  {
  }

  // ----- what every run of calls keeps -----

  function Concat(frames: seq<Frame>): seq<Byte> {
    if frames == [] then [] else Concat(frames[..|frames| - 1]) + frames[|frames| - 1].bytes
  }

  /** Everything taken in so far: what was written, then what waits. */
  function Taken(a: Audio): seq<Byte> {
    Concat(a.frames) + a.pending
  }

  /** Frames are full and stamps at least one frame of samples apart, failures or not. */
  predicate WellFramed(size: nat, a: Audio) {
    && |a.pending| < size
    && (forall k :: 0 <= k < |a.frames| ==> |a.frames[k].bytes| == size)
    && (forall j, k :: 0 <= j < k < |a.frames| ==> a.frames[j].stamp + Samples(size) <= a.frames[k].stamp)
    && (forall k :: 0 <= k < |a.frames| ==> a.frames[k].stamp + Samples(size) <= a.samples)
  }

  /** The audio state after one full frame went through. */
  function WithFrame(size: nat, a: Audio, bytes: seq<Byte>): Audio {
    Audio([], a.samples + Samples(size), a.frames + [Frame(bytes, a.samples)])
  }

  lemma FrameKeepsWellFramed(size: nat, a: Audio, bytes: seq<Byte>)
    requires WellFramed(size, a) && |bytes| == size > 0
    ensures WellFramed(size, WithFrame(size, a, bytes))
    ensures Taken(WithFrame(size, a, bytes)) == Concat(a.frames) + bytes
  {
    var b := WithFrame(size, a, bytes);
    assert b.frames[..|a.frames|] == a.frames;
  }

  lemma CountKeepsWellFramed(size: nat, a: Audio)
    requires WellFramed(size, a)
    ensures WellFramed(size, a.(samples := a.samples + Samples(size)))
  {
  }

  lemma WaitKeepsWellFramed(size: nat, a: Audio, data: seq<Byte>)
    requires WellFramed(size, a) && |a.pending| + |data| < size
    ensures WellFramed(size, a.(pending := a.pending + data))
    ensures Taken(a.(pending := a.pending + data)) == Taken(a) + data
  {
  }

  /** Frame sizes and stamp order survive every call, whatever fails. */
  lemma {:induction false} CallKeepsWellFramed(size: nat, a: Audio, data: seq<Byte>, verdicts: seq<Verdict>)
    requires WellFramed(size, a)
    ensures WellFramed(size, Encoded(size, a, data, verdicts).audio)
    decreases |data|
  {
    hide Encoded, Samples, First, Rest;
    if |a.pending| + |data| < size {
      EncodeWaits(size, a, data, verdicts);
      WaitKeepsWellFramed(size, a, data);
    } else {
      var take := size - |a.pending|;
      EncodeFrame(size, a, data, verdicts);
      CountKeepsWellFramed(size, a);
      FrameKeepsWellFramed(size, a, a.pending + data[..take]);
      CallKeepsWellFramed(size, WithFrame(size, a, a.pending + data[..take]), data[take..], Rest(verdicts));
    }
  }

  /** A successful call loses nothing and counts the samples of exactly the frames it
      wrote. */
  lemma {:induction false} CallConserves(size: nat, a: Audio, data: seq<Byte>, verdicts: seq<Verdict>)
    requires |a.pending| < size && WellFramed(size, a) && Encoded(size, a, data, verdicts).ok
    ensures var b := Encoded(size, a, data, verdicts).audio;
            Taken(b) == Taken(a) + data &&
            b.samples - a.samples == Samples(size) * (|b.frames| - |a.frames|)
    decreases |data|
  {
    hide Encoded, Samples, First, Rest, WellFramed, Concat;
    if |a.pending| + |data| < size {
      EncodeWaits(size, a, data, verdicts);
      WaitKeepsWellFramed(size, a, data);
    } else {
      var take := size - |a.pending|;
      var b := WithFrame(size, a, a.pending + data[..take]);
      EncodeFrame(size, a, data, verdicts);
      FrameKeepsWellFramed(size, a, a.pending + data[..take]);
      CallConserves(size, b, data[take..], Rest(verdicts));
      Regroup(Concat(a.frames), a.pending, data, take);
      OneMore(Samples(size), Encoded(size, a, data, verdicts).audio, b, a);
    }
  }

  lemma Regroup(x: seq<Byte>, p: seq<Byte>, d: seq<Byte>, n: nat)
    requires n <= |d|
    ensures (x + (p + d[..n])) + d[n..] == (x + p) + d
  {
  }

  lemma OneMore(s: int, c: Audio, b: Audio, a: Audio)
    requires c.samples - b.samples == s * (|c.frames| - |b.frames|)
    requires b.samples == a.samples + s && |b.frames| == |a.frames| + 1
    ensures c.samples - a.samples == s * (|c.frames| - |a.frames|)
  {
  }

  // ----- chunking does not matter -----

  /** A call that succeeded did what it does when nothing can fail. */
  lemma {:induction false} SuccessIsQuiet(size: nat, a: Audio, data: seq<Byte>, verdicts: seq<Verdict>)
    requires |a.pending| < size
    ensures Encoded(size, a, data, []).ok
    ensures Encoded(size, a, data, verdicts).ok ==> Encoded(size, a, data, verdicts) == Encoded(size, a, data, [])
    decreases |data|
  {
    hide Encoded, Samples;
    if |a.pending| + |data| < size {
      EncodeWaits(size, a, data, verdicts);
      EncodeWaits(size, a, data, []);
    } else {
      var take := size - |a.pending|;
      EncodeFrame(size, a, data, verdicts);
      EncodeFrame(size, a, data, []);
      SuccessIsQuiet(size, WithFrame(size, a, a.pending + data[..take]), data[take..], Rest(verdicts));
    }
  }

  /** One call on two chunks glued together is two calls. */
  lemma {:induction false} CallSplits(size: nat, a: Audio, x: seq<Byte>, y: seq<Byte>)
    requires |a.pending| < size
    ensures |Encoded(size, a, x, []).audio.pending| < size
    ensures Encoded(size, a, x + y, []) == Encoded(size, Encoded(size, a, x, []).audio, y, [])
    decreases |x|
  {
    hide Encoded, Samples;
    if |a.pending| + |x| < size {
      EncodeWaits(size, a, x, []);
      Waiting(size, a, x, y);
    } else {
      var take := size - |a.pending|;
      EncodeFrame(size, a, x, []);
      EncodeFrame(size, a, x + y, []);
      assert (x + y)[..take] == x[..take] && (x + y)[take..] == x[take..] + y;
      CallSplits(size, WithFrame(size, a, a.pending + x[..take]), x[take..], y);
    }
  }

  /** Bytes that only wait may as well come with the next chunk. */
  lemma Waiting(size: nat, a: Audio, x: seq<Byte>, y: seq<Byte>)
    requires |a.pending| + |x| < size
    ensures Encoded(size, a, x + y, []) == Encoded(size, a.(pending := a.pending + x), y, [])
  {
    hide Encoded, Samples;
    var b := a.(pending := a.pending + x);
    Prefixed(a.pending, x, y, size);
    if |a.pending| + |x + y| < size {
      EncodeWaits(size, a, x + y, []);
      EncodeWaits(size, b, y, []);
    } else {
      EncodeFrame(size, a, x + y, []);
      EncodeFrame(size, b, y, []);
    }
  }

  lemma Prefixed(p: seq<Byte>, x: seq<Byte>, y: seq<Byte>, size: nat)
    requires |p| + |x| < size
    ensures p + (x + y) == (p + x) + y
    ensures size <= |p + x + y| ==>
              p + (x + y)[..size - |p|] == (p + x) + y[..size - |p + x|] && (x + y)[size - |p|..] == y[size - |p + x|..]
  {
  }

  /** A run of successful calls. */
  function Calls(size: nat, a: Audio, chunks: seq<seq<Byte>>): (b: Audio)
    requires |a.pending| < size
    ensures |b.pending| < size
    decreases |chunks|
  {
    if chunks == [] then a
    else
      CallSplits(size, a, chunks[0], []);
      Calls(size, Encoded(size, a, chunks[0], []).audio, chunks[1..])
  }

  function Glued(chunks: seq<seq<Byte>>): seq<Byte> {
    if chunks == [] then [] else chunks[0] + Glued(chunks[1..])
  }

  lemma {:induction false} CallsAreOneCall(size: nat, a: Audio, chunks: seq<seq<Byte>>)
    requires |a.pending| < size
    ensures Calls(size, a, chunks) == Encoded(size, a, Glued(chunks), []).audio
    decreases |chunks|
  {
    hide Encoded;
    if chunks == [] {
      EncodeWaits(size, a, [], []);
    } else {
      CallSplits(size, a, chunks[0], Glued(chunks[1..]));
      CallsAreOneCall(size, Encoded(size, a, chunks[0], []).audio, chunks[1..]);
    }
  }

  /** However the same bytes are cut into chunks, the frames, their stamps and the
      waiting bytes are the same. */
  lemma ChunkingDoesNotMatter(size: nat, a: Audio, chunks: seq<seq<Byte>>, others: seq<seq<Byte>>)
    requires |a.pending| < size && Glued(chunks) == Glued(others)
    ensures Calls(size, a, chunks) == Calls(size, a, others)
  {
    CallsAreOneCall(size, a, chunks);
    CallsAreOneCall(size, a, others);
  }

  /** A run of calls, each with its own answers from encoder and writer; `ok` if all
      of them succeeded. */
  function RunOf(size: nat, a: Audio, chunks: seq<seq<Byte>>, answers: seq<seq<Verdict>>): Outcome
    requires |a.pending| < size && |chunks| == |answers|
    decreases |chunks|
  {
    if chunks == [] then Outcome(true, a)
    else
      var first := Encoded(size, a, chunks[0], answers[0]);
      PendingStaysShort(size, a, chunks[0], answers[0]);
      var rest := RunOf(size, first.audio, chunks[1..], answers[1..]);
      Outcome(first.ok && rest.ok, rest.audio)
  }

  lemma {:induction false} PendingStaysShort(size: nat, a: Audio, data: seq<Byte>, verdicts: seq<Verdict>)
    requires |a.pending| < size
    ensures |Encoded(size, a, data, verdicts).audio.pending| < size
    decreases |data|
  {
    if |a.pending| + |data| >= size {
      var take := size - |a.pending|;
      PendingStaysShort(size, WithFrame(size, a, a.pending + data[..take]), data[take..], Rest(verdicts));
    }
  }

  /** Frames stay full and stamps in order over any run, whatever fails. */
  lemma {:induction false} RunKeepsWellFramed(size: nat, a: Audio, chunks: seq<seq<Byte>>, answers: seq<seq<Verdict>>)
    requires |a.pending| < size && |chunks| == |answers| && WellFramed(size, a)
    ensures WellFramed(size, RunOf(size, a, chunks, answers).audio)
    decreases |chunks|
  {
    hide WellFramed, Encoded;
    if chunks != [] {
      CallKeepsWellFramed(size, a, chunks[0], answers[0]);
      PendingStaysShort(size, a, chunks[0], answers[0]);
      RunKeepsWellFramed(size, Encoded(size, a, chunks[0], answers[0]).audio, chunks[1..], answers[1..]);
    }
  }

  /** Over any run of successful calls the frames written, followed by the waiting
      bytes, are what was there before followed by all the data, and the samples
      counted are those of the frames written. */
  lemma {:induction false} RunConserves(size: nat, a: Audio, chunks: seq<seq<Byte>>, answers: seq<seq<Verdict>>)
    requires |a.pending| < size && |chunks| == |answers| && WellFramed(size, a) && RunOf(size, a, chunks, answers).ok
    ensures var b := RunOf(size, a, chunks, answers).audio;
            WellFramed(size, b) && Taken(b) == Taken(a) + Glued(chunks) &&
            b.samples - a.samples == Samples(size) * (|b.frames| - |a.frames|)
    decreases |chunks|
  {
    hide WellFramed, Encoded, Taken, Samples;
    if chunks == [] {
      assert Taken(a) + [] == Taken(a);
    } else {
      var first := Encoded(size, a, chunks[0], answers[0]).audio;
      PendingStaysShort(size, a, chunks[0], answers[0]);
      CallKeepsWellFramed(size, a, chunks[0], answers[0]);
      CallConserves(size, a, chunks[0], answers[0]);
      RunConserves(size, first, chunks[1..], answers[1..]);
      assert (Taken(a) + chunks[0]) + Glued(chunks[1..]) == Taken(a) + Glued(chunks);
      SamplesAdd(Samples(size), a, first, RunOf(size, a, chunks, answers).audio);
    }
  }

  lemma SamplesAdd(s: int, a: Audio, b: Audio, c: Audio)
    requires b.samples - a.samples == s * (|b.frames| - |a.frames|)
    requires c.samples - b.samples == s * (|c.frames| - |b.frames|)
    ensures c.samples - a.samples == s * (|c.frames| - |a.frames|)
  {
    var m, n := |b.frames| - |a.frames|, |c.frames| - |b.frames|;
    assert s * m + s * n == s * (m + n);
  }

  /** A run that succeeded is the run in which nothing can fail, so its outcome depends
      on the bytes alone. */
  lemma {:induction false} SuccessfulRunIsQuiet(size: nat, a: Audio, chunks: seq<seq<Byte>>, answers: seq<seq<Verdict>>)
    requires |a.pending| < size && |chunks| == |answers| && RunOf(size, a, chunks, answers).ok
    ensures RunOf(size, a, chunks, answers).audio == Encoded(size, a, Glued(chunks), []).audio
    decreases |chunks|
  {
    hide Encoded;
    if chunks == [] {
      EncodeWaits(size, a, [], []);
    } else {
      SuccessIsQuiet(size, a, chunks[0], answers[0]);
      PendingStaysShort(size, a, chunks[0], answers[0]);
      CallSplits(size, a, chunks[0], Glued(chunks[1..]));
      SuccessfulRunIsQuiet(size, Encoded(size, a, chunks[0], answers[0]).audio, chunks[1..], answers[1..]);
    }
  }

  /** Two successful runs over the same bytes end alike, however the bytes were cut and
      whatever the encoder and the writer answered. */
  lemma SuccessfulRunsAgree(size: nat, a: Audio, chunks: seq<seq<Byte>>, answers: seq<seq<Verdict>>,
                            others: seq<seq<Byte>>, otherAnswers: seq<seq<Verdict>>)
    requires |a.pending| < size && |chunks| == |answers| && |others| == |otherAnswers| && Glued(chunks) == Glued(others)
    requires RunOf(size, a, chunks, answers).ok && RunOf(size, a, others, otherAnswers).ok
    ensures RunOf(size, a, chunks, answers).audio == RunOf(size, a, others, otherAnswers).audio
  {
    SuccessfulRunIsQuiet(size, a, chunks, answers);
    SuccessfulRunIsQuiet(size, a, others, otherAnswers);
  }

  // ----- stamps and samples against bytes -----

  lemma {:induction false} ConcatLength(size: nat, frames: seq<Frame>)
    requires forall k :: 0 <= k < |frames| ==> |frames[k].bytes| == size
    ensures |Concat(frames)| == size * |frames|
  {
    if frames != [] {
      ConcatLength(size, frames[..|frames| - 1]);
      assert size * |frames| == size * (|frames| - 1) + size;
    }
  }

  lemma FourTimes(size: nat, m: int, n: int)
    requires size % 4 == 0
    ensures 4 * (Samples(size) * (m - n)) == size * m - size * n
  {
    var s := Samples(size);
    assert size == 4 * s;
    assert 4 * (s * (m - n)) == (4 * s) * m - (4 * s) * n;
  }

  /** A successful run counts one sample for every four bytes that it writes. */
  lemma FourBytesAreOneSample(size: nat, a: Audio, chunks: seq<seq<Byte>>, answers: seq<seq<Verdict>>)
    requires |a.pending| < size && |chunks| == |answers| && WellFramed(size, a) && RunOf(size, a, chunks, answers).ok
    requires size % 4 == 0
    ensures var b := RunOf(size, a, chunks, answers).audio;
            4 * (b.samples - a.samples) == |Concat(b.frames)| - |Concat(a.frames)|
  {
    hide RunOf, Samples, Concat;
    var b := RunOf(size, a, chunks, answers).audio;
    RunConserves(size, a, chunks, answers);
    ConcatLength(size, a.frames);
    ConcatLength(size, b.frames);
    FourTimes(size, |b.frames|, |a.frames|);
  }

  /** The frames that a call wrote are stamped with the samples counted before each. */
  predicate Stamped(size: nat, a: Audio, b: Audio) {
    && a.frames <= b.frames
    && forall k :: |a.frames| <= k < |b.frames| ==>
         b.frames[k].stamp == a.samples + Samples(size) * (k - |a.frames|)
  }

  lemma StampedThrough(size: nat, a: Audio, bytes: seq<Byte>, c: Audio)
    requires Stamped(size, WithFrame(size, a, bytes), c)
    ensures Stamped(size, a, c)
  {
    hide Samples;
    var b := WithFrame(size, a, bytes);
    assert c.frames[|a.frames|] == b.frames[|a.frames|];
    forall k | |b.frames| <= k < |c.frames|
      ensures c.frames[k].stamp == a.samples + Samples(size) * (k - |a.frames|)
    {
      var s, m := Samples(size), k - |b.frames|;
      assert s * (m + 1) == s * m + s;
    }
  }

  lemma {:induction false} CallStamps(size: nat, a: Audio, data: seq<Byte>, verdicts: seq<Verdict>)
    requires |a.pending| < size
    ensures Stamped(size, a, Encoded(size, a, data, verdicts).audio)
    decreases |data|
  {
    hide Encoded, Samples, First, Rest, Stamped;
    if |a.pending| + |data| < size {
      EncodeWaits(size, a, data, verdicts);
      NothingStamped(size, a, data);
    } else {
      var take := size - |a.pending|;
      EncodeFrame(size, a, data, verdicts);
      NothingStamped(size, a, data);
      var v := First(verdicts);
      if v.push >= 0 && v.write {
        CallStamps(size, WithFrame(size, a, a.pending + data[..take]), data[take..], Rest(verdicts));
        StampedThrough(size, a, a.pending + data[..take], Encoded(size, a, data, verdicts).audio);
      }
    }
  }

  lemma NothingStamped(size: nat, a: Audio, data: seq<Byte>)
    ensures Stamped(size, a, a) && Stamped(size, a, a.(pending := a.pending + data))
    ensures Stamped(size, a, a.(samples := a.samples + Samples(size)))
  {
  }

  /** Over a successful run the stamp of a frame times four is the position of its first
      byte, counted from where the run began. */
  lemma StampsArePositions(size: nat, a: Audio, chunks: seq<seq<Byte>>, answers: seq<seq<Verdict>>, k: nat)
    requires |a.pending| < size && |chunks| == |answers| && WellFramed(size, a) && RunOf(size, a, chunks, answers).ok
    requires size % 4 == 0 && |a.frames| <= k < |RunOf(size, a, chunks, answers).audio.frames|
    ensures var b := RunOf(size, a, chunks, answers).audio;
            4 * (b.frames[k].stamp - a.samples) == |Concat(b.frames[..k])| - |Concat(a.frames)|
  {
    hide RunOf, Encoded, Samples, Concat;
    var b := RunOf(size, a, chunks, answers).audio;
    RunKeepsWellFramed(size, a, chunks, answers);
    SuccessfulRunIsQuiet(size, a, chunks, answers);
    CallStamps(size, a, Glued(chunks), []);
    ConcatLength(size, a.frames);
    ConcatLength(size, b.frames[..k]);
    FourTimes(size, k, |a.frames|);
  }

  // ----- what a failed call leaves -----

  /** A failed call has written the frames of the first `n` bytes and drops the rest, at
      least enough to fill one frame; a frame that the writer refused is counted. */
  lemma {:induction false} FailureDropsTail(size: nat, a: Audio, data: seq<Byte>, verdicts: seq<Verdict>)
      returns (n: nat)
    requires |a.pending| < size && !Encoded(size, a, data, verdicts).ok
    ensures n <= |data|
    ensures var kept, b := Encoded(size, a, data[..n], []).audio, Encoded(size, a, data, verdicts).audio;
            b.frames == kept.frames && b.pending == kept.pending && size <= |b.pending| + |data| - n &&
            (b.samples == kept.samples || b.samples == kept.samples + Samples(size))
    decreases |data|
  {
    hide Encoded, Samples, First;
    var take := size - |a.pending|;
    var v := First(verdicts);
    if |a.pending| + |data| < size {
      EncodeWaits(size, a, data, verdicts);
      assert false;
    } else if v.push < 0 || !v.write {
      EncodeFrame(size, a, data, verdicts);
      n := 0;
      EncodeWaits(size, a, data[..0], []);
    } else {
      EncodeFrame(size, a, data, verdicts);
      var m := FailureDropsTail(size, WithFrame(size, a, a.pending + data[..take]), data[take..], Rest(verdicts));
      n := take + m;
      QuietFirst();
      EncodeFrame(size, a, data[..n], []);
      assert data[..n][..take] == data[..take] && data[..n][take..] == data[take..][..m];
    }
  }

  lemma QuietFirst()
    ensures First([]) == Verdict(0, true) && Rest([]) == []
  {
  }
}
