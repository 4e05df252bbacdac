/**
 * The streaming active listener of the microphone: the producer `gen` that
 * fills the upload body of a streaming speech-to-text request while capture
 * goes on, its cursor helper `returnUpTo`, and the listener that hands the
 * body to the recogniser. Chunks arrive as an input sequence; each carries the
 * words that `array('i', ...)` makes of one read and the silence decision of
 * `is_silent` for it.
 */
module MicStreaming {
  import opened Wrappers

  /** Frames per `stream.read` (self.CHUNK_SIZE). */
  const CHUNK_SIZE: nat := 8192
  /** One read is 8192 16-bit frames, which `array('i', ...)` reads back as 4096 32-bit words. */
  const WORDS_PER_CHUNK: nat := 4096
  /** How far the cursor is set back on the first loud chunk: `len(data) - self.CHUNK_SIZE * 2`. */
  const REWIND: nat := 2 * CHUNK_SIZE
  /** Slice size while speech goes on, and during the final flush. */
  const STREAM_SLICE: nat := 1024
  const FLUSH_SLICE: nat := 512
  /** `if counter > 75` */
  const TIMEOUT: nat := 75

  datatype Chunk = Chunk(words: seq<int>, silent: bool)

  datatype StopReason = Silence | Timeout

  /** Every read returns a full chunk. */
  predicate FullChunks(chunks: seq<Chunk>)
  {
    forall k :: 0 <= k < |chunks| ==> |chunks[k].words| == WORDS_PER_CHUNK
  }

  function Min(a: int, b: int): int { if a <= b then a else b }

  /**
   * `returnUpTo(iterator, values, returnNum)`: the next at most `n` values
   * from cursor `it` and the new cursor. The slice is exactly what lies
   * between the old and the new cursor; when the request reaches the end of
   * `values` the new cursor is one PAST the end (`iterator + temp + 1`).
   */
  function ReturnUpTo<T>(it: nat, values: seq<T>, n: nat): (r: (nat, seq<T>))
    ensures |r.1| <= n
    ensures r.0 > |values| <==> it + n >= |values|
    ensures r.0 <= |values| ==> r.0 == it + n && |r.1| == n
    ensures r.0 > |values| ==> r.0 == |values| + 1
    ensures it <= |values| ==> values[..it] + r.1 == values[..Min(r.0, |values|)]
    ensures it < |values| ==> |r.1| > 0 || n == 0
  {
    if it + n < |values| then (it + n, values[it..it + n])
    else (|values| + 1, if it <= |values| then values[it..] else [])
  }

  /** The overshoot matters only if the buffer grows afterwards: the next call
      then starts one element late, and the element at the old end is never
      returned. */
  lemma OvershootSkipsOne<T>(values: seq<T>, more: seq<T>, it: nat, n: nat)
    requires it <= |values| && it + n >= |values|
    requires |more| >= 2 && n > 0
    ensures var c := ReturnUpTo(it, values, n).0;
            var next := ReturnUpTo(c, values + more, n).1;
            c == |values| + 1 && |next| > 0 && next[0] == more[1]
  {
  }

  /** Index of the first chunk at or after `from` that is not silent. */
  function SpeechFrom(chunks: seq<Chunk>, from: nat): (r: Option<nat>)
    ensures r.Some? ==> from <= r.value < |chunks| && !chunks[r.value].silent
    ensures r.Some? ==> forall j :: from <= j < r.value ==> chunks[j].silent
    ensures r.None? ==> forall j :: from <= j < |chunks| ==> chunks[j].silent
    decreases |chunks| - from
  {
    if from >= |chunks| then None
    else if !chunks[from].silent then Some(from)
    else SpeechFrom(chunks, from + 1)
  }

  /** The chunk on which speech starts. */
  function FirstSpeech(chunks: seq<Chunk>): Option<nat>
  {
    SpeechFrom(chunks, 0)
  }

  /** The producer stops after chunk `s`, speech having started at chunk `t`:
      the second silent chunk in a row after speech, or the timeout. */
  predicate EndsAt(chunks: seq<Chunk>, t: nat, s: nat)
    requires s < |chunks|
  {
    s == t + TIMEOUT + 1 || (s >= t + 2 && chunks[s - 1].silent && chunks[s].silent)
  }

  /** The first chunk at or after `from` after which the producer stops. */
  function StopFrom(chunks: seq<Chunk>, t: nat, from: nat): (r: Option<nat>)
    requires t < from
    ensures r.Some? ==> from <= r.value < |chunks| && EndsAt(chunks, t, r.value)
    ensures r.Some? ==> forall j :: from <= j < r.value ==> !EndsAt(chunks, t, j)
    ensures r.None? ==> forall j :: from <= j < |chunks| ==> !EndsAt(chunks, t, j)
    decreases |chunks| - from
  {
    if from >= |chunks| then None
    else if EndsAt(chunks, t, from) then Some(from)
    else StopFrom(chunks, t, from + 1)
  }

  function StopIndex(chunks: seq<Chunk>, t: nat): Option<nat>
  {
    StopFrom(chunks, t, t + 1)
  }

  /** The producer reads at most 77 chunks from the start of speech on; a
      device that delivers them is enough for it to stop. */
  lemma StopWithinTimeout(chunks: seq<Chunk>, t: nat)
    ensures StopIndex(chunks, t).Some? ==> StopIndex(chunks, t).value <= t + TIMEOUT + 1
    ensures |chunks| > t + TIMEOUT + 1 ==> StopIndex(chunks, t).Some?
  {
    if |chunks| > t + TIMEOUT + 1 {
      assert EndsAt(chunks, t, t + TIMEOUT + 1);
    }
  }

  /** The input holds every chunk the producer reads before it stops. */
  predicate Stops(chunks: seq<Chunk>)
  {
    FirstSpeech(chunks).Some? && StopIndex(chunks, FirstSpeech(chunks).value).Some?
  }

  /** The producer's counter only advances once speech has started: an
      input whose every chunk is silent, however long, never stops it. */
  lemma NoSpeechNeverStops(chunks: seq<Chunk>)
    ensures FirstSpeech(chunks).None? <==> forall k :: 0 <= k < |chunks| ==> chunks[k].silent
    ensures FirstSpeech(chunks).None? ==> !Stops(chunks)
  {
  }

  /** The list `data` after `n` chunks were read. */
  function Buffered(chunks: seq<Chunk>, n: nat): (r: seq<int>)
    requires n <= |chunks|
    requires FullChunks(chunks)
    ensures |r| == WORDS_PER_CHUNK * n
  {
    if n == 0 then [] else Buffered(chunks, n - 1) + chunks[n - 1].words
  }

  /** The cursor after the first loud chunk `t`, never below the buffer start. */
  function RewindPoint(t: nat): nat
  {
    if WORDS_PER_CHUNK * (t + 1) < REWIND then 0 else WORDS_PER_CHUNK * (t + 1) - REWIND
  }

  /** The number of chunks in `chunks[a..b]` that are not silent. */
  function SpeechCount(chunks: seq<Chunk>, a: nat, b: nat): nat
    requires b <= |chunks|
    decreases b
  {
    if b <= a then 0
    else SpeechCount(chunks, a, b - 1) + (if chunks[b - 1].silent then 0 else 1)
  }

  function Flatten(slices: seq<seq<int>>): seq<int>
  {
    if slices == [] then [] else Flatten(slices[..|slices| - 1]) + slices[|slices| - 1]
  }

  lemma FlattenSnoc(slices: seq<seq<int>>, x: seq<int>)
    ensures Flatten(slices + [x]) == Flatten(slices) + x
  {
    assert (slices + [x])[..|slices|] == slices;
  }

  /** Everything the producer uploads: the buffer from the rewind point to the
      end of the last chunk read. */
  function RequestBody(chunks: seq<Chunk>): seq<int>
    requires FullChunks(chunks) && Stops(chunks)
  {
    var t := FirstSpeech(chunks).value;
    var s := StopIndex(chunks, t).value;
    StopWithinTimeout(chunks, t);
    Buffered(chunks, s + 1)[RewindPoint(t)..]
  }

  /** The flush loop: `while i < len(data)` yields 512-element slices through
      `returnUpTo` until the cursor passes the end. */
  method FlushRest(data: seq<int>, i0: nat, slices0: seq<seq<int>>) returns (slices: seq<seq<int>>)
    requires i0 < |data|
    ensures |slices| > |slices0| && slices[..|slices0|] == slices0
    ensures Flatten(slices) == Flatten(slices0) + data[i0..]
    ensures forall k :: |slices0| <= k < |slices| - 1 ==> |slices[k]| == FLUSH_SLICE
    ensures 0 < |slices[|slices| - 1]| <= FLUSH_SLICE
  {
    var i := i0;
    slices := slices0;
    while i < |data|
      invariant i0 <= i <= |data| + 1 && i != |data|
      invariant |slices| >= |slices0| && slices[..|slices0|] == slices0
      invariant Flatten(slices) == Flatten(slices0) + data[i0..Min(i, |data|)]
      invariant i < |data| ==> forall k :: |slices0| <= k < |slices| ==> |slices[k]| == FLUSH_SLICE
      invariant i > |data| ==> |slices| > |slices0|
      invariant i > |data| ==> forall k :: |slices0| <= k < |slices| - 1 ==> |slices[k]| == FLUSH_SLICE
      invariant i > |data| ==> 0 < |slices[|slices| - 1]| <= FLUSH_SLICE
      decreases |data| + 1 - i
    {
      ghost var before := slices;
      ghost var at := i;
      var next := ReturnUpTo(i, data, FLUSH_SLICE);
      var temp := next.1;
      i := next.0;
      assert data[i0..Min(i, |data|)] == data[i0..at] + temp by {
        assert data[..at] + temp == data[..Min(i, |data|)];
      }
      slices := slices + [temp];
      FlattenSnoc(before, temp);
      assert slices[..|slices0|] == before[..|slices0|];
    }
  }

  /** The locals of `gen` while it captures: the buffer `data`, the cursor
      `i`, `num_silent`, `snd_started` and `counter`. */
  datatype CaptureState = CaptureState(data: seq<int>, i: nat, numSilent: nat, sndStarted: bool, counter: nat)

  /**
   * What holds of the capture state after `read` chunks, speech starting at
   * chunk `t` and the producer stopping after chunk `s`, with `slices`
   * yielded so far. The cursor stays more than one slice behind the end of
   * the buffer, so `returnUpTo` never overshoots during capture.
   */
  ghost predicate Capturing(chunks: seq<Chunk>, t: nat, s: nat, read: nat, st: CaptureState, slices: seq<seq<int>>)
  {
    && FullChunks(chunks) && read <= |chunks|
    && FirstSpeech(chunks) == Some(t) && StopIndex(chunks, t) == Some(s)
    && st.data == Buffered(chunks, read)
    && (!st.sndStarted ==> read <= t && st.numSilent == 0 && st.counter == 0 && st.i == 0 && slices == [])
    && (st.sndStarted ==> t < read <= s && st.counter == read - t)
    && (st.sndStarted ==> forall j :: t < j < read ==> !EndsAt(chunks, t, j))
    && (st.sndStarted ==> st.i == RewindPoint(t) + STREAM_SLICE * |slices| && st.i + STREAM_SLICE < |st.data|)
    && (st.sndStarted ==> Flatten(slices) == st.data[RewindPoint(t)..st.i])
    && (st.sndStarted ==> |slices| == SpeechCount(chunks, t + 1, read))
    && (forall k :: 0 <= k < |slices| ==> |slices[k]| == STREAM_SLICE)
    && st.numSilent <= 1
    && (st.numSilent == 1 <==> st.sndStarted && read > t + 1 && chunks[read - 1].silent)
  }

  /**
   * What holds after chunk `read` was appended and the first three branches
   * of the loop body ran, before the stop tests: as `Capturing`, with the
   * chunk counted in the buffer and in the slices but not yet in `counter`,
   * and `num_silent` counting the silent chunks in a row that end at `read`.
   */
  ghost predicate Absorbed(chunks: seq<Chunk>, t: nat, s: nat, read: nat, st: CaptureState, slices: seq<seq<int>>)
  {
    && FullChunks(chunks) && read < |chunks|
    && FirstSpeech(chunks) == Some(t) && StopIndex(chunks, t) == Some(s)
    && st.data == Buffered(chunks, read + 1)
    && (!st.sndStarted ==> read < t && st.numSilent == 0 && st.counter == 0 && st.i == 0 && slices == [])
    && (st.sndStarted ==> t <= read <= s && st.counter == read - t)
    && (st.sndStarted ==> forall j :: t < j < read ==> !EndsAt(chunks, t, j))
    && (st.sndStarted ==> st.i == RewindPoint(t) + STREAM_SLICE * |slices| && st.i + STREAM_SLICE < |st.data|)
    && (st.sndStarted ==> Flatten(slices) == st.data[RewindPoint(t)..st.i])
    && (st.sndStarted ==> |slices| == SpeechCount(chunks, t + 1, read + 1))
    && (forall k :: 0 <= k < |slices| ==> |slices[k]| == STREAM_SLICE)
    && st.numSilent == (if st.sndStarted && read > t && chunks[read].silent
                        then (if read > t + 1 && chunks[read - 1].silent then 2 else 1)
                        else 0)
  }

  /** A silent chunk before speech changes only the buffer. */
  lemma AbsorbQuiet(chunks: seq<Chunk>, t: nat, s: nat, read: nat, st: CaptureState, slices: seq<seq<int>>)
    requires Capturing(chunks, t, s, read, st, slices) && read < |chunks|
    requires chunks[read].silent && !st.sndStarted
    ensures Absorbed(chunks, t, s, read, st.(data := st.data + chunks[read].words), slices)
  {
  }

  /** A silent chunk after speech counts one more silence. */
  lemma AbsorbSilence(chunks: seq<Chunk>, t: nat, s: nat, read: nat, st: CaptureState, slices: seq<seq<int>>)
    requires Capturing(chunks, t, s, read, st, slices) && read < |chunks|
    requires chunks[read].silent && st.sndStarted
    ensures Absorbed(chunks, t, s, read,
                     st.(data := st.data + chunks[read].words, numSilent := st.numSilent + 1), slices)
  {
    var data := st.data + chunks[read].words;
    assert data[RewindPoint(t)..st.i] == st.data[RewindPoint(t)..st.i];
  }

  /** The first loud chunk is chunk `t`; the cursor goes back to the rewind point. */
  lemma AbsorbTrigger(chunks: seq<Chunk>, t: nat, s: nat, read: nat, st: CaptureState, slices: seq<seq<int>>)
    requires Capturing(chunks, t, s, read, st, slices) && read < |chunks|
    requires !chunks[read].silent && !st.sndStarted
    ensures var data := st.data + chunks[read].words;
            Absorbed(chunks, t, s, read,
                     st.(data := data, i := if |data| < REWIND then 0 else |data| - REWIND, sndStarted := true), slices)
  {
  }

  /** A later loud chunk yields the 1024 words after the cursor. */
  lemma AbsorbYield(chunks: seq<Chunk>, t: nat, s: nat, read: nat, st: CaptureState, slices: seq<seq<int>>)
    requires Capturing(chunks, t, s, read, st, slices) && read < |chunks|
    requires !chunks[read].silent && st.sndStarted
    ensures var data := st.data + chunks[read].words;
            var r := ReturnUpTo(st.i, data, STREAM_SLICE);
            st.i < |data| &&
            Absorbed(chunks, t, s, read, st.(data := data, i := r.0, numSilent := 0), slices + [r.1])
  {
    var data := st.data + chunks[read].words;
    var i := st.i;
    assert data[RewindPoint(t)..i] == st.data[RewindPoint(t)..i];
    var r := ReturnUpTo(i, data, STREAM_SLICE);
    assert r.1 == data[i..r.0] by {
      assert data[..i] + r.1 == data[..r.0];
    }
    FlattenSnoc(slices, r.1);
    assert data[RewindPoint(t)..r.0] == data[RewindPoint(t)..i] + data[i..r.0];
  }

  /** The two stop tests of the loop, in the order the loop body makes them. */
  predicate SilenceStop(st: CaptureState) { st.sndStarted && st.numSilent > 1 }
  predicate TimeoutStop(st: CaptureState) { st.counter > TIMEOUT }

  /** The state of the capture loop after `read` chunks, all silent: only the
      buffer has grown; speech has not started, the cursor is at 0, and
      neither `num_silent` nor `counter` has moved. */
  ghost predicate Waiting(chunks: seq<Chunk>, read: nat, st: CaptureState)
  {
    && FullChunks(chunks) && read <= |chunks|
    && st == CaptureState(Buffered(chunks, read), 0, 0, false, 0)
    && forall j :: 0 <= j < read ==> chunks[j].silent
  }

  /** A pass of the loop over a silent chunk before speech: as the chunk is
      silent and speech has not started, none of the three branches applies
      and only the words are appended; neither stop test holds, and `counter`
      stays, since it only advances once speech has started. */
  lemma SilentPass(chunks: seq<Chunk>, read: nat, st: CaptureState)
    requires Waiting(chunks, read, st) && read < |chunks| && chunks[read].silent
    ensures var next := st.(data := st.data + chunks[read].words);
            !SilenceStop(next) && !TimeoutStop(next) && Waiting(chunks, read + 1, next)
  {
  }

  /** The loop state after `n` passes over silent chunks, from the initial
      locals of `gen`. */
  ghost function SilentRun(chunks: seq<Chunk>, n: nat): CaptureState
    requires n <= |chunks|
  {
    if n == 0 then CaptureState([], 0, 0, false, 0)
    else var st := SilentRun(chunks, n - 1); st.(data := st.data + chunks[n - 1].words)
  }

  /** On an input with no loud chunk, no pass of the loop stops it, however
      many chunks are read: `gen` keeps reading for as long as the device
      delivers silence. */
  lemma {:induction false} SilenceNeverStopsLoop(chunks: seq<Chunk>, n: nat)
    requires FullChunks(chunks) && n <= |chunks|
    requires forall k :: 0 <= k < |chunks| ==> chunks[k].silent
    ensures Waiting(chunks, n, SilentRun(chunks, n))
    ensures forall j :: 0 < j <= n ==> !SilenceStop(SilentRun(chunks, j)) && !TimeoutStop(SilentRun(chunks, j))
  {
    if n > 0 {
      SilenceNeverStopsLoop(chunks, n - 1);
      SilentPass(chunks, n - 1, SilentRun(chunks, n - 1));
    }
  }

  /**
   * The first part of one pass of the capture loop on the next chunk: append
   * its words; a silent chunk after speech counts; the first loud chunk sets
   * the cursor back two chunks' worth of frames (never below 0) and starts
   * speech; a later loud chunk yields the next 1024 buffered words and resets
   * the silence counter.
   */
  method Absorb(ghost chunks: seq<Chunk>, ghost t: nat, ghost s: nat, ghost read: nat, ghost slices: seq<seq<int>>,
                st: CaptureState, chunk: Chunk)
    returns (next: CaptureState, yielded: Option<seq<int>>)
    requires Capturing(chunks, t, s, read, st, slices)
    requires read < |chunks| && chunk == chunks[read]
    ensures Absorbed(chunks, t, s, read, next, if yielded.Some? then slices + [yielded.value] else slices)
  {
    var data := st.data + chunk.words;
    var i, numSilent, sndStarted := st.i, st.numSilent, st.sndStarted;
    var silent := chunk.silent;
    yielded := None;

    if silent && sndStarted {
      AbsorbSilence(chunks, t, s, read, st, slices);
      numSilent := numSilent + 1;
    } else if !silent && !sndStarted {
      AbsorbTrigger(chunks, t, s, read, st, slices);
      i := if |data| < REWIND then 0 else |data| - REWIND;
      sndStarted := true;
    } else if !silent && sndStarted && !(i >= |data|) {
      AbsorbYield(chunks, t, s, read, st, slices);
      var r := ReturnUpTo(i, data, STREAM_SLICE);
      i := r.0;
      yielded := Some(r.1);
      numSilent := 0;
    } else if silent {
      AbsorbQuiet(chunks, t, s, read, st, slices);
    } else {
      // A loud chunk after speech with the cursor past the end: the cursor
      // stays a slice behind the end, so this does not occur.
      assert false;
    }
    next := CaptureState(data, i, numSilent, sndStarted, st.counter);
  }

  /**
   * The rest of the pass: stop on the second silent chunk in a row, or once
   * the counter of chunks since the start of speech exceeds 75; otherwise
   * count the chunk if speech has started. The producer stops exactly on
   * chunk `s`.
   */
  method Decide(ghost chunks: seq<Chunk>, ghost t: nat, ghost s: nat, ghost read: nat, ghost slices: seq<seq<int>>,
                st: CaptureState)
    returns (next: CaptureState, stop: Option<StopReason>)
    requires Absorbed(chunks, t, s, read, st, slices) && s <= t + TIMEOUT + 1
    ensures stop.None? ==> Capturing(chunks, t, s, read + 1, next, slices)
    ensures stop.Some? ==>
              && read == s && next.sndStarted
              && next.data == Buffered(chunks, s + 1)
              && RewindPoint(t) <= next.i && next.i + STREAM_SLICE < |next.data|
              && Flatten(slices) == next.data[RewindPoint(t)..next.i]
              && |slices| == SpeechCount(chunks, t + 1, s + 1)
              && (forall k :: 0 <= k < |slices| ==> |slices[k]| == STREAM_SLICE)
              && (stop == Some(Silence) <==> s >= t + 2 && chunks[s - 1].silent && chunks[s].silent)
  {
    next := st;
    if SilenceStop(st) {
      assert EndsAt(chunks, t, read);
      stop := Some(Silence);
    } else if TimeoutStop(st) {
      assert EndsAt(chunks, t, read);
      stop := Some(Timeout);
    } else {
      stop := None;
      if st.sndStarted {
        next := st.(counter := st.counter + 1);
      }
    }
  }

  /** The capture loop of `gen` (`while 1`), `Absorb` then `Decide` for each chunk read. */
  method Capture(chunks: seq<Chunk>) returns (data: seq<int>, i: nat, slices: seq<seq<int>>, reason: StopReason)
    requires FullChunks(chunks)
    requires Stops(chunks)
    ensures var t := FirstSpeech(chunks).value;
            var s := StopIndex(chunks, t).value;
            && s + 1 <= |chunks|
            && data == Buffered(chunks, s + 1)
            && RewindPoint(t) <= i && i + STREAM_SLICE < |data|
            && Flatten(slices) == data[RewindPoint(t)..i]
            && |slices| == SpeechCount(chunks, t + 1, s + 1)
            && (reason == Silence <==> s >= t + 2 && chunks[s - 1].silent && chunks[s].silent)
    ensures forall k :: 0 <= k < |slices| ==> |slices[k]| == STREAM_SLICE
  {
    ghost var t := FirstSpeech(chunks).value;
    ghost var s := StopIndex(chunks, t).value;
    StopWithinTimeout(chunks, t);
    var st := CaptureState([], 0, 0, false, 0);
    var read := 0;
    slices := [];
    while true
      invariant Capturing(chunks, t, s, read, st, slices)
      decreases |chunks| - read
    {
      var yielded, stop;
      st, yielded := Absorb(chunks, t, s, read, slices, st, chunks[read]);
      if yielded.Some? {
        slices := slices + [yielded.value];
      }
      st, stop := Decide(chunks, t, s, read, slices, st);
      if stop.Some? {
        reason := stop.value;
        break;
      }
      read := read + 1;
    }
    data, i := st.data, st.i;
  }

  /**
   * `gen`: the capture loop, then the flush of everything not yet yielded.
   * All the uploaded words are the buffer from the rewind point to the end,
   * each exactly once and in order; `streamed` slices of 1024 words come
   * first, then 512-word slices, the last of which may be shorter.
   */
  method Gen(chunks: seq<Chunk>) returns (slices: seq<seq<int>>, streamed: nat, reason: StopReason)
    requires FullChunks(chunks)
    requires Stops(chunks)
    ensures var t := FirstSpeech(chunks).value;
            var s := StopIndex(chunks, t).value;
            && s + 1 <= |chunks|
            && Flatten(slices) == Buffered(chunks, s + 1)[RewindPoint(t)..]
            && streamed == SpeechCount(chunks, t + 1, s + 1)
            && (reason == Silence <==> s >= t + 2 && chunks[s - 1].silent && chunks[s].silent)
    ensures streamed < |slices|
    ensures forall k :: 0 <= k < streamed ==> |slices[k]| == STREAM_SLICE
    ensures forall k :: streamed <= k < |slices| - 1 ==> |slices[k]| == FLUSH_SLICE
    ensures 0 < |slices[|slices| - 1]| <= FLUSH_SLICE
  {
    var data, i;
    data, i, slices, reason := Capture(chunks);
    streamed := |slices|;
    ghost var streamedSlices := slices;
    ghost var rp := RewindPoint(FirstSpeech(chunks).value);
    assert data[rp..] == data[rp..i] + data[i..];
    slices := FlushRest(data, i, slices);
    assert forall k :: 0 <= k < streamed ==> slices[k] == streamedSlices[k];
  }

  /**
   * `activeListenToAllOptionsWithStreaming`: the request body is what `gen`
   * yields; the recogniser's answer becomes a one-element list, and a
   * response without a transcript becomes None.
   */
  method ActiveListenStreaming(chunks: seq<Chunk>, recognise: seq<int> -> Option<string>)
    returns (r: Option<seq<string>>)
    requires FullChunks(chunks) && Stops(chunks)
    ensures recognise(RequestBody(chunks)).None? ==> r.None?
    ensures recognise(RequestBody(chunks)).Some? ==> r == Some([recognise(RequestBody(chunks)).value])
  {
    var slices, _, _ := Gen(chunks);
    var result := recognise(Flatten(slices));
    if result.Some? {
      return Some([result.value]);
    }
    return None;
  }

  /** Three silent chunks, five loud ones, then two silent ones: speech starts
      on the fourth chunk with the cursor at the buffer start, four slices are
      streamed, and the producer stops after the tenth chunk, on silence. */
  lemma ThreeFiveTwo(chunks: seq<Chunk>)
    requires |chunks| >= 10
    requires forall j :: 0 <= j < 3 ==> chunks[j].silent
    requires forall j :: 3 <= j < 8 ==> !chunks[j].silent
    requires chunks[8].silent && chunks[9].silent
    ensures FirstSpeech(chunks) == Some(3)
    ensures RewindPoint(3) == 0
    ensures StopIndex(chunks, 3) == Some(9)
    ensures SpeechCount(chunks, 4, 10) == 4
  {
    assert SpeechFrom(chunks, 3) == Some(3);
    assert SpeechFrom(chunks, 2) == Some(3);
    assert SpeechFrom(chunks, 1) == Some(3);
    assert EndsAt(chunks, 3, 9);
    assert StopFrom(chunks, 3, 9) == Some(9);
    assert StopFrom(chunks, 3, 8) == Some(9);
    assert StopFrom(chunks, 3, 7) == Some(9);
    assert StopFrom(chunks, 3, 6) == Some(9);
    assert StopFrom(chunks, 3, 5) == Some(9);
    assert SpeechCount(chunks, 4, 4) == 0;
    assert SpeechCount(chunks, 4, 5) == 1;
    assert SpeechCount(chunks, 4, 6) == 2;
    assert SpeechCount(chunks, 4, 7) == 3;
    assert SpeechCount(chunks, 4, 8) == 4;
    assert SpeechCount(chunks, 4, 9) == 4;
  }
}
