/**
 * The batch side of the microphone: the energy score of a frame, threshold
 * calibration, the passive (wake-word) listener, the batch active listener
 * and the dispatch between batch and streaming capture. Frames are opaque
 * values of type F; the RMS of a frame, the batch transcriber and the
 * streaming recogniser are foreign calls passed in as functions. The audio a
 * listener reads is the input sequence `audio`, consumed from its start.
 */
module Mic {
  import opened Wrappers
  import opened RollingWindow
  import Text
  import MicStreaming

  /** `RATE / CHUNK * THRESHOLD_TIME` = 16000 / 1024 * 1 under Python 2 integer division. */
  const CALIBRATION_FRAMES: nat := 15
  /** Window lengths: `range(20)` in `fetchThreshold`, `range(30)` in `passiveListen` and the active listener. */
  const FETCH_WINDOW: nat := 20
  const PASSIVE_WINDOW: nat := 30
  const ACTIVE_WINDOW: nat := 30
  /** `RATE / CHUNK * LISTEN_TIME` = 15 * 10 frames of passive waiting. */
  const LISTEN_FRAMES: nat := 150
  /** `frames[-20:]` */
  const PRE_ROLL: nat := 20
  /** `RATE / CHUNK * DELAY_MULTIPLIER` = 15 frames recorded after a detection. */
  const POST_ROLL: nat := 15
  /** `RATE / CHUNK * LISTEN_TIME` = 15 * 12 frames at most in active listening. */
  const ACTIVE_FRAMES: nat := 180

  /** `getScore`: `audioop.rms(data, 2) / 3` under integer division, so a
      natural number; a silent (all-zero) frame has RMS 0 and scores 0. */
  function Score(rms: nat): (s: nat)
    ensures 3 * s <= rms < 3 * s + 3
    ensures rms == 0 ==> s == 0
  {
    rms / 3
  }

  function Scores<F>(frames: seq<F>, rms: F -> nat): (r: seq<int>)
    ensures |r| == |frames|
    ensures forall k :: 0 <= k < |frames| ==> r[k] == Score(rms(frames[k]))
  {
    seq(|frames|, k requires 0 <= k < |frames| => Score(rms(frames[k])))
  }

  /** The threshold after calibrating with `scores` in a window of `size`
      seeded with 0, 1, ..., size - 1: the floor of the window's mean, times 1.8. */
  function CalibrationThreshold(size: nat, scores: seq<int>): real
    requires size > 0
  {
    (Sum(PushAll(Range(0, size), scores)) / size) as real * 1.8
  }

  /** Calibration pushes only 15 scores, so the seeds 15, ..., size - 1 are still in the window. */
  lemma CalibrationKeepsSeeds(size: nat, scores: seq<int>)
    requires size >= CALIBRATION_FRAMES && |scores| == CALIBRATION_FRAMES
    ensures PushAll(Range(0, size), scores) == Range(CALIBRATION_FRAMES, size) + scores
  {
    PushAllIsSuffix(Range(0, size), scores);
    assert Range(0, size)[CALIBRATION_FRAMES..] == Range(CALIBRATION_FRAMES, size);
  }

  /** `fetchThreshold`'s threshold is the floor of (85 + the sum of the 15
      scores) / 20, times 1.8: never below 7.2, even in total silence. */
  lemma FetchThresholdFormula(scores: seq<int>)
    requires |scores| == CALIBRATION_FRAMES
    requires forall k :: 0 <= k < |scores| ==> scores[k] >= 0
    ensures CalibrationThreshold(FETCH_WINDOW, scores) == ((85 + Sum(scores)) / 20) as real * 1.8
    ensures CalibrationThreshold(FETCH_WINDOW, scores) >= 7.2
  {
    CalibrationKeepsSeeds(FETCH_WINDOW, scores);
    SumAppend(Range(CALIBRATION_FRAMES, FETCH_WINDOW), scores);
    SumRange(CALIBRATION_FRAMES, FETCH_WINDOW);
    SumNonNegative(scores);
  }

  /** `passiveListen`'s threshold is the floor of (330 + the sum of the 15
      scores) / 30, times 1.8: never below 19.8, even in total silence. */
  lemma PassiveThresholdFormula(scores: seq<int>)
    requires |scores| == CALIBRATION_FRAMES
    requires forall k :: 0 <= k < |scores| ==> scores[k] >= 0
    ensures CalibrationThreshold(PASSIVE_WINDOW, scores) == ((330 + Sum(scores)) / 30) as real * 1.8
    ensures CalibrationThreshold(PASSIVE_WINDOW, scores) >= 19.8
  {
    CalibrationKeepsSeeds(PASSIVE_WINDOW, scores);
    SumAppend(Range(CALIBRATION_FRAMES, PASSIVE_WINDOW), scores);
    SumRange(CALIBRATION_FRAMES, PASSIVE_WINDOW);
    SumNonNegative(scores);
  }

  /** The calibration loop shared by `fetchThreshold` and the first loop of
      `passiveListen`: 15 reads, each popping the oldest window entry and
      appending the frame's score; the threshold is the last average times 1.8. */
  method Calibrate<F>(audio: seq<F>, rms: F -> nat, size: nat) returns (threshold: real)
    requires size > 0 && |audio| >= CALIBRATION_FRAMES
    ensures threshold == CalibrationThreshold(size, Scores(audio[..CALIBRATION_FRAMES], rms))
  {
    var lastN := Range(0, size);
    var average := 0;
    for n := 0 to CALIBRATION_FRAMES
      invariant lastN == PushAll(Range(0, size), Scores(audio[..n], rms))
      invariant n > 0 ==> average == Sum(lastN) / |lastN|
    {
      var data := audio[n];
      assert Scores(audio[..n + 1], rms)[..n] == Scores(audio[..n], rms);
      lastN := lastN[1..] + [Score(rms(data))];
      average := Sum(lastN) / |lastN|;
    }
    threshold := average as real * 1.8;
  }

  /** `fetchThreshold`: calibrate on the first 15 frames with a window of 20. */
  method FetchThreshold<F>(audio: seq<F>, rms: F -> nat) returns (threshold: real)
    requires |audio| >= CALIBRATION_FRAMES
    ensures threshold == CalibrationThreshold(FETCH_WINDOW, Scores(audio[..CALIBRATION_FRAMES], rms))
    ensures threshold >= 7.2
  {
    threshold := Calibrate(audio, rms, FETCH_WINDOW);
    FetchThresholdFormula(Scores(audio[..CALIBRATION_FRAMES], rms));
  }

  /** The first frame from `from` on, before frame `end`, whose score is
      strictly above the threshold. */
  function FirstLoud<F>(audio: seq<F>, rms: F -> nat, threshold: real, from: nat, end: nat): (r: Option<nat>)
    requires from <= end <= |audio|
    ensures r.Some? ==> from <= r.value < end && Score(rms(audio[r.value])) as real > threshold
    ensures r.Some? ==> forall j :: from <= j < r.value ==> Score(rms(audio[j])) as real <= threshold
    ensures r.None? <==> forall j :: from <= j < end ==> Score(rms(audio[j])) as real <= threshold
    decreases end - from
  {
    if from == end then None
    else if Score(rms(audio[from])) as real > threshold then Some(from)
    else FirstLoud(audio, rms, threshold, from + 1, end)
  }

  datatype PassiveResult =
    | NoDisturbance                            // (None, None)
    | Woke(threshold: real, persona: string)   // (THRESHOLD, PERSONA)
    | NotPersona(transcripts: seq<string>)     // (False, transcribed)

  /** The first frame of passive waiting, and the frame after the last one. */
  const LISTEN_START: nat := CALIBRATION_FRAMES
  const LISTEN_END: nat := CALIBRATION_FRAMES + LISTEN_FRAMES

  function PassiveThreshold<F>(audio: seq<F>, rms: F -> nat): real
    requires |audio| >= CALIBRATION_FRAMES
  {
    CalibrationThreshold(PASSIVE_WINDOW, Scores(audio[..CALIBRATION_FRAMES], rms))
  }

  /** The frame of passive waiting, if any, whose score first exceeds `threshold`. */
  function Disturbance<F>(audio: seq<F>, rms: F -> nat, threshold: real): (r: Option<nat>)
    requires |audio| >= LISTEN_END
    ensures r.Some? ==> LISTEN_START <= r.value < LISTEN_END
    ensures r.Some? ==> Score(rms(audio[r.value])) as real > threshold
    ensures r.Some? ==> forall j :: LISTEN_START <= j < r.value ==> Score(rms(audio[j])) as real <= threshold
    ensures r.None? <==> forall j :: LISTEN_START <= j < LISTEN_END ==> Score(rms(audio[j])) as real <= threshold
  {
    FirstLoud(audio, rms, threshold, LISTEN_START, LISTEN_END)
  }

  /** The frame that raises the passive alarm, if any. */
  function PassiveTrigger<F>(audio: seq<F>, rms: F -> nat): Option<nat>
    requires |audio| >= LISTEN_END
  {
    Disturbance(audio, rms, PassiveThreshold(audio, rms))
  }

  /** The waiting loop of `passiveListen`: read frames until one scores above
      the threshold, for at most 150 frames. */
  method AwaitDisturbance<F>(audio: seq<F>, rms: F -> nat, threshold: real) returns (detected: Option<nat>, frames: seq<F>)
    requires |audio| >= LISTEN_END
    ensures detected == Disturbance(audio, rms, threshold)
    ensures detected.Some? ==> frames == audio[LISTEN_START..detected.value + 1]
  {
    frames := [];
    var n := 0;
    while n < LISTEN_FRAMES
      invariant n <= LISTEN_FRAMES
      invariant frames == audio[LISTEN_START..LISTEN_START + n]
      invariant forall j :: LISTEN_START <= j < LISTEN_START + n ==> Score(rms(audio[j])) as real <= threshold
    {
      var data := audio[LISTEN_START + n];
      frames := frames + [data];
      if Score(rms(data)) as real > threshold {
        detected := Some(LISTEN_START + n);
        ghost var other := Disturbance(audio, rms, threshold);
        assert other.Some? && other.value == LISTEN_START + n by {
          if other.None? {
            assert false;
          } else if other.value < LISTEN_START + n {
          } else if other.value > LISTEN_START + n {
          }
        }
        return;
      }
      n := n + 1;
    }
    detected := None;
  }

  /** The first frame kept after a detection at frame `d`: at most 20 frames
      of waiting, up to and including `d`. */
  function PreRollStart(d: nat): nat
    requires d >= LISTEN_START
  {
    if d + 1 - LISTEN_START > PRE_ROLL then d + 1 - PRE_ROLL else LISTEN_START
  }

  /** The 15 frames read after the detection at frame `d`, appended to the
      kept frames. */
  method RecordPostRoll<F>(audio: seq<F>, d: nat, kept: seq<F>) returns (frames: seq<F>)
    requires LISTEN_START <= d && d + 1 + POST_ROLL <= |audio|
    requires kept == audio[PreRollStart(d)..d + 1]
    ensures frames == audio[PreRollStart(d)..d + 1 + POST_ROLL]
  {
    frames := kept;
    for k := 0 to POST_ROLL
      invariant frames == audio[PreRollStart(d)..d + 1 + k]
    {
      frames := frames + [audio[d + 1 + k]];
    }
  }

  /** The recording after a detection at `d` holds 16 to 35 frames, with the
      loud frame 16th from the end. */
  lemma UtteranceBounds<F>(audio: seq<F>, d: nat)
    requires LISTEN_START <= d && d + 1 + POST_ROLL <= |audio|
    ensures var u := audio[PreRollStart(d)..d + 1 + POST_ROLL];
            POST_ROLL < |u| <= PRE_ROLL + POST_ROLL && u[|u| - POST_ROLL - 1] == audio[d]
  {
  }

  /** `any(PERSONA in phrase for phrase in transcribed)`, a case-sensitive substring test. */
  predicate HeardPersona(transcripts: seq<string>, persona: string)
  {
    exists k :: 0 <= k < |transcripts| && Text.Occurs(persona, transcripts[k])
  }

  /**
   * `passiveListen`: calibrate on 15 frames (window of 30), then wait up to
   * 150 frames for one whose score exceeds the threshold. Without one the
   * result is (None, None). Otherwise keep the last at most 20 frames up to
   * and including the loud one, record 15 more, and transcribe them: the
   * wake phrase in any transcript gives (threshold, persona), else (False,
   * transcripts).
   */
  method PassiveListen<F>(audio: seq<F>, rms: F -> nat, persona: string, transcribe: seq<F> -> seq<string>)
    returns (r: PassiveResult, utterance: seq<F>)
    requires |audio| >= LISTEN_END + POST_ROLL
    ensures r.NoDisturbance? <==>
              forall j :: LISTEN_START <= j < LISTEN_END ==> Score(rms(audio[j])) as real <= PassiveThreshold(audio, rms)
    ensures r.NoDisturbance? ==> utterance == []
    ensures PassiveTrigger(audio, rms).Some? ==>
              var d := PassiveTrigger(audio, rms).value;
              && utterance == audio[PreRollStart(d)..d + 1 + POST_ROLL]
              && POST_ROLL < |utterance| <= PRE_ROLL + POST_ROLL
              && utterance[|utterance| - POST_ROLL - 1] == audio[d]
    ensures !r.NoDisturbance? ==>
              r == if HeardPersona(transcribe(utterance), persona)
                   then Woke(PassiveThreshold(audio, rms), persona)
                   else NotPersona(transcribe(utterance))
  {
    var threshold := Calibrate(audio, rms, PASSIVE_WINDOW);

    var detected, frames := AwaitDisturbance(audio, rms, threshold);
    if detected.None? {
      return NoDisturbance, [];
    }

    if |frames| > PRE_ROLL {
      frames := frames[|frames| - PRE_ROLL..];
    }
    var d := detected.value;
    assert frames == audio[PreRollStart(d)..d + 1];

    frames := RecordPostRoll(audio, d, frames);
    UtteranceBounds(audio, d);
    utterance := frames;

    var transcribed := transcribe(frames);
    if exists k :: 0 <= k < |transcribed| && Text.Occurs(persona, transcribed[k]) {
      r := Woke(threshold, persona);
    } else {
      r := NotPersona(transcribed);
    }
  }

  /** The active window's mean after `n` of the `scores`, seeded with 30
      copies of threshold * 1.2, has dropped below threshold * 0.8. */
  predicate Quiet(threshold: real, scores: seq<int>, n: nat)
    requires 0 < n <= |scores|
  {
    var window := PushAll(Repeat(threshold * 1.2, ACTIVE_WINDOW), RealScores(scores[..n]));
    SumR(window) / ACTIVE_WINDOW as real < threshold * 0.8
  }

  function RealScores(scores: seq<int>): (r: seq<real>)
    ensures |r| == |scores| && forall k :: 0 <= k < |scores| ==> r[k] == scores[k] as real
  {
    seq(|scores|, k requires 0 <= k < |scores| => scores[k] as real)
  }

  /** The number of frames the active listener records: the first `n` at or
      after `from` after which the window is quiet, or all of `scores`. */
  function QuietFrom(threshold: real, scores: seq<int>, from: nat): (n: nat)
    requires 0 < from <= |scores|
    ensures from <= n <= |scores|
    ensures forall m :: from <= m < n ==> !Quiet(threshold, scores, m)
    ensures n < |scores| ==> Quiet(threshold, scores, n)
    decreases |scores| - from
  {
    if from == |scores| || Quiet(threshold, scores, from) then from
    else QuietFrom(threshold, scores, from + 1)
  }

  /** With a non-negative threshold and non-negative scores, the window cannot
      be quiet during the first 10 frames: the 20 remaining seeds alone keep
      its mean at threshold * 0.8 or above. */
  lemma NotQuietBeforeEleven(threshold: real, scores: seq<int>, n: nat)
    requires threshold >= 0.0
    requires forall k :: 0 <= k < |scores| ==> scores[k] >= 0
    requires 0 < n <= 10 && n <= |scores|
    ensures !Quiet(threshold, scores, n)
  {
    var c := threshold * 1.2;
    var xs := RealScores(scores[..n]);
    PushAllIsSuffix(Repeat(c, ACTIVE_WINDOW), xs);
    assert Repeat(c, ACTIVE_WINDOW)[n..] == Repeat(c, ACTIVE_WINDOW - n);
    var window := PushAll(Repeat(c, ACTIVE_WINDOW), xs);
    assert window == Repeat(c, ACTIVE_WINDOW - n) + xs;
    SumRAppend(Repeat(c, ACTIVE_WINDOW - n), xs);
    SumRepeat(c, ACTIVE_WINDOW - n);
    SumRNonNegative(xs);
    SeedsHoldMean(threshold, (ACTIVE_WINDOW - n) as real, SumR(xs));
  }

  /** At least 20 seeds of threshold * 1.2 among 30 keep the mean at
      threshold * 0.8 or above, whatever non-negative scores fill the rest. */
  lemma SeedsHoldMean(threshold: real, seeds: real, rest: real)
    requires threshold >= 0.0 && seeds >= 20.0 && rest >= 0.0
    ensures (seeds * (threshold * 1.2) + rest) / 30.0 >= threshold * 0.8
  {
    var c := threshold * 1.2;
    assert (seeds - 20.0) * c >= 0.0;
    assert seeds * c + rest >= 20.0 * c;
  }

  /** In total silence with a positive threshold the active listener records
      exactly 11 frames. */
  lemma SilenceStopsAtEleven(threshold: real, scores: seq<int>)
    requires threshold > 0.0
    requires 11 <= |scores|
    requires forall k :: 0 <= k < 11 ==> scores[k] == 0
    ensures QuietFrom(threshold, scores, 1) == 11
  {
    forall n | 0 < n <= 10 ensures !Quiet(threshold, scores, n) {
      NotQuietBeforeEleven(threshold, scores[..11], n);
      assert scores[..11][..n] == scores[..n];
    }
    var c := threshold * 1.2;
    var xs := RealScores(scores[..11]);
    PushAllIsSuffix(Repeat(c, ACTIVE_WINDOW), xs);
    assert Repeat(c, ACTIVE_WINDOW)[11..] == Repeat(c, ACTIVE_WINDOW - 11);
    SumRAppend(Repeat(c, ACTIVE_WINDOW - 11), xs);
    SumRepeat(c, ACTIVE_WINDOW - 11);
    assert xs == Repeat(0.0, 11);
    SumRepeat(0.0, 11);
    assert Quiet(threshold, scores, 11);
  }

  /** Frames read for calibration before active listening: none when the caller supplies a threshold. */
  function ActiveStart(threshold: Option<real>): nat
  {
    if threshold.None? then CALIBRATION_FRAMES else 0
  }

  function ActiveThreshold<F>(threshold: Option<real>, audio: seq<F>, rms: F -> nat): real
    requires |audio| >= ActiveStart(threshold)
  {
    if threshold.Some? then threshold.value
    else CalibrationThreshold(FETCH_WINDOW, Scores(audio[..CALIBRATION_FRAMES], rms))
  }

  /** The frames the batch active listener records and sends to the transcriber. */
  function BatchUtterance<F>(threshold: Option<real>, audio: seq<F>, rms: F -> nat): seq<F>
    requires |audio| >= ActiveStart(threshold) + ACTIVE_FRAMES
  {
    var start := ActiveStart(threshold);
    var scores := Scores(audio[start..start + ACTIVE_FRAMES], rms);
    audio[start..start + QuietFrom(ActiveThreshold(threshold, audio, rms), scores, 1)]
  }

  /** One more frame pushes its score onto the active window. */
  lemma ActiveWindowStep(t: real, scores: seq<int>, n: nat)
    requires n < |scores|
    ensures var w := PushAll(Repeat(t * 1.2, ACTIVE_WINDOW), RealScores(scores[..n]));
            PushAll(Repeat(t * 1.2, ACTIVE_WINDOW), RealScores(scores[..n + 1])) == w[1..] + [scores[n] as real]
  {
    var xs := RealScores(scores[..n + 1]);
    assert xs[..n] == RealScores(scores[..n]);
  }

  /** The state of the active loop after `n` frames: every frame so far
      recorded, and the window holding their scores after its seeds. */
  ghost predicate Recorded<F>(audio: seq<F>, start: nat, scores: seq<int>, t: real, n: nat,
                              frames: seq<F>, lastN: seq<real>)
  {
    start + n <= |audio| && n <= |scores| &&
    frames == audio[start..start + n] &&
    lastN == PushAll(Repeat(t * 1.2, ACTIVE_WINDOW), RealScores(scores[..n]))
  }

  /** One frame of the active loop: append it to `frames`, push its score
      onto the window (`lastN.pop(0)`, `lastN.append(score)`) and test the
      window's mean. */
  method ActiveFrame<F>(audio: seq<F>, start: nat, rms: F -> nat, t: real, ghost scores: seq<int>,
                        n: nat, frames: seq<F>, lastN: seq<real>)
    returns (frames': seq<F>, lastN': seq<real>, quiet: bool)
    requires start + n < |audio| && n < |scores| && scores[n] == Score(rms(audio[start + n]))
    requires Recorded(audio, start, scores, t, n, frames, lastN)
    requires n < QuietFrom(t, scores, 1) || QuietFrom(t, scores, 1) == |scores|
    ensures Recorded(audio, start, scores, t, n + 1, frames', lastN')
    ensures quiet == Quiet(t, scores, n + 1)
    ensures n + 1 <= QuietFrom(t, scores, 1)
    ensures if quiet then n + 1 == QuietFrom(t, scores, 1)
            else n + 1 < QuietFrom(t, scores, 1) || QuietFrom(t, scores, 1) == |scores|
  {
    var data := audio[start + n];
    frames' := frames + [data];
    var score := Score(rms(data));
    ActiveWindowStep(t, scores, n);
    lastN' := lastN[1..] + [score as real];
    var average := SumR(lastN') / |lastN'| as real;
    quiet := average < t * 0.8;
  }

  method RecordUntilQuiet<F>(audio: seq<F>, start: nat, rms: F -> nat, t: real) returns (frames: seq<F>)
    requires |audio| >= start + ACTIVE_FRAMES
    ensures frames == audio[start..start + QuietFrom(t, Scores(audio[start..start + ACTIVE_FRAMES], rms), 1)]
  {
    ghost var scores := Scores(audio[start..start + ACTIVE_FRAMES], rms);
    ghost var q := QuietFrom(t, scores, 1);
    frames := [];
    var lastN := Repeat(t * 1.2, ACTIVE_WINDOW);
    var n := 0;
    var quiet := false;
    // `quiet` stands for the `break` once the window's mean drops.
    while n < ACTIVE_FRAMES && !quiet
      invariant n <= q
      invariant if quiet then n == q else n < q || q == ACTIVE_FRAMES
      invariant Recorded(audio, start, scores, t, n, frames, lastN)
    {
      frames, lastN, quiet := ActiveFrame(audio, start, rms, t, scores, n, frames, lastN);
      n := n + 1;
    }
  }

  /**
   * `activeListenToAllOptions`: without a threshold, fetch one first. Then
   * read frames into a window seeded with 30 copies of threshold * 1.2,
   * stopping after the first frame that brings the window's mean below
   * threshold * 0.8, or after 180 frames; every frame read is kept and the
   * whole recording goes to the transcriber, whose list is the result.
   */
  method ActiveListenToAllOptions<F>(threshold: Option<real>, audio: seq<F>, rms: F -> nat, transcribe: seq<F> -> seq<string>)
    returns (transcripts: seq<string>, utterance: seq<F>)
    requires |audio| >= ActiveStart(threshold) + ACTIVE_FRAMES
    ensures utterance == BatchUtterance(threshold, audio, rms)
    ensures 0 < |utterance| <= ACTIVE_FRAMES
    ensures utterance == audio[ActiveStart(threshold)..ActiveStart(threshold) + |utterance|]
    ensures transcripts == transcribe(utterance)
  {
    var t: real;
    var start := 0;
    if threshold.None? {
      t := FetchThreshold(audio, rms);
      start := CALIBRATION_FRAMES;
    } else {
      t := threshold.value;
    }
    utterance := RecordUntilQuiet(audio, start, rms, t);
    transcripts := transcribe(utterance);
  }

  /** The active engine streams when its configuration says `engine_mode: stream`. */
  predicate IsStreamEngine(config: map<string, string>)
  {
    "engine_mode" in config && config["engine_mode"] == "stream"
  }

  /**
   * `activeListen`: the streaming listener when the engine streams, the
   * batch listener otherwise; an empty (falsy) result becomes None.
   */
  method ActiveListen<F>(config: map<string, string>, threshold: Option<real>,
                         audio: seq<F>, rms: F -> nat, transcribe: seq<F> -> seq<string>,
                         chunks: seq<MicStreaming.Chunk>, recognise: seq<int> -> Option<string>)
    returns (r: Option<seq<string>>)
    requires IsStreamEngine(config) ==> MicStreaming.FullChunks(chunks) && MicStreaming.Stops(chunks)
    requires !IsStreamEngine(config) ==> |audio| >= ActiveStart(threshold) + ACTIVE_FRAMES
    ensures r.Some? ==> r.value != []
    ensures IsStreamEngine(config) ==>
              (r.Some? <==> recognise(MicStreaming.RequestBody(chunks)).Some?) &&
              (r.Some? ==> r.value == [recognise(MicStreaming.RequestBody(chunks)).value])
    ensures !IsStreamEngine(config) ==>
              var options := transcribe(BatchUtterance(threshold, audio, rms));
              (r.Some? <==> options != []) && (r.Some? ==> r.value == options)
  {
    var options: Option<seq<string>>;
    if IsStreamEngine(config) {
      options := MicStreaming.ActiveListenStreaming(chunks, recognise);
    } else {
      var transcripts, _ := ActiveListenToAllOptions(threshold, audio, rms, transcribe);
      options := Some(transcripts);
    }
    if options.Some? && options.value != [] {
      return options;
    }
    return None;
  }
}
