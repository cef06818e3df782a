/**
 * Model of src/silero.rs: a voice-activity detector that cuts audio into
 * fixed-size chunks, asks a recurrent model for one speech probability per
 * chunk, and turns the probabilities into speech segments with a one-threshold
 * hysteresis rule.
 *
 * The ONNX model is an oracle (`Detector`): the chunk, the recurrent state and
 * the sample rate go in; a probability and possibly a new state come out.
 */
module Silero {

  datatype Option<T> = None | Some(value: T)

  /** The value of an operation, or the error with which the source's `?` returns early. */
  datatype Result<T> = Ok(value: T) | Err(error: VadError)

  datatype VadError =
    | InferenceFailed   // running the model, building its input tensors or extracting "output" failed
    | StateNotFound     // the model outputs hold no "stateN" tensor

  /** A chunk size: `audio.chunks(0)` panics, so it is positive. */
  type Pos = n: nat | 0 < n witness 1

  /** A detected speech region, the samples `start .. end` of one audio clip. */
  datatype Segment = Segment(start: nat, end: nat)

  /** A dense tensor: its shape and its elements in row-major order. */
  datatype Tensor = Tensor(shape: seq<nat>, data: seq<real>)

  /** What one run of the model gives back: a failure, or the first element of
      "output" together with the "stateN" output if the model produced one. */
  datatype Inference = RunFailed | Ran(prob: real, stateN: Option<Tensor>)

  /** The model: input chunk, recurrent state and sample rate to the outcome of one run. */
  type Detector = (seq<real>, Tensor, int) -> Inference

  /** The sample rate handed to the model with every chunk. */
  const SAMPLE_RATE: int := 16000

  /** Number of elements a tensor of the given shape holds. */
  function ShapeSize(shape: seq<nat>): nat
  {
    if shape == [] then 1 else shape[0] * ShapeSize(shape[1..])
  }

  /** The recurrent state of a fresh session: shape [2, 1, 128], all zeros. */
  function ZeroState(): (t: Tensor)
    ensures t.shape == [2, 1, 128]
    ensures |t.data| == ShapeSize(t.shape) == 256
    ensures forall i :: 0 <= i < |t.data| ==> t.data[i] == 0.0
  {
    Tensor([2, 1, 128], seq(256, _ => 0.0))
  }

  /** One call of `detect` as a function of the chunk and the state before it:
      the probability and the state after it, or the error it returns. */
  function Infer(model: Detector, chunk: seq<real>, state: Tensor): (r: Result<(real, Tensor)>)
    ensures r.Ok? <==> model(chunk, state, SAMPLE_RATE).Ran? && model(chunk, state, SAMPLE_RATE).stateN.Some?
    ensures r.Ok? ==> r.value == (model(chunk, state, SAMPLE_RATE).prob, model(chunk, state, SAMPLE_RATE).stateN.value)
    ensures r == Err(StateNotFound) <==> model(chunk, state, SAMPLE_RATE).Ran? && model(chunk, state, SAMPLE_RATE).stateN.None?
  {
    match model(chunk, state, SAMPLE_RATE)
    case RunFailed => Err(InferenceFailed)
    case Ran(p, None) => Err(StateNotFound)
    case Ran(p, Some(s)) => Ok((p, s))
  }

  // ---------------------------------------------------------------------------
  // Chunking
  // ---------------------------------------------------------------------------

  /** The number of full chunks `audio.chunks(cs)` yields before the first short
      one (the trailing remainder is never evaluated). */
  function NumChunks(len: nat, cs: Pos): nat
    decreases len
  {
    if len < cs then 0 else NumChunks(len - cs, cs) + 1
  }

  /** Every full chunk is counted, and what is left is shorter than a chunk. */
  lemma {:induction false} NumChunksBounds(len: nat, cs: Pos)
    ensures NumChunks(len, cs) * cs <= len < NumChunks(len, cs) * cs + cs
    decreases len
  {
    if len >= cs {
      NumChunksBounds(len - cs, cs);
      var n := NumChunks(len - cs, cs);
      assert (n + 1) * cs == n * cs + cs;
    }
  }

  /** Chunk `i` of the audio: the samples `i * cs .. (i + 1) * cs`. */
  function Chunk(audio: seq<real>, cs: Pos, i: nat): (c: seq<real>)
    requires (i + 1) * cs <= |audio|
    ensures |c| == cs
    ensures forall j :: 0 <= j < cs ==> c[j] == audio[i * cs + j]
  {
    audio[i * cs .. (i + 1) * cs]
  }

  /** Runs the model over the first `n` chunks of the audio from the zero state,
      threading the recurrent state from one chunk to the next: the
      probabilities and the final state, or the first error. */
  function RunChunks(model: Detector, cs: Pos, audio: seq<real>, n: nat): (r: Result<(seq<real>, Tensor)>)
    requires n * cs <= |audio|
    ensures r.Ok? ==> |r.value.0| == n
  {
    if n == 0 then Ok(([], ZeroState()))
    else
      assert (n - 1) * cs <= n * cs;
      match RunChunks(model, cs, audio, n - 1)
      case Err(e) => Err(e)
      case Ok((ps, state)) =>
        match Infer(model, Chunk(audio, cs, n - 1), state)
        case Err(e) => Err(e)
        case Ok((p, state')) => Ok((ps + [p], state'))
  }

  // ---------------------------------------------------------------------------
  // Hysteresis
  // ---------------------------------------------------------------------------

  /** The state of the segmentation loop: the start of the open run, if any,
      and the segments emitted so far. */
  datatype Hysteresis = Hysteresis(start: Option<nat>, segments: seq<Segment>)

  /** What chunk `index`, of probability `prob`, does to the loop state. */
  function Step(h: Hysteresis, index: nat, prob: real, threshold: real, cs: Pos): (r: Hysteresis)
    ensures r.start.Some? <==> prob > threshold
    ensures r.start.Some? && h.start.Some? ==> r.start == h.start
    ensures h.segments <= r.segments && |r.segments| <= |h.segments| + 1
    ensures |r.segments| == |h.segments| + 1 <==> h.start.Some? && prob <= threshold
  {
    if prob > threshold then
      if h.start.None? then Hysteresis(Some(index * cs), h.segments) else h
    else
      match h.start
      case Some(s) => Hysteresis(None, h.segments + [Segment(s, (index + 1) * cs)])
      case None => h
  }

  /** The loop state after the chunks whose probabilities are `ps`. */
  function Scan(ps: seq<real>, threshold: real, cs: Pos): (r: Hysteresis)
    ensures r.start.Some? <==> |ps| > 0 && ps[|ps| - 1] > threshold
    ensures |r.segments| <= |ps|
    decreases |ps|
  {
    if ps == [] then Hysteresis(None, [])
    else Step(Scan(ps[..|ps| - 1], threshold, cs), |ps| - 1, ps[|ps| - 1], threshold, cs)
  }

  /** After the last full chunk a run still open is closed at the audio length. */
  function Close(h: Hysteresis, len: nat): (r: seq<Segment>)
    ensures h.segments <= r
    ensures h.start.None? ==> r == h.segments
    ensures h.start.Some? ==> |r| == |h.segments| + 1 && r[|h.segments|] == Segment(h.start.value, len)
  {
    match h.start
    case Some(s) => h.segments + [Segment(s, len)]
    case None => h.segments
  }

  /** The segments `detect_long` emits for chunk probabilities `ps` over audio of length `len`. */
  function Segments(ps: seq<real>, threshold: real, cs: Pos, len: nat): seq<Segment>
  {
    Close(Scan(ps, threshold, cs), len)
  }

  /** What `detect_long` returns for the audio, as a function of the model. */
  function SegmentAudio(model: Detector, cs: Pos, audio: seq<real>, threshold: real): Result<seq<Segment>>
  {
    NumChunksBounds(|audio|, cs);
    match RunChunks(model, cs, audio, NumChunks(|audio|, cs))
    case Err(e) => Err(e)
    case Ok((ps, _)) => Ok(Segments(ps, threshold, cs, |audio|))
  }

  // ---------------------------------------------------------------------------
  // The reference description of the segments: maximal runs of speech chunks
  // ---------------------------------------------------------------------------

  /** Chunk `i` is above the threshold and the chunk before it, if any, is not. */
  ghost predicate RunStart(ps: seq<real>, t: real, i: nat)
  {
    i < |ps| && ps[i] > t && (i == 0 || ps[i - 1] <= t)
  }

  /** Every chunk in `i .. j` is above the threshold. */
  ghost predicate AllSpeech(ps: seq<real>, t: real, i: nat, j: nat)
    requires j <= |ps|
  {
    forall m :: i <= m < j ==> ps[m] > t
  }

  /** The run that starts at chunk `i` ends at chunk `j`, the first chunk after
      `i` that is at or below the threshold. */
  ghost predicate ClosedRun(ps: seq<real>, t: real, i: nat, j: nat)
  {
    RunStart(ps, t, i) && i < j < |ps| && ps[j] <= t && AllSpeech(ps, t, i, j)
  }

  /** The run that starts at chunk `i` is still going after chunk `n - 1`. */
  ghost predicate OpenRun(ps: seq<real>, t: real, i: nat, n: nat)
    requires n <= |ps|
  {
    RunStart(ps, t, i) && i < n && AllSpeech(ps, t, i, n)
  }

  /** Segments inside the audio, each non-empty, in increasing order and disjoint. */
  ghost predicate WellFormed(segs: seq<Segment>, len: nat)
  {
    && (forall k :: 0 <= k < |segs| ==> segs[k].start < segs[k].end <= len)
    && (forall k, k' :: 0 <= k < k' < |segs| ==> segs[k].end <= segs[k'].start)
    && (forall k, k' :: 0 <= k < k' < |segs| ==> segs[k].start < segs[k'].start)
  }

  /** `seg` is the segment of a run that a chunk before chunk `n` closed. */
  ghost predicate ClosedSegment(ps: seq<real>, t: real, cs: Pos, n: nat, seg: Segment)
  {
    exists i: nat, j: nat :: ClosedRun(ps, t, i, j) && j < n && seg == Segment(i * cs, (j + 1) * cs)
  }

  /** `seg` is the segment of the run still open after the last chunk, closed at `len`. */
  ghost predicate OpenSegment(ps: seq<real>, t: real, cs: Pos, len: nat, seg: Segment)
  {
    exists i: nat :: OpenRun(ps, t, i, |ps|) && seg == Segment(i * cs, len)
  }

  /** `s` is the first sample of the run still open after chunk `n - 1`. */
  ghost predicate OpenStart(ps: seq<real>, t: real, cs: Pos, n: nat, s: nat)
    requires n <= |ps|
  {
    exists i: nat :: OpenRun(ps, t, i, n) && s == i * cs
  }

  /** What the loop state after `n` chunks says about the first `n` probabilities. */
  ghost predicate ScanInv(ps: seq<real>, t: real, cs: Pos, n: nat, h: Hysteresis)
    requires n <= |ps|
  {
    && (h.start.Some? <==> n > 0 && ps[n - 1] > t)
    && (h.start.Some? ==> OpenStart(ps, t, cs, n, h.start.value))
    && (forall k :: 0 <= k < |h.segments| ==> ClosedSegment(ps, t, cs, n, h.segments[k]))
    && (forall i: nat, j: nat :: ClosedRun(ps, t, i, j) && j < n ==> Segment(i * cs, (j + 1) * cs) in h.segments)
  }

  /** Two runs that both reach chunk `n - 1` have the same start. */
  lemma RunStartUnique(ps: seq<real>, t: real, i: nat, i': nat, n: nat)
    requires n <= |ps|
    requires OpenRun(ps, t, i, n) && OpenRun(ps, t, i', n)
    ensures i == i'
  {
  }

  /** A segment closed before chunk `m` is closed before chunk `m + 1`. */
  lemma ClosedSegmentsStay(ps: seq<real>, t: real, cs: Pos, m: nat, segs: seq<Segment>)
    requires forall k :: 0 <= k < |segs| ==> ClosedSegment(ps, t, cs, m, segs[k])
    ensures forall k :: 0 <= k < |segs| ==> ClosedSegment(ps, t, cs, m + 1, segs[k])
  {
    forall k | 0 <= k < |segs|
      ensures ClosedSegment(ps, t, cs, m + 1, segs[k])
    {
      var i: nat, j: nat :| ClosedRun(ps, t, i, j) && j < m && segs[k] == Segment(i * cs, (j + 1) * cs);
    }
  }

  /** A chunk above the threshold while no run is open opens one at its start. */
  lemma ScanStepOpen(ps: seq<real>, t: real, cs: Pos, m: nat, h: Hysteresis)
    requires m < |ps| && ps[m] > t && h.start.None?
    requires ScanInv(ps, t, cs, m, h)
    ensures ScanInv(ps, t, cs, m + 1, Step(h, m, ps[m], t, cs))
  {
    assert OpenRun(ps, t, m, m + 1);
    ClosedSegmentsStay(ps, t, cs, m, h.segments);
  }

  /** A chunk above the threshold while a run is open leaves the state as it is. */
  lemma ScanStepContinue(ps: seq<real>, t: real, cs: Pos, m: nat, h: Hysteresis)
    requires m < |ps| && ps[m] > t && h.start.Some?
    requires ScanInv(ps, t, cs, m, h)
    ensures ScanInv(ps, t, cs, m + 1, Step(h, m, ps[m], t, cs))
  {
    var i: nat :| OpenRun(ps, t, i, m) && h.start.value == i * cs;
    assert OpenRun(ps, t, i, m + 1);
    ClosedSegmentsStay(ps, t, cs, m, h.segments);
  }

  /** A chunk at or below the threshold closes the open run, itself included. */
  lemma ScanStepClose(ps: seq<real>, t: real, cs: Pos, m: nat, h: Hysteresis)
    requires m < |ps| && ps[m] <= t && h.start.Some?
    requires ScanInv(ps, t, cs, m, h)
    ensures ScanInv(ps, t, cs, m + 1, Step(h, m, ps[m], t, cs))
  {
    var i: nat :| OpenRun(ps, t, i, m) && h.start.value == i * cs;
    assert ClosedRun(ps, t, i, m);
    var h' := Step(h, m, ps[m], t, cs);
    var last := Segment(i * cs, (m + 1) * cs);
    assert h'.segments == h.segments + [last];
    ClosedSegmentsStay(ps, t, cs, m, h.segments);
    assert ClosedSegment(ps, t, cs, m + 1, last);
    forall i': nat, j: nat | ClosedRun(ps, t, i', j) && j < m + 1
      ensures Segment(i' * cs, (j + 1) * cs) in h'.segments
    {
      if j == m {
        RunStartUnique(ps, t, i, i', m);
      }
    }
  }

  /** A chunk at or below the threshold while no run is open changes nothing. */
  lemma ScanStepSilent(ps: seq<real>, t: real, cs: Pos, m: nat, h: Hysteresis)
    requires m < |ps| && ps[m] <= t && h.start.None?
    requires ScanInv(ps, t, cs, m, h)
    ensures ScanInv(ps, t, cs, m + 1, Step(h, m, ps[m], t, cs))
  {
    ClosedSegmentsStay(ps, t, cs, m, h.segments);
  }

  /** The loop state after `n` chunks holds exactly the runs closed so far and the open one. */
  lemma {:induction false} ScanInvariant(ps: seq<real>, t: real, cs: Pos, n: nat)
    requires n <= |ps|
    ensures ScanInv(ps, t, cs, n, Scan(ps[..n], t, cs))
  {
    if n == 0 {
      assert ps[..0] == [];
    } else {
      var m := n - 1;
      ScanInvariant(ps, t, cs, m);
      var h := Scan(ps[..m], t, cs);
      assert ps[..n][..m] == ps[..m];
      assert Scan(ps[..n], t, cs) == Step(h, m, ps[m], t, cs);
      if ps[m] > t {
        if h.start.None? {
          ScanStepOpen(ps, t, cs, m, h);
        } else {
          ScanStepContinue(ps, t, cs, m, h);
        }
      } else {
        if h.start.Some? {
          ScanStepClose(ps, t, cs, m, h);
        } else {
          ScanStepSilent(ps, t, cs, m, h);
        }
      }
    }
  }

  /** The emitted segments are exactly the speech runs: a run closed by its
      first silent chunk `j` gives `[i * cs, (j + 1) * cs)`, and a run still
      open after the last full chunk gives `[i * cs, len)`. */
  lemma SegmentsAreRuns(ps: seq<real>, t: real, cs: Pos, len: nat)
    requires |ps| * cs <= len
    ensures forall seg :: seg in Segments(ps, t, cs, len) <==>
      ClosedSegment(ps, t, cs, |ps|, seg) || OpenSegment(ps, t, cs, len, seg)
  {
    var n := |ps|;
    ScanInvariant(ps, t, cs, n);
    assert ps[..n] == ps;
    var h := Scan(ps, t, cs);
    forall seg
      ensures seg in Segments(ps, t, cs, len) <==>
        ClosedSegment(ps, t, cs, n, seg) || OpenSegment(ps, t, cs, len, seg)
    {
      if ClosedSegment(ps, t, cs, n, seg) {
        var i: nat, j: nat :| ClosedRun(ps, t, i, j) && j < n && seg == Segment(i * cs, (j + 1) * cs);
        assert seg in h.segments;
      }
      if h.start.Some? {
        var i: nat :| OpenRun(ps, t, i, n) && h.start.value == i * cs;
        assert Segments(ps, t, cs, len) == h.segments + [Segment(i * cs, len)];
        if OpenSegment(ps, t, cs, len, seg) {
          var i': nat :| OpenRun(ps, t, i', n) && seg == Segment(i' * cs, len);
          RunStartUnique(ps, t, i, i', n);
        }
      } else {
        assert Segments(ps, t, cs, len) == h.segments;
      }
    }
  }

  /** Every speech run yields a segment that starts at its first chunk. */
  lemma EveryRunStartIsEmitted(ps: seq<real>, t: real, cs: Pos, len: nat, i: nat)
    requires |ps| * cs <= len
    requires RunStart(ps, t, i)
    ensures exists seg :: seg in Segments(ps, t, cs, len) && seg.start == i * cs
  {
    SegmentsAreRuns(ps, t, cs, len);
    var j := i + 1;
    while j < |ps| && ps[j] > t
      invariant i < j <= |ps|
      invariant AllSpeech(ps, t, i, j)
    {
      j := j + 1;
    }
    if j < |ps| {
      assert ClosedRun(ps, t, i, j);
      assert Segment(i * cs, (j + 1) * cs) in Segments(ps, t, cs, len);
    } else {
      assert OpenRun(ps, t, i, |ps|);
      assert Segment(i * cs, len) in Segments(ps, t, cs, len);
    }
  }

  /** Bounds and order of the loop state after the chunks `q`. */
  lemma {:induction false} ScanOrdered(q: seq<real>, t: real, cs: Pos)
    ensures var h := Scan(q, t, cs);
      && (forall k :: 0 <= k < |h.segments| ==> h.segments[k].start < h.segments[k].end <= |q| * cs)
      && (forall k, k' :: 0 <= k < k' < |h.segments| ==> h.segments[k].end <= h.segments[k'].start)
      && (h.start.Some? ==> h.start.value < |q| * cs)
      && (h.start.Some? ==> forall k :: 0 <= k < |h.segments| ==> h.segments[k].end <= h.start.value)
  {
    if q != [] {
      var m := |q| - 1;
      ScanOrdered(q[..m], t, cs);
      assert |q| * cs == m * cs + cs;
    }
  }

  /** Every emitted segment `s` has `s.start < s.end <= len`; the segments
      increase strictly by start and do not overlap. */
  lemma SegmentsWellFormed(ps: seq<real>, t: real, cs: Pos, len: nat)
    requires |ps| * cs <= len
    ensures WellFormed(Segments(ps, t, cs, len), len)
  {
    ScanOrdered(ps, t, cs);
  }

  /** With no chunk above the threshold (equal counts as silence) nothing is emitted. */
  lemma {:induction false} SilenceYieldsNoSegments(ps: seq<real>, t: real, cs: Pos, len: nat)
    requires forall i :: 0 <= i < |ps| ==> ps[i] <= t
    ensures Segments(ps, t, cs, len) == []
  {
    SilentScan(ps, t, cs);
  }

  lemma {:induction false} SilentScan(q: seq<real>, t: real, cs: Pos)
    requires forall i :: 0 <= i < |q| ==> q[i] <= t
    ensures Scan(q, t, cs) == Hysteresis(None, [])
  {
    if q != [] {
      SilentScan(q[..|q| - 1], t, cs);
    }
  }

  /** Audio shorter than one chunk is never given to the model and yields no segments. */
  lemma ShortAudioYieldsNoSegments(model: Detector, cs: Pos, audio: seq<real>, t: real)
    requires |audio| < cs
    ensures SegmentAudio(model, cs, audio, t) == Ok([])
  {
    assert NumChunks(|audio|, cs) == 0;
  }

  /** Eight chunks of 512 samples with speech in chunks 2 to 5: the run is
      closed by chunk 6, which the segment includes, so it ends at 7 * 512. */
  lemma ClosingChunkIsIncluded()
    ensures Segments([0.1, 0.1, 0.9, 0.9, 0.9, 0.9, 0.1, 0.1], 0.5, 512, 8 * 512) == [Segment(2 * 512, 7 * 512)]
  {
    var ps := [0.1, 0.1, 0.9, 0.9, 0.9, 0.9, 0.1, 0.1];
    assert ps[..0] == [];
    assert ps[..1][..0] == ps[..0];
    assert Scan(ps[..1], 0.5, 512) == Hysteresis(None, []);
    assert ps[..2][..1] == ps[..1];
    assert Scan(ps[..2], 0.5, 512) == Hysteresis(None, []);
    assert ps[..3][..2] == ps[..2];
    assert Scan(ps[..3], 0.5, 512) == Hysteresis(Some(1024), []);
    assert ps[..4][..3] == ps[..3];
    assert Scan(ps[..4], 0.5, 512) == Hysteresis(Some(1024), []);
    assert ps[..5][..4] == ps[..4];
    assert Scan(ps[..5], 0.5, 512) == Hysteresis(Some(1024), []);
    assert ps[..6][..5] == ps[..5];
    assert Scan(ps[..6], 0.5, 512) == Hysteresis(Some(1024), []);
    assert ps[..7][..6] == ps[..6];
    assert Scan(ps[..7], 0.5, 512) == Hysteresis(None, [Segment(1024, 3584)]);
    assert ps[..8][..7] == ps[..7];
    assert Scan(ps[..8], 0.5, 512) == Hysteresis(None, [Segment(1024, 3584)]);
    assert ps[..8] == ps;
  }

  /** Whatever the model answers, a successful result is well formed for the audio. */
  lemma SegmentAudioWellFormed(model: Detector, cs: Pos, audio: seq<real>, t: real)
    ensures SegmentAudio(model, cs, audio, t).Ok? ==> WellFormed(SegmentAudio(model, cs, audio, t).value, |audio|)
  {
    var n := NumChunks(|audio|, cs);
    NumChunksBounds(|audio|, cs);
    var r := RunChunks(model, cs, audio, n);
    if r.Ok? {
      assert |r.value.0| == n;
      SegmentsWellFormed(r.value.0, t, cs, |audio|);
    }
  }

  // ---------------------------------------------------------------------------
  // Arithmetic helpers
  // ---------------------------------------------------------------------------

  lemma MulMonotone(a: nat, b: nat, c: nat)
    requires a <= b
    ensures a * c <= b * c
  {
    assert b * c == a * c + (b - a) * c;
  }

  /** A chunk that fits in the audio is among the full chunks. */
  lemma WithinNumChunks(len: nat, cs: Pos, i: nat)
    requires i * cs <= len
    ensures i <= NumChunks(len, cs)
  {
    var n := NumChunks(len, cs);
    NumChunksBounds(len, cs);
    if n < i {
      MulMonotone(n + 1, i, cs);
    }
  }

  /** A failure in the first `n` chunks is the result of running the first `m >= n`. */
  lemma {:induction false} RunChunksFailureSticks(model: Detector, cs: Pos, audio: seq<real>, n: nat, m: nat)
    requires n <= m && m * cs <= |audio|
    requires n * cs <= |audio|
    requires RunChunks(model, cs, audio, n).Err?
    ensures RunChunks(model, cs, audio, m) == RunChunks(model, cs, audio, n)
    decreases m
  {
    if n < m {
      MulMonotone(m - 1, m, cs);
      RunChunksFailureSticks(model, cs, audio, n, m - 1);
    }
  }

  /** Chunk `n` succeeds: the run gains its probability and the hysteresis
      takes one step on it. */
  lemma ChunkSucceeds(model: Detector, cs: Pos, audio: seq<real>, t: real, n: nat,
                      ps: seq<real>, state: Tensor, p: real, state': Tensor)
    requires (n + 1) * cs <= |audio|
    requires RunChunks(model, cs, audio, n) == Ok((ps, state))
    requires Infer(model, Chunk(audio, cs, n), state) == Ok((p, state'))
    ensures RunChunks(model, cs, audio, n + 1) == Ok((ps + [p], state'))
    ensures Scan(ps + [p], t, cs) == Step(Scan(ps, t, cs), n, p, t, cs)
  {
    assert (ps + [p])[..|ps|] == ps;
  }

  /** Chunk `n` fails: its error is what `detect_long` returns. */
  lemma ChunkFails(model: Detector, cs: Pos, audio: seq<real>, t: real, n: nat, state: Tensor)
    requires (n + 1) * cs <= |audio|
    requires RunChunks(model, cs, audio, n).Ok? && RunChunks(model, cs, audio, n).value.1 == state
    requires Infer(model, Chunk(audio, cs, n), state).Err?
    ensures SegmentAudio(model, cs, audio, t) == Err(Infer(model, Chunk(audio, cs, n), state).error)
  {
    WithinNumChunks(|audio|, cs, n + 1);
    NumChunksBounds(|audio|, cs);
    RunChunksFailureSticks(model, cs, audio, n + 1, NumChunks(|audio|, cs));
  }

  /** Once fewer than `cs` samples are left after chunk `n - 1`, all full chunks are done. */
  lemma AllChunksDone(len: nat, cs: Pos, n: nat)
    requires n * cs <= len < n * cs + cs
    ensures NumChunks(len, cs) == n
  {
    WithinNumChunks(len, cs, n);
    NumChunksBounds(len, cs);
    if n < NumChunks(len, cs) {
      MulMonotone(n + 1, NumChunks(len, cs), cs);
    }
  }

  // ---------------------------------------------------------------------------
  // Sessions and the detector
  // ---------------------------------------------------------------------------

  /** The per-clip session: the model's recurrent state. */
  class Session {
    var state: Tensor

    constructor (state: Tensor)
      ensures this.state == state
    {
      this.state := state;
    }
  }

  class SileroVadOrt {
    const model: Detector
    const chunkSize: Pos

    /** The detector once `from_pretrained` has loaded its model. */
    constructor (model: Detector, chunkSize: Pos)
      ensures this.model == model && this.chunkSize == chunkSize
    {
      this.model := model;
      this.chunkSize := chunkSize;
    }

    /** A fresh session whose state is 256 zeros of shape [2, 1, 128]. */
    method NewSession() returns (session: Session)
      ensures fresh(session)
      ensures session.state == ZeroState()
      ensures session.state.shape == [2, 1, 128]
    {
      session := new Session(ZeroState());
    }

    /** Runs the model on one chunk from the session's state. On success the
        session takes the model's "stateN"; on an error it keeps its state. */
    method Detect(session: Session, audio: seq<real>) returns (r: Result<real>)
      requires |audio| == chunkSize
      modifies session
      ensures Infer(model, audio, old(session.state)).Ok? ==>
        r == Ok(Infer(model, audio, old(session.state)).value.0) &&
        session.state == Infer(model, audio, old(session.state)).value.1
      ensures Infer(model, audio, old(session.state)).Err? ==>
        r == Err(Infer(model, audio, old(session.state)).error) && session.state == old(session.state)
    {
      var outputs := model(audio, session.state, SAMPLE_RATE);
      match outputs
      case RunFailed =>
        return Err(InferenceFailed);
      case Ran(prob, stateN) =>
        if stateN.None? {
          return Err(StateNotFound);
        }
        session.state := stateN.value;
        return Ok(prob);
    }

    /** Segments the audio: a fresh session, one model run per full chunk, and
        the hysteresis rule over the probabilities. */
    method DetectLong(audio: seq<real>, threshold: real) returns (r: Result<seq<Segment>>)
      ensures r == SegmentAudio(model, chunkSize, audio, threshold)
      ensures r.Ok? ==> WellFormed(r.value, |audio|)
    {
      var cs := chunkSize;
      var session := NewSession();
      var segments: seq<Segment> := [];
      var start: Option<nat> := None;
      ghost var probs: seq<real> := [];
      var index: nat := 0;
      while index * cs < |audio|
        invariant index * cs <= |audio|
        invariant RunChunks(model, cs, audio, index) == Ok((probs, session.state))
        invariant Scan(probs, threshold, cs) == Hysteresis(start, segments)
        decreases |audio| - index * cs
      {
        assert (index + 1) * cs == index * cs + cs;
        var chunkEnd := if (index + 1) * cs <= |audio| then (index + 1) * cs else |audio|;
        var chunk := audio[index * cs .. chunkEnd];
        if |chunk| < cs {
          break;
        }
        assert chunk == Chunk(audio, cs, index);
        ghost var state := session.state;
        var res := Detect(session, chunk);
        if res.Err? {
          ChunkFails(model, cs, audio, threshold, index, state);
          return Err(res.error);
        }
        var prob := res.value;
        ChunkSucceeds(model, cs, audio, threshold, index, probs, state, prob, session.state);
        probs := probs + [prob];
        ghost var h := Step(Hysteresis(start, segments), index, prob, threshold, cs);
        if prob > threshold {
          if start.None? {
            start := Some(index * cs);
          }
        } else {
          if start.Some? {
            segments := segments + [Segment(start.value, (index + 1) * cs)];
            start := None;
          }
        }
        assert Hysteresis(start, segments) == h;
        index := index + 1;
      }
      AllChunksDone(|audio|, cs, index);
      if start.Some? {
        segments := segments + [Segment(start.value, |audio|)];
        start := None;
      }
      r := Ok(segments);
      SegmentAudioWellFormed(model, cs, audio, threshold);
    }
  }
}
