# silero-rs core, modelled in Dafny

This project models the two pieces of logic in the `silero-rs` crate, a
voice-activity detector built on the Silero ONNX model.

- `silero.dfy`, module `Silero`, models `src/silero.rs`:
  - `SileroVadOrt::detect_long` cuts a clip into full chunks of `chunk_size`
    samples and drops a shorter tail.
  - It asks the model for one speech probability per chunk, threading the
    model's recurrent state from chunk to chunk.
  - A hysteresis rule with one threshold turns the probabilities into
    `Segment { start, end }` values.
  - `new_session` builds the zero state.
  - `detect` runs the model once and replaces the session state.
- `parallel.dfy`, module `Parallel`, models `src/parallel.rs`:
  - `SileroParallel::detect_multi` routes clip `k` of a batch to worker
    `k % n`.
  - Each worker thread runs `detect_long` on its queue in FIFO order.
  - The caller writes each reply into the slot its position names and stops
    after as many replies as there are clips.

How each part is modelled:

- **The model.** The ONNX model is an oracle, `Detector`. It takes the chunk,
  the recurrent state and the sample rate (16000) and returns either a failure
  or a probability with an optional `stateN` tensor.
- **Segmentation.** `DetectLong` is a loop proved equal to
  `SegmentAudio`. That function is a left fold of the oracle over the full
  chunks (`RunChunks`), followed by a left fold of the hysteresis step over
  the probabilities (`Scan`) and a close-out (`Close`).
- **Reference description.** The segments are characterised independently as
  the maximal runs of chunks whose probability is strictly above the
  threshold.
  - A run is closed by its first silent chunk `j` and gives
    `[i * cs, (j + 1) * cs)`.
  - A run still open after the last full chunk gives `[i * cs, len)`.
- **Channels.** The threads and channels of the pool become sequences:
  - a queue per worker;
  - the replies of each worker in the order it sends them;
  - a permutation `order` that says in which order all replies reach the
    response channel.
- **Worker panics.** A worker whose `detect_long` fails panics on `unwrap`.
  It sends nothing more and drops its reply sender.
- **Blocking receive.** The receive loop then either returns or blocks for
  ever. `Outcome.Blocked` stands for the latter.
- **Worker behaviour.** The pool's lemmas hold for any function a worker
  computes from an item, a `Segmenter`. `Pool` supplies, for each detector,
  the function its `detect_long` computes.

Behaviour of the code that the model keeps:

- `detect` gives the model exactly three inputs: the chunk, the recurrent
  state and the sample rate (`src/silero.rs:81-85`).
- The chunk size is a constructor parameter (`src/silero.rs:23`,
  `src/silero.rs:27`).
- The run closed by chunk `j` ends at `(j + 1) * cs`, so the closing silent
  chunk belongs to the segment. With `cs = 512` and speech in chunks 2 to 5 of
  8, the single segment is `[1024, 3584)`. `ClosingChunkIsIncluded` proves
  this.
- A clip whose `detect_long` fails makes its worker panic on `unwrap`. The
  batch call then blocks while another worker is alive.
- An empty batch blocks for ever whenever the pool has a worker.

## Model

| member | source | states |
|---|---|---|
| `Silero.ZeroState` | src/silero.rs:68-72 | the fresh recurrent state has shape [2, 1, 128], holds exactly the 256 elements that shape needs, and all of them are zero |
| `Silero.Infer` | src/silero.rs:81-92 | one model run on a chunk from a state: it succeeds iff the model runs and returns `stateN`, and then yields the model's probability and `stateN`. A run without `stateN` gives exactly the "stateN not found" error |
| `Silero.Session.constructor` | src/silero.rs:17-19 | a session holds exactly the state it is given |
| `Silero.SileroVadOrt.constructor` | src/silero.rs:21-24 | a detector keeps the model and the positive chunk size it is built with |
| `Silero.SileroVadOrt.NewSession` | src/silero.rs:68-72 | `new_session` returns a new session whose state is the zero tensor of shape [2, 1, 128] |
| `Silero.SileroVadOrt.Detect` | src/silero.rs:74-93 | needs a chunk of exactly `chunk_size` samples. The call gives what `Infer` gives for the chunk and the old state: on success it returns the run's probability and the session state becomes `stateN`; on either error (a failed run, or no `stateN`) it returns that error and leaves the state alone |
| `Silero.NumChunks` | src/silero.rs:41-44 | the number of full chunks `audio.chunks(cs)` yields before the first short one, counted by repeated subtraction of `cs`; `NumChunksBounds` states its value |
| `Silero.NumChunksBounds` | src/silero.rs:41-44 | the count `n` of full chunks satisfies `n * cs <= len < n * cs + cs`: every full chunk is counted and the tail is shorter than a chunk |
| `Silero.AllChunksDone` | src/silero.rs:41-44 | once the chunk at `n * cs` is shorter than `cs`, exactly `n` full chunks have been evaluated |
| `Silero.Chunk` | src/silero.rs:41 | chunk `i` has `cs` samples, namely samples `i * cs + j` of the clip |
| `Silero.RunChunks` | src/silero.rs:38-45 | running the oracle over `n` chunks from the zero state gives, on success, exactly `n` probabilities |
| `Silero.ChunkSucceeds` | src/silero.rs:45-57 | when chunk `n` succeeds, the run of the first `n + 1` chunks gains its probability and the new state, and the hysteresis takes one `Step` on it |
| `Silero.ChunkFails` | src/silero.rs:45 | when chunk `n` fails after `n` successful chunks, its error is exactly what `detect_long` returns |
| `Silero.RunChunksFailureSticks` | src/silero.rs:45 | an error on some chunk is the result of the whole run, whatever the later chunks would give (`?` returns early) |
| `Silero.SileroVadOrt.DetectLong` | src/silero.rs:37-66 | the loop returns exactly `SegmentAudio` of the clip: the first error of the model, or the hysteresis segments over the full chunks; a successful result is well formed for the clip |
| `Silero.Step` | src/silero.rs:46-57 | one chunk of the hysteresis: afterwards a run is open iff the chunk is strictly above the threshold, an open run keeps its start, and a segment is appended, exactly one, iff a run was open and the chunk is at or below the threshold; earlier segments stay |
| `Silero.Scan` | src/silero.rs:41-58 | after the loop over the probabilities a run is open iff the last chunk is above the threshold, and there are at most as many segments as chunks |
| `Silero.Close` | src/silero.rs:59-64 | after the loop, a run still open is appended as one segment ending at the audio length; otherwise the segments are unchanged |
| `Silero.Segments` | src/silero.rs:41-64 | the segments the hysteresis loop and its close-out emit for given chunk probabilities, defined as `Close(Scan(..))`; `SegmentsAreRuns`, `SegmentsWellFormed`, `SilenceYieldsNoSegments` and `ClosingChunkIsIncluded` state its properties |
| `Silero.SegmentAudio` | src/silero.rs:37-66 | what `detect_long` returns, defined as the model run over the full chunks followed by `Close(Scan(..))`; `DetectLong`, `SegmentAudioWellFormed`, `SegmentsAreRuns` and `ShortAudioYieldsNoSegments` state its properties |
| `Silero.ScanStepOpen` | src/silero.rs:46-49 | a chunk above the threshold with no open run opens one at `index * cs` and keeps the loop invariant |
| `Silero.ScanStepContinue` | src/silero.rs:46-49 | a chunk above the threshold while a run is open leaves its start unchanged and keeps the loop invariant |
| `Silero.ScanStepClose` | src/silero.rs:50-56 | a chunk at or below the threshold closes the open run at `(index + 1) * cs`, resets the start and keeps the loop invariant |
| `Silero.ScanStepSilent` | src/silero.rs:50-57 | a chunk at or below the threshold with no open run changes nothing and keeps the loop invariant |
| `Silero.ScanInvariant` | src/silero.rs:41-58 | after `n` chunks the loop state's start is set iff chunk `n - 1` is speech, and is then the start of the run reaching it. The emitted segments are exactly the runs closed before chunk `n` |
| `Silero.SegmentsAreRuns` | src/silero.rs:46-64 | a segment is emitted iff it is `[i * cs, (j + 1) * cs)` for a run from `i` closed by its first silent chunk `j`, or `[i * cs, len)` for the run still open at the end |
| `Silero.EveryRunStartIsEmitted` | src/silero.rs:46-49 | every chunk that starts a run of speech yields a segment starting at its first sample |
| `Silero.ScanOrdered` | src/silero.rs:46-58 | the loop's segments lie within the evaluated chunks, are non-empty and do not overlap; an open run starts after all of them |
| `Silero.SegmentsWellFormed` | src/silero.rs:41-64 | every segment has `start < end <= len`; starts increase strictly and each segment ends no later than the next one starts |
| `Silero.SegmentAudioWellFormed` | src/silero.rs:37-66 | for any model, a successful `detect_long` result is well formed for the clip's length |
| `Silero.SilenceYieldsNoSegments` | src/silero.rs:46-57 | when no probability is strictly above the threshold (equal counts as silence) nothing is emitted |
| `Silero.ShortAudioYieldsNoSegments` | src/silero.rs:41-44 | a clip shorter than one chunk never reaches the model and yields `Ok([])` |
| `Silero.ClosingChunkIsIncluded` | src/silero.rs:50-56 | with speech in chunks 2 to 5 of 8, the single segment is `[1024, 3584)`: the silent chunk that closes a run belongs to it |
| `Parallel.Queue` | src/parallel.rs:44-48 | the items the routing loop sends worker `w` of `n`, in sending order, defined clip by clip; `QueueContents` states what it holds |
| `Parallel.QueueContents` | src/parallel.rs:44-48 | worker `w` is sent, in ascending order, exactly the clips at positions `k` with `k % n == w`, each tagged with `k` and the shared threshold |
| `Parallel.AllRouted` | src/parallel.rs:44-49 | the queues hold `|audios|` items in all: routing loses and duplicates nothing |
| `Parallel.Route` | src/parallel.rs:44-49 | the routing loop leaves one queue per worker, worker `w`'s being its round-robin share; it needs a worker unless the batch is empty, since `index % 0` panics |
| `Parallel.Detected` | src/parallel.rs:21-26 | what one worker thread's `silero.detect_long(&audio, threshold)` gives for an item, defined as `SegmentAudio` of its detector; `Serve` and `ExpectedIsDetectLong` tie it to the thread's loop and to the batch |
| `Parallel.SegmenterOf` | src/parallel.rs:21-26 | the function one worker thread computes from an item, defined as `Detected` of its detector; `Serve` is proved equal to `Served` of it |
| `Parallel.Served` | src/parallel.rs:24-28 | the replies a worker sends for its queue and whether it panics, defined item by item: each success sends one reply and the first failure ends the thread; `ServedIsFifo` states its properties |
| `Parallel.ServedIsFifo` | src/parallel.rs:24-28 | a worker replies to its items in FIFO order, each reply carrying the item's position and its `detect_long` segments. It crashes iff some item fails, and it stops at the first failing one |
| `Parallel.ServedCount` | src/parallel.rs:24-28 | a worker sends at most one reply per item, and fewer than its items iff it panics |
| `Parallel.ServedFrom` | src/parallel.rs:24-28 | from item `m` on, a failing item ends the worker with nothing sent, and a successful one sends its reply first and then the rest |
| `Parallel.Serve` | src/parallel.rs:24-28 | the worker's receive loop sends exactly the replies, and crashes exactly when, `Served` says |
| `Parallel.Pool` | src/parallel.rs:17-23 | one segmenter per spawned worker thread, that thread's detector's `detect_long`; `ExpectedIsDetectLong` states what it gives each clip |
| `Parallel.ExpectedIsDetectLong` | src/parallel.rs:21-46 | for the detectors the worker threads own, the expected result for clip `k` is `detect_long` of that clip on worker `k % n` |
| `Parallel.ServeAll` | src/parallel.rs:17-31 | running every worker on its queue gives their replies worker by worker, and some thread stays alive iff some worker does not crash |
| `Parallel.Slot` | src/parallel.rs:55 | a slot is empty or holds the segments of some arrival that names it |
| `Parallel.Slots` | src/parallel.rs:39-55 | the result vector has one slot per clip, each pre-filled empty and then holding what the writes leave in it, as `Slot` and `SlotIsLastWrite` state |
| `Parallel.SlotIsLastWrite` | src/parallel.rs:55 | a slot no arrival names stays empty; otherwise it holds the segments of the last arrival naming it, and every write lands in only the slot it names |
| `Parallel.SlotValue` | src/parallel.rs:55 | if some arrival names slot `k` and all of them carry the same segments, slot `k` holds those segments |
| `Parallel.Collect` | src/parallel.rs:39-61 | starting from empty slots, the loop returns after exactly `n` arrivals, with the slots those arrivals write. Once the channel is drained it returns when every sender is gone and blocks otherwise, including for `n == 0` |
| `Parallel.Replies` | src/parallel.rs:17-31 | the replies of the workers before `w`, worker by worker, each worker serving its own queue; the `Replies*` lemmas state their properties |
| `Parallel.Crashes` | src/parallel.rs:26 | whether worker `w` panics on `unwrap` while serving its own queue, defined from `Served`; `FailureCrashesWorker`, `CrashNeedsFailure` and `NoCrashIffSuccess` state when it does |
| `Parallel.Expected` | src/parallel.rs:24-46 | what clip `k` gets on worker `k % n`, the worker it is routed to; `ExpectedIsDetectLong` states it is `detect_long` of that clip, and `RepliesSound`, `ArrivalsComplete` and `DetectMulti` state that the result holds it |
| `Parallel.RepliesSound` | src/parallel.rs:24-27 | every reply names a clip of the batch, and carries what `detect_long` gives for that clip on the worker it was routed to |
| `Parallel.RepliesComplete` | src/parallel.rs:24-27 | a worker that does not crash replies to every clip routed to it |
| `Parallel.RepliesCount` | src/parallel.rs:24-28 | the workers send at most one reply per item routed to them, and exactly one iff none of them crashes |
| `Parallel.FailureCrashesWorker` | src/parallel.rs:26 | a clip whose `detect_long` fails makes the worker it is routed to panic |
| `Parallel.CrashNeedsFailure` | src/parallel.rs:26 | a worker panics only on a clip whose `detect_long` fails |
| `Parallel.NoCrashIffSuccess` | src/parallel.rs:26 | no worker panics iff every clip of the batch succeeds |
| `Parallel.ReplyCount` | src/parallel.rs:24-49 | the pool sends at most `|audios|` replies, and exactly `|audios|` iff every clip succeeds |
| `Parallel.SentInOrder` | src/parallel.rs:24-48 | worker `w` replies only for positions `k` with `k % n == w`, in ascending order |
| `Parallel.RepliesDistinct` | src/parallel.rs:24-48 | no two replies of the workers before `w` name the same position, and each names a position routed to one of them |
| `Parallel.EachPositionRepliedOnce` | src/parallel.rs:44-61 | when every clip succeeds, the pool sends exactly one reply per clip: every position `0 .. len - 1` is named by exactly one reply, and no other position is named |
| `Parallel.ArrivalsComplete` | src/parallel.rs:53-61 | when every clip succeeds, the replies in any arrival order fill slot `k` with `detect_long` of clip `k`, for every `k` |
| `Parallel.SlotsSound` | src/parallel.rs:53-61 | whichever replies arrive, every slot is empty or holds `detect_long` of its own clip |
| `Parallel.CollectedOutcome` | src/parallel.rs:53-64 | what the receive loop returns, for every arrival order: the three promises of `DetectMulti` |
| `Parallel.SileroParallel.constructor` | src/parallel.rs:14-36 | the pool keeps one detector per worker |
| `Parallel.SileroParallel.DetectMulti` | src/parallel.rs:38-65 | for a non-empty batch where every clip succeeds, the result has one entry per clip, in input order, whatever the order of the replies. Any returned result has each slot empty or right. The call blocks iff some worker is alive and the batch is empty or some clip fails |

## Left out

- ONNX inference (`model.run`, building the input tensors and extracting
  `output`, `src/silero.rs:81-87`): a foreign numeric call. It is the oracle
  `Detector`. Every error from it, including an empty `output` that would
  make `output[0]` panic, is the single `RunFailed`.
- Floating point: samples, probabilities and the threshold are `real`. Only
  the comparison `prob > threshold` is used on them.
- `from_pretrained` and the hub download (`src/silero.rs:27-35`,
  `src/utils.rs`): file and network I/O. A detector is built from an oracle
  and a chunk size. A worker whose model fails to load is not modelled.
- `src/parallel.rs:22` calls `from_pretrained` with two arguments, but it takes
  three. The chunk size of the pool's detectors is therefore a parameter of
  each `SileroVadOrt`.
- `Silero.SileroVadOrt.NewSession`: `Tensor::from_array` cannot fail for a
  [2, 1, 128] shape with 256 elements, so `new_session` is total and returns
  no `Result`.
- usize overflow in `index * chunk_size` cannot occur, since the product never
  exceeds the clip length. Integers are unbounded.
- Threads and channels: `DetectMulti` runs the routing loop to the end, then
  every worker, then the receive loop. The interleaving is modelled only
  through the arrival order of the replies.
  - One `detect_multi` call is in flight at a time, on a pool where no
    earlier call has crashed a worker or left replies behind.
  - A send to a worker that has already crashed would make `unwrap` panic in
    the caller (`src/parallel.rs:46-48`). Whether that happens depends on
    timing, so it is not modelled.
- `src/lib.rs`: the Python and numpy bindings (marshalling only).
