/**
 * Model of src/parallel.rs: a fixed pool of workers, each with its own
 * detector. A batch of clips is routed round-robin to the workers' inbound
 * queues, every worker segments its clips one at a time in FIFO order, and the
 * caller puts the replies, which arrive in any order, back in input order.
 *
 * Threads and channels become sequences: a queue per worker, the replies of
 * each worker in the order it sends them, and a permutation saying in which
 * order the replies of all workers reach the shared response channel.
 *
 * The pool's properties hold for any worker behaviour: they are stated over a
 * `Segmenter` per worker, and `Pool` gives the segmenters of the detectors the
 * worker threads own, each the function its `detect_long` computes.
 */
module Parallel {
  import opened Silero

  /** What the pool sends a worker: position in the batch, threshold, clip. */
  datatype WorkItem = WorkItem(index: nat, threshold: real, audio: seq<real>)

  /** What a worker sends back: position in the batch and its segments. */
  datatype ResultItem = ResultItem(index: nat, segments: seq<Segment>)

  /** The replies a worker sends for its queue, and whether it panicked on the way. */
  datatype WorkerRun = WorkerRun(sent: seq<ResultItem>, crashed: bool)

  /** What `detect_multi` does: return the result slots, or wait forever on the
      response channel. */
  datatype Outcome = Returned(results: seq<seq<Segment>>) | Blocked

  /** What a worker does with one item: its result of `detect_long`. */
  type Segmenter = WorkItem -> Result<seq<Segment>>

  // ---------------------------------------------------------------------------
  // Routing
  // ---------------------------------------------------------------------------

  /** The items the routing loop sends to worker `w` of `n`, in sending order. */
  function Queue(audios: seq<seq<real>>, threshold: real, n: Pos, w: nat): seq<WorkItem>
    decreases |audios|
  {
    if audios == [] then []
    else
      var k := |audios| - 1;
      Queue(audios[..k], threshold, n, w) + (if k % n == w then [WorkItem(k, threshold, audios[k])] else [])
  }

  /** `q` is worker `w`'s round-robin share of the batch: in ascending order,
      exactly the clips at the positions `k` with `k % n == w`, each tagged with
      its position and the threshold. */
  ghost predicate IsShare(q: seq<WorkItem>, audios: seq<seq<real>>, threshold: real, n: Pos, w: nat)
  {
    && (forall m :: 0 <= m < |q| ==>
          q[m].index < |audios| && q[m].index % n == w && q[m] == WorkItem(q[m].index, threshold, audios[q[m].index]))
    && (forall m, m' :: 0 <= m < m' < |q| ==> q[m].index < q[m'].index)
    && (forall k :: 0 <= k < |audios| && k % n == w ==> WorkItem(k, threshold, audios[k]) in q)
  }

  /** The routing loop gives each worker its round-robin share. */
  lemma {:induction false} QueueContents(audios: seq<seq<real>>, threshold: real, n: Pos, w: nat)
    ensures IsShare(Queue(audios, threshold, n, w), audios, threshold, n, w)
    decreases |audios|
  {
    if audios != [] {
      var k := |audios| - 1;
      var p := audios[..k];
      QueueContents(p, threshold, n, w);
      var qp := Queue(p, threshold, n, w);
      var extra := if k % n == w then [WorkItem(k, threshold, audios[k])] else [];
      assert Queue(audios, threshold, n, w) == qp + extra;
      assert forall i :: 0 <= i < k ==> p[i] == audios[i];
      forall j | 0 <= j < |audios| && j % n == w
        ensures WorkItem(j, threshold, audios[j]) in qp + extra
      {
        if j < k {
          assert WorkItem(j, threshold, p[j]) in qp;
        } else {
          assert extra[0] == WorkItem(j, threshold, audios[j]);
        }
      }
    }
  }

  /** The number of items routed to the workers before `w`. */
  function QueuedBefore(audios: seq<seq<real>>, threshold: real, n: Pos, w: nat): nat
    requires w <= n
  {
    if w == 0 then 0 else QueuedBefore(audios, threshold, n, w - 1) + |Queue(audios, threshold, n, w - 1)|
  }

  lemma {:induction false} QueuedBeforeGrows(audios: seq<seq<real>>, threshold: real, n: Pos, w: nat)
    requires audios != [] && w <= n
    ensures QueuedBefore(audios, threshold, n, w) ==
      QueuedBefore(audios[..|audios| - 1], threshold, n, w) + (if (|audios| - 1) % n < w then 1 else 0)
  {
    if w > 0 {
      QueuedBeforeGrows(audios, threshold, n, w - 1);
    }
  }

  /** Routing loses and duplicates nothing: the queues hold `|audios|` items in all. */
  lemma {:induction false} AllRouted(audios: seq<seq<real>>, threshold: real, n: Pos)
    ensures QueuedBefore(audios, threshold, n, n) == |audios|
    decreases |audios|
  {
    if audios == [] {
      ZeroQueued(threshold, n, n);
    } else {
      QueuedBeforeGrows(audios, threshold, n, n);
      AllRouted(audios[..|audios| - 1], threshold, n);
    }
  }

  lemma {:induction false} ZeroQueued(threshold: real, n: Pos, w: nat)
    requires w <= n
    ensures QueuedBefore([], threshold, n, w) == 0
  {
    if w > 0 {
      ZeroQueued(threshold, n, w - 1);
    }
  }

  /** The routing loop: clip `k` goes, tagged with `k` and the threshold, to
      worker `k % n`. With no worker the modulo panics, so an empty pool only
      serves empty batches. */
  method Route(audios: seq<seq<real>>, threshold: real, n: nat) returns (queues: seq<seq<WorkItem>>)
    requires 0 < n || audios == []
    ensures |queues| == n
    ensures forall w :: 0 <= w < n ==> queues[w] == Queue(audios, threshold, n, w)
  {
    queues := seq(n, _ => []);
    for index := 0 to |audios|
      invariant |queues| == n
      invariant forall w :: 0 <= w < n ==> queues[w] == Queue(audios[..index], threshold, n, w)
    {
      assert audios[..index + 1][..index] == audios[..index];
      var w := index % n;
      queues := queues[w := queues[w] + [WorkItem(index, threshold, audios[index])]];
    }
    assert audios[..|audios|] == audios;
  }

  // ---------------------------------------------------------------------------
  // Workers
  // ---------------------------------------------------------------------------

  /** What `detect_long` gives the worker for one item. */
  function Detected(vad: SileroVadOrt, item: WorkItem): Result<seq<Segment>>
  {
    SegmentAudio(vad.model, vad.chunkSize, item.audio, item.threshold)
  }

  /** The segmenter of a worker that owns the detector `vad`. */
  function SegmenterOf(vad: SileroVadOrt): Segmenter
  {
    item => Detected(vad, item)
  }

  /** The replies a worker sends when it drains `inbox`: one per item up to the
      first failing one, where `unwrap` panics and the worker stops. */
  function Served(detect: Segmenter, inbox: seq<WorkItem>): WorkerRun
    decreases |inbox|
  {
    if inbox == [] then WorkerRun([], false)
    else
      match detect(inbox[0])
      case Err(_) => WorkerRun([], true)
      case Ok(segs) =>
        var rest := Served(detect, inbox[1..]);
        WorkerRun([ResultItem(inbox[0].index, segs)] + rest.sent, rest.crashed)
  }

  /** A worker answers its items in FIFO order, each reply tagged with its
      item's position; it crashes exactly when some item fails, and then at
      the first failing item. */
  lemma {:induction false} ServedIsFifo(detect: Segmenter, inbox: seq<WorkItem>)
    ensures var run := Served(detect, inbox);
      && |run.sent| <= |inbox|
      && (run.crashed <==> |run.sent| < |inbox|)
      && (forall m :: 0 <= m < |run.sent| ==>
            detect(inbox[m]).Ok? && run.sent[m] == ResultItem(inbox[m].index, detect(inbox[m]).value))
      && (run.crashed ==> detect(inbox[|run.sent|]).Err?)
    decreases |inbox|
  {
    if inbox != [] && detect(inbox[0]).Ok? {
      ServedIsFifo(detect, inbox[1..]);
      var rest := Served(detect, inbox[1..]);
      var run := Served(detect, inbox);
      assert run.sent == [ResultItem(inbox[0].index, detect(inbox[0]).value)] + rest.sent;
      forall m | 0 <= m < |run.sent|
        ensures detect(inbox[m]).Ok? && run.sent[m] == ResultItem(inbox[m].index, detect(inbox[m]).value)
      {
        if m > 0 {
          assert run.sent[m] == rest.sent[m - 1];
          assert inbox[m] == inbox[1..][m - 1];
        }
      }
      if run.crashed {
        assert inbox[|run.sent|] == inbox[1..][|rest.sent|];
      }
    }
  }

  /** A worker replies at most once per item, and to every item iff it does not crash. */
  lemma ServedCount(detect: Segmenter, inbox: seq<WorkItem>)
    ensures |Served(detect, inbox).sent| <= |inbox|
    ensures Served(detect, inbox).crashed <==> |Served(detect, inbox).sent| < |inbox|
  {
    ServedIsFifo(detect, inbox);
  }

  /** The worker's run from item `m` on, one item at a time. */
  lemma ServedFrom(detect: Segmenter, inbox: seq<WorkItem>, m: nat)
    requires m < |inbox|
    ensures detect(inbox[m]).Err? ==> Served(detect, inbox[m..]) == WorkerRun([], true)
    ensures detect(inbox[m]).Ok? ==>
      Served(detect, inbox[m..]) ==
        WorkerRun([ResultItem(inbox[m].index, detect(inbox[m]).value)] + Served(detect, inbox[m + 1..]).sent,
                  Served(detect, inbox[m + 1..]).crashed)
  {
    assert inbox[m..][0] == inbox[m] && inbox[m..][1..] == inbox[m + 1..];
  }

  /** The receive loop of one worker thread over the items it is sent. */
  method Serve(vad: SileroVadOrt, inbox: seq<WorkItem>) returns (sent: seq<ResultItem>, crashed: bool)
    ensures WorkerRun(sent, crashed) == Served(SegmenterOf(vad), inbox)
  {
    ghost var detect := SegmenterOf(vad);
    sent, crashed := [], false;
    var m := 0;
    while m < |inbox|
      invariant m <= |inbox|
      invariant Served(detect, inbox) == WorkerRun(sent + Served(detect, inbox[m..]).sent, Served(detect, inbox[m..]).crashed)
    {
      var item := inbox[m];
      ServedFrom(detect, inbox, m);
      var result := vad.DetectLong(item.audio, item.threshold);
      assert result == detect(item);
      if result.Err? {
        // `unwrap` panics: the thread ends and drops its reply sender
        crashed := true;
        return;
      }
      sent := sent + [ResultItem(item.index, result.value)];
      m := m + 1;
    }
    assert inbox[m..] == [];
  }

  // ---------------------------------------------------------------------------
  // Collecting the replies
  // ---------------------------------------------------------------------------

  /** Slot `k` of the result vector after the arrivals have been written in order. */
  function Slot(arrivals: seq<ResultItem>, k: nat): (r: seq<Segment>)
    ensures r == [] || exists m :: 0 <= m < |arrivals| && arrivals[m].index == k && r == arrivals[m].segments
    decreases |arrivals|
  {
    if arrivals == [] then []
    else
      var last := arrivals[|arrivals| - 1];
      if last.index == k then last.segments
      else
        assert forall m :: 0 <= m < |arrivals| - 1 ==> arrivals[..|arrivals| - 1][m] == arrivals[m];
        Slot(arrivals[..|arrivals| - 1], k)
  }

  /** The first `n` slots after the arrivals. */
  function Slots(arrivals: seq<ResultItem>, n: nat): (r: seq<seq<Segment>>)
    ensures |r| == n
  {
    seq(n, k requires 0 <= k < n => Slot(arrivals, k))
  }

  /** A slot no arrival names keeps its empty list; otherwise it holds the
      segments of the last arrival naming it, and every other write lands in
      another slot. */
  lemma {:induction false} SlotIsLastWrite(arrivals: seq<ResultItem>, k: nat)
    ensures (forall m :: 0 <= m < |arrivals| ==> arrivals[m].index != k) ==> Slot(arrivals, k) == []
    ensures (exists m :: 0 <= m < |arrivals| && arrivals[m].index == k) ==>
      exists m :: 0 <= m < |arrivals| && arrivals[m].index == k && Slot(arrivals, k) == arrivals[m].segments &&
        forall m' :: m < m' < |arrivals| ==> arrivals[m'].index != k
    decreases |arrivals|
  {
    if arrivals != [] {
      var p := arrivals[..|arrivals| - 1];
      SlotIsLastWrite(p, k);
      if arrivals[|arrivals| - 1].index != k {
        assert forall m :: 0 <= m < |p| ==> p[m] == arrivals[m];
        assert Slot(arrivals, k) == Slot(p, k);
        if exists m :: 0 <= m < |arrivals| && arrivals[m].index == k {
          var m :| 0 <= m < |arrivals| && arrivals[m].index == k;
          assert p[m].index == k;
          var m0 :| 0 <= m0 < |p| && p[m0].index == k && Slot(p, k) == p[m0].segments &&
            forall m' :: m0 < m' < |p| ==> p[m'].index != k;
          assert arrivals[m0].index == k && Slot(arrivals, k) == arrivals[m0].segments;
        }
      }
    }
  }

  /** If every arrival for slot `k` carries `v` and one does arrive, slot `k` is `v`. */
  lemma SlotValue(arrivals: seq<ResultItem>, k: nat, v: seq<Segment>)
    requires exists m :: 0 <= m < |arrivals| && arrivals[m].index == k
    requires forall m :: 0 <= m < |arrivals| && arrivals[m].index == k ==> arrivals[m].segments == v
    ensures Slot(arrivals, k) == v
  {
    SlotIsLastWrite(arrivals, k);
  }

  /** The result-gathering part of `detect_multi`: `n` empty slots, then each
      reply received overwrites the slot it names, until `n` replies have been
      counted. Once the channel is drained the receive fails if every sender
      is gone (`disconnected`) and blocks otherwise. */
  method Collect(n: nat, arrivals: seq<ResultItem>, disconnected: bool) returns (o: Outcome)
    requires forall m :: 0 <= m < |arrivals| ==> arrivals[m].index < n
    ensures o == if 0 < n <= |arrivals| then Returned(Slots(arrivals[..n], n))
                 else if disconnected then Returned(Slots(arrivals, n))
                 else Blocked
  {
    var results: seq<seq<Segment>> := [];
    for i := 0 to n
      invariant |results| == i
      invariant forall k :: 0 <= k < i ==> results[k] == []
    {
      results := results + [[]];
    }
    var count := 0;
    while count < |arrivals|
      invariant count <= |arrivals|
      invariant n == 0 || count < n
      invariant |results| == n
      invariant forall k :: 0 <= k < n ==> results[k] == Slot(arrivals[..count], k)
    {
      var item := arrivals[count];
      assert arrivals[..count + 1][..count] == arrivals[..count];
      results := results[item.index := item.segments];
      count := count + 1;
      if count == |results| {
        assert results == Slots(arrivals[..n], n);
        return Returned(results);
      }
    }
    assert arrivals[..count] == arrivals;
    if disconnected {
      assert results == Slots(arrivals, n);
      return Returned(results);
    }
    return Blocked;
  }

  // ---------------------------------------------------------------------------
  // The pool
  // ---------------------------------------------------------------------------

  /** The replies of the workers before `w`, worker by worker. */
  function Replies(pool: seq<Segmenter>, audios: seq<seq<real>>, threshold: real, w: nat): seq<ResultItem>
    requires w <= |pool|
  {
    if w == 0 then []
    else Replies(pool, audios, threshold, w - 1) + Served(pool[w - 1], Queue(audios, threshold, |pool|, w - 1)).sent
  }

  /** Whether worker `w` panics on its share of the batch. */
  predicate Crashes(pool: seq<Segmenter>, audios: seq<seq<real>>, threshold: real, w: nat)
    requires w < |pool|
  {
    Served(pool[w], Queue(audios, threshold, |pool|, w)).crashed
  }

  /** What `detect_long` gives for clip `k` on the worker it is routed to. */
  function Expected(pool: seq<Segmenter>, audios: seq<seq<real>>, threshold: real, k: nat): Result<seq<Segment>>
    requires 0 < |pool| && k < |audios|
  {
    pool[k % |pool|](WorkItem(k, threshold, audios[k]))
  }

  /** Every clip of the batch is segmented without error on its worker. */
  ghost predicate AllSucceed(pool: seq<Segmenter>, audios: seq<seq<real>>, threshold: real)
    requires 0 < |pool| || audios == []
  {
    forall k :: 0 <= k < |audios| ==> Expected(pool, audios, threshold, k).Ok?
  }

  /** Some worker thread is still running, so the response channel stays open. */
  ghost predicate Listening(pool: seq<Segmenter>, audios: seq<seq<real>>, threshold: real)
  {
    exists w :: 0 <= w < |pool| && !Crashes(pool, audios, threshold, w)
  }

  /** `results` holds, at every position, what `detect_long` gives for that clip. */
  ghost predicate Complete(pool: seq<Segmenter>, audios: seq<seq<real>>, threshold: real, results: seq<seq<Segment>>)
    requires 0 < |pool| || audios == []
  {
    && |results| == |audios|
    && forall k :: 0 <= k < |audios| ==>
         Expected(pool, audios, threshold, k).Ok? && results[k] == Expected(pool, audios, threshold, k).value
  }

  /** Every slot of `results` is still empty or holds what `detect_long` gives for that clip. */
  ghost predicate Sound(pool: seq<Segmenter>, audios: seq<seq<real>>, threshold: real, results: seq<seq<Segment>>)
    requires 0 < |pool| || audios == []
  {
    && |results| == |audios|
    && forall k :: 0 <= k < |audios| ==>
         results[k] == [] ||
         (Expected(pool, audios, threshold, k).Ok? && results[k] == Expected(pool, audios, threshold, k).value)
  }

  /** `order` lists every position `0 .. len - 1` and nothing else: a permutation. */
  ghost predicate IsPermutation(order: seq<nat>, len: nat)
  {
    && |order| == len
    && (forall m :: 0 <= m < |order| ==> order[m] < len)
    && (forall i :: 0 <= i < len ==> i in order)
  }

  /** Every reply names a clip of the batch and carries what `detect_long`
      gives for that clip on its worker. */
  lemma {:induction false} RepliesSound(pool: seq<Segmenter>, audios: seq<seq<real>>, threshold: real, w: nat)
    requires w <= |pool|
    ensures forall x :: x in Replies(pool, audios, threshold, w) ==>
      x.index < |audios| && Expected(pool, audios, threshold, x.index).Ok? &&
      x.segments == Expected(pool, audios, threshold, x.index).value
  {
    if w > 0 {
      var v := w - 1;
      RepliesSound(pool, audios, threshold, v);
      QueueContents(audios, threshold, |pool|, v);
      ServedIsFifo(pool[v], Queue(audios, threshold, |pool|, v));
    }
  }

  /** A worker that does not crash answers every clip routed to it. */
  lemma {:induction false} RepliesComplete(pool: seq<Segmenter>, audios: seq<seq<real>>, threshold: real, w: nat, k: nat)
    requires 0 < |pool| && w <= |pool| && k < |audios| && k % |pool| < w
    requires !Crashes(pool, audios, threshold, k % |pool|)
    ensures exists x :: x in Replies(pool, audios, threshold, w) && x.index == k
  {
    var n: Pos := |pool|;
    var v := w - 1;
    var before := Replies(pool, audios, threshold, v);
    var q := Queue(audios, threshold, n, v);
    var sent := Served(pool[v], q).sent;
    assert Replies(pool, audios, threshold, w) == before + sent;
    if k % n == v {
      QueueContents(audios, threshold, n, v);
      ServedIsFifo(pool[v], q);
      assert WorkItem(k, threshold, audios[k]) in q;
      var m :| 0 <= m < |q| && q[m] == WorkItem(k, threshold, audios[k]);
      assert sent[m].index == k;
      assert sent[m] in before + sent;
    } else {
      RepliesComplete(pool, audios, threshold, v, k);
      var x :| x in before && x.index == k;
      assert x in before + sent;
    }
  }

  /** The workers before `w` send at most one reply per item routed to them,
      and exactly one unless one of them crashes. */
  lemma {:induction false} RepliesCount(pool: seq<Segmenter>, audios: seq<seq<real>>, threshold: real, w: nat)
    requires 0 < |pool| && w <= |pool|
    ensures |Replies(pool, audios, threshold, w)| <= QueuedBefore(audios, threshold, |pool|, w)
    ensures |Replies(pool, audios, threshold, w)| == QueuedBefore(audios, threshold, |pool|, w) <==>
      forall v :: 0 <= v < w ==> !Crashes(pool, audios, threshold, v)
  {
    if w > 0 {
      var v := w - 1;
      RepliesCount(pool, audios, threshold, v);
      var q := Queue(audios, threshold, |pool|, v);
      var run := Served(pool[v], q);
      ServedCount(pool[v], q);
      assert Replies(pool, audios, threshold, w) == Replies(pool, audios, threshold, v) + run.sent;
      assert QueuedBefore(audios, threshold, |pool|, w) == QueuedBefore(audios, threshold, |pool|, v) + |q|;
      assert Crashes(pool, audios, threshold, v) == run.crashed;
    }
  }

  /** A clip whose detection fails makes the worker it is routed to crash. */
  lemma FailureCrashesWorker(pool: seq<Segmenter>, audios: seq<seq<real>>, threshold: real, k: nat)
    requires 0 < |pool| && k < |audios|
    requires Expected(pool, audios, threshold, k).Err?
    ensures Crashes(pool, audios, threshold, k % |pool|)
  {
    var n: Pos := |pool|;
    var q := Queue(audios, threshold, n, k % n);
    QueueContents(audios, threshold, n, k % n);
    ServedIsFifo(pool[k % n], q);
    var m :| 0 <= m < |q| && q[m] == WorkItem(k, threshold, audios[k]);
    assert pool[k % n](q[m]).Err?;
  }

  /** A worker crashes only on a clip whose detection fails. */
  lemma CrashNeedsFailure(pool: seq<Segmenter>, audios: seq<seq<real>>, threshold: real, w: nat)
    requires w < |pool|
    requires Crashes(pool, audios, threshold, w)
    ensures exists k :: 0 <= k < |audios| && Expected(pool, audios, threshold, k).Err?
  {
    var n: Pos := |pool|;
    var q := Queue(audios, threshold, n, w);
    QueueContents(audios, threshold, n, w);
    ServedIsFifo(pool[w], q);
    var m := |Served(pool[w], q).sent|;
    assert m < |q|;
    var k := q[m].index;
    assert k < |audios| && k % n == w;
    assert Expected(pool, audios, threshold, k) == pool[w](q[m]);
  }

  /** No worker crashes exactly when every clip of the batch succeeds. */
  lemma NoCrashIffSuccess(pool: seq<Segmenter>, audios: seq<seq<real>>, threshold: real)
    requires 0 < |pool|
    ensures (forall v :: 0 <= v < |pool| ==> !Crashes(pool, audios, threshold, v)) <==>
      AllSucceed(pool, audios, threshold)
  {
    if !AllSucceed(pool, audios, threshold) {
      var k :| 0 <= k < |audios| && Expected(pool, audios, threshold, k).Err?;
      FailureCrashesWorker(pool, audios, threshold, k);
    }
    if exists v :: 0 <= v < |pool| && Crashes(pool, audios, threshold, v) {
      var v :| 0 <= v < |pool| && Crashes(pool, audios, threshold, v);
      CrashNeedsFailure(pool, audios, threshold, v);
    }
  }

  /** The pool sends at most one reply per clip, and one for every clip
      exactly when every clip succeeds. */
  lemma ReplyCount(pool: seq<Segmenter>, audios: seq<seq<real>>, threshold: real)
    requires 0 < |pool|
    ensures |Replies(pool, audios, threshold, |pool|)| <= |audios|
    ensures |Replies(pool, audios, threshold, |pool|)| == |audios| <==> AllSucceed(pool, audios, threshold)
  {
    AllRouted(audios, threshold, |pool|);
    RepliesCount(pool, audios, threshold, |pool|);
    NoCrashIffSuccess(pool, audios, threshold);
  }

  /** Some reply in `xs` names position `k`. */
  ghost predicate Named(xs: seq<ResultItem>, k: nat)
  {
    exists i :: 0 <= i < |xs| && xs[i].index == k
  }

  /** No two replies in `xs` name the same position. */
  ghost predicate Distinct(xs: seq<ResultItem>)
  {
    forall i, j :: 0 <= i < j < |xs| ==> xs[i].index != xs[j].index
  }

  /** Every reply in `xs` names a position `k` with `k % n < w`. */
  ghost predicate ResiduesBelow(xs: seq<ResultItem>, n: Pos, w: nat)
  {
    forall i :: 0 <= i < |xs| ==> xs[i].index % n < w
  }

  /** Every reply in `xs` names a position `k` with `k % n == w`, in ascending order. */
  ghost predicate AscendingShare(xs: seq<ResultItem>, n: Pos, w: nat)
  {
    && (forall m :: 0 <= m < |xs| ==> xs[m].index % n == w)
    && (forall m, m' :: 0 <= m < m' < |xs| ==> xs[m].index < xs[m'].index)
  }

  /** `xs` names every position `0 .. len - 1` exactly once and nothing else. */
  ghost predicate NamesEachOnce(xs: seq<ResultItem>, len: nat)
  {
    && |xs| == len
    && (forall i :: 0 <= i < |xs| ==> xs[i].index < len)
    && (forall k :: 0 <= k < len ==> Named(xs, k))
    && Distinct(xs)
  }

  /** Worker `w`'s replies name positions `k` with `k % n == w`, in ascending order. */
  lemma SentInOrder(pool: seq<Segmenter>, audios: seq<seq<real>>, threshold: real, w: nat)
    requires w < |pool|
    ensures AscendingShare(Served(pool[w], Queue(audios, threshold, |pool|, w)).sent, |pool|, w)
  {
    var q := Queue(audios, threshold, |pool|, w);
    QueueContents(audios, threshold, |pool|, w);
    ServedIsFifo(pool[w], q);
  }

  /** Appending replies of a new residue to distinct replies of smaller
      residues keeps them distinct. */
  lemma DistinctAppend(before: seq<ResultItem>, sent: seq<ResultItem>, n: Pos, w: nat)
    requires ResiduesBelow(before, n, w)
    requires Distinct(before)
    requires AscendingShare(sent, n, w)
    ensures ResiduesBelow(before + sent, n, w + 1)
    ensures Distinct(before + sent)
  {
    var all := before + sent;
    forall i | 0 <= i < |all|
      ensures all[i].index % n < w + 1
    {
      if |before| <= i {
        assert all[i] == sent[i - |before|];
      }
    }
    forall i, j | 0 <= i < j < |all|
      ensures all[i].index != all[j].index
    {
      if |before| <= i {
        assert all[i] == sent[i - |before|] && all[j] == sent[j - |before|];
      } else if |before| <= j {
        assert all[i] == before[i] && all[j] == sent[j - |before|];
      }
    }
  }

  /** The workers before `w` reply only for positions routed to them, and
      never twice for the same position. */
  lemma {:induction false} RepliesDistinct(pool: seq<Segmenter>, audios: seq<seq<real>>, threshold: real, w: nat)
    requires 0 < |pool| && w <= |pool|
    ensures ResiduesBelow(Replies(pool, audios, threshold, w), |pool|, w)
    ensures Distinct(Replies(pool, audios, threshold, w))
  {
    if w > 0 {
      var v := w - 1;
      RepliesDistinct(pool, audios, threshold, v);
      SentInOrder(pool, audios, threshold, v);
      DistinctAppend(Replies(pool, audios, threshold, v),
                     Served(pool[v], Queue(audios, threshold, |pool|, v)).sent, |pool|, v);
    }
  }

  /** When every clip succeeds, the replies name every position of the batch
      exactly once, so the receive loop fills each slot exactly once. */
  lemma EachPositionRepliedOnce(pool: seq<Segmenter>, audios: seq<seq<real>>, threshold: real)
    requires 0 < |pool|
    requires AllSucceed(pool, audios, threshold)
    ensures NamesEachOnce(Replies(pool, audios, threshold, |pool|), |audios|)
  {
    var replies := Replies(pool, audios, threshold, |pool|);
    ReplyCount(pool, audios, threshold);
    RepliesSound(pool, audios, threshold, |pool|);
    RepliesDistinct(pool, audios, threshold, |pool|);
    NoCrashIffSuccess(pool, audios, threshold);
    forall k | 0 <= k < |audios|
      ensures Named(replies, k)
    {
      RepliesComplete(pool, audios, threshold, |pool|, k);
      var x :| x in replies && x.index == k;
    }
    assert forall i :: 0 <= i < |replies| ==> replies[i] in replies;
  }

  /** When every clip succeeds, the replies, in whatever order they arrive,
      fill every slot with its own clip's segments. */
  lemma ArrivalsComplete(pool: seq<Segmenter>, audios: seq<seq<real>>, threshold: real,
                         order: seq<nat>, arrivals: seq<ResultItem>)
    requires 0 < |pool|
    requires IsPermutation(order, |Replies(pool, audios, threshold, |pool|)|)
    requires |arrivals| == |order|
    requires forall m :: 0 <= m < |order| ==> arrivals[m] == Replies(pool, audios, threshold, |pool|)[order[m]]
    requires AllSucceed(pool, audios, threshold)
    ensures Complete(pool, audios, threshold, Slots(arrivals, |audios|))
  {
    var replies := Replies(pool, audios, threshold, |pool|);
    RepliesSound(pool, audios, threshold, |pool|);
    NoCrashIffSuccess(pool, audios, threshold);
    forall k | 0 <= k < |audios|
      ensures Slot(arrivals, k) == Expected(pool, audios, threshold, k).value
    {
      var v := Expected(pool, audios, threshold, k).value;
      RepliesComplete(pool, audios, threshold, |pool|, k);
      var x :| x in replies && x.index == k;
      var i :| 0 <= i < |replies| && replies[i] == x;
      assert i in order;
      var m :| 0 <= m < |order| && order[m] == i;
      assert arrivals[m].index == k;
      forall m' | 0 <= m' < |arrivals| && arrivals[m'].index == k
        ensures arrivals[m'].segments == v
      {
        assert arrivals[m'] in replies;
      }
      SlotValue(arrivals, k, v);
    }
  }

  /** Whichever replies arrive, every slot is left empty or holds its own
      clip's segments. */
  lemma SlotsSound(pool: seq<Segmenter>, audios: seq<seq<real>>, threshold: real, xs: seq<ResultItem>)
    requires 0 < |pool| || audios == []
    requires forall m :: 0 <= m < |xs| ==> xs[m] in Replies(pool, audios, threshold, |pool|)
    ensures Sound(pool, audios, threshold, Slots(xs, |audios|))
  {
    RepliesSound(pool, audios, threshold, |pool|);
    forall k | 0 <= k < |audios|
      ensures Slot(xs, k) == [] ||
        (Expected(pool, audios, threshold, k).Ok? && Slot(xs, k) == Expected(pool, audios, threshold, k).value)
    {
      SlotIsLastWrite(xs, k);
      if exists m :: 0 <= m < |xs| && xs[m].index == k {
        var m :| 0 <= m < |xs| && xs[m].index == k && Slot(xs, k) == xs[m].segments;
        assert xs[m] in Replies(pool, audios, threshold, |pool|);
      }
    }
  }

  /** The segmenters of a pool of detectors, one per worker thread. */
  function Pool(workers: seq<SileroVadOrt>): seq<Segmenter>
  {
    seq(|workers|, v requires 0 <= v < |workers| => SegmenterOf(workers[v]))
  }

  /** What the pool is expected to give for clip `k`: what `detect_long` gives
      for that clip on worker `k % n`. */
  lemma ExpectedIsDetectLong(workers: seq<SileroVadOrt>, audios: seq<seq<real>>, threshold: real, k: nat)
    requires 0 < |workers| && k < |audios|
    ensures Expected(Pool(workers), audios, threshold, k) ==
      SegmentAudio(workers[k % |workers|].model, workers[k % |workers|].chunkSize, audios[k], threshold)
  {
  }

  /** The worker threads, each draining its own queue: the replies of all of
      them, worker by worker, and whether some thread is still running. */
  method ServeAll(workers: seq<SileroVadOrt>, audios: seq<seq<real>>, threshold: real, queues: seq<seq<WorkItem>>)
    returns (replies: seq<ResultItem>, alive: bool)
    requires |queues| == |workers|
    requires forall w :: 0 <= w < |workers| ==> queues[w] == Queue(audios, threshold, |workers|, w)
    ensures replies == Replies(Pool(workers), audios, threshold, |workers|)
    ensures alive <==> Listening(Pool(workers), audios, threshold)
  {
    replies, alive := [], false;
    for w := 0 to |workers|
      invariant replies == Replies(Pool(workers), audios, threshold, w)
      invariant alive <==> exists v :: 0 <= v < w && !Crashes(Pool(workers), audios, threshold, v)
    {
      var sent, crashed := Serve(workers[w], queues[w]);
      assert crashed == Crashes(Pool(workers), audios, threshold, w);
      replies := replies + sent;
      alive := alive || !crashed;
    }
  }

  /** What the receive loop makes of the replies, arriving in the order
      `order`, once routing and the workers are done. */
  lemma CollectedOutcome(pool: seq<Segmenter>, audios: seq<seq<real>>, threshold: real,
                         order: seq<nat>, arrivals: seq<ResultItem>, o: Outcome)
    requires 0 < |pool| || audios == []
    requires IsPermutation(order, |Replies(pool, audios, threshold, |pool|)|)
    requires |arrivals| == |order|
    requires forall m :: 0 <= m < |order| ==> arrivals[m] == Replies(pool, audios, threshold, |pool|)[order[m]]
    requires o == if 0 < |audios| <= |arrivals| then Returned(Slots(arrivals[..|audios|], |audios|))
                  else if !Listening(pool, audios, threshold) then Returned(Slots(arrivals, |audios|))
                  else Blocked
    ensures audios != [] && AllSucceed(pool, audios, threshold) ==>
      o.Returned? && Complete(pool, audios, threshold, o.results)
    ensures o.Returned? ==> Sound(pool, audios, threshold, o.results)
    ensures o.Blocked? <==>
      Listening(pool, audios, threshold) && (audios == [] || !AllSucceed(pool, audios, threshold))
  {
    if 0 < |pool| {
      ReplyCount(pool, audios, threshold);
      var replies := Replies(pool, audios, threshold, |pool|);
      assert forall m :: 0 <= m < |arrivals| ==> arrivals[m] in replies;
      if 0 < |audios| <= |arrivals| {
        assert arrivals[..|audios|] == arrivals;
        ArrivalsComplete(pool, audios, threshold, order, arrivals);
      } else {
        SlotsSound(pool, audios, threshold, arrivals);
      }
    }
  }

  class SileroParallel {
    /** One detector per worker thread, loaded when the thread starts. */
    const workers: seq<SileroVadOrt>

    constructor (workers: seq<SileroVadOrt>)
      ensures this.workers == workers
    {
      this.workers := workers;
    }

    /** Segments a batch of clips on the pool. `order` is the order in which
        the replies of all workers, taken worker by worker, reach the response
        channel. When every clip succeeds the call returns, at every position
        `k`, what `detect_long` gives for clip `k` on worker `k % n`. While
        some worker still listens it blocks forever on an empty batch and when
        a clip fails; otherwise it returns slots that are empty or right. */
    method DetectMulti(audios: seq<seq<real>>, threshold: real, order: seq<nat>) returns (o: Outcome)
      requires 0 < |workers| || audios == []
      requires IsPermutation(order, |Replies(Pool(workers), audios, threshold, |workers|)|)
      ensures audios != [] && AllSucceed(Pool(workers), audios, threshold) ==>
        o.Returned? && Complete(Pool(workers), audios, threshold, o.results)
      ensures o.Returned? ==> Sound(Pool(workers), audios, threshold, o.results)
      ensures o.Blocked? <==>
        Listening(Pool(workers), audios, threshold) && (audios == [] || !AllSucceed(Pool(workers), audios, threshold))
    {
      var queues := Route(audios, threshold, |workers|);
      var replies, alive := ServeAll(workers, audios, threshold, queues);
      var arrivals := seq(|order|, m requires 0 <= m < |order| => replies[order[m]]);
      RepliesSound(Pool(workers), audios, threshold, |workers|);
      assert forall m :: 0 <= m < |arrivals| ==> arrivals[m] in replies;
      o := Collect(|audios|, arrivals, !alive);
      CollectedOutcome(Pool(workers), audios, threshold, order, arrivals, o);
    }
  }
}
