/** The threaded streaming pipeline of `StreamingSTT` and `StreamThread`.

    The backend hands audio chunks to a worker thread through a queue; `None`
    in the queue is the end-of-stream sentinel. The thread is modelled
    sequentially: queued items wait in the queue until `stream_stop` joins
    the worker, and joining means the worker consumes the queue up to the
    sentinel and runs the vendor's `handle_audio_stream` over what it got. */
module Streaming {
  import opened Outcomes

  type Bytes = seq<bv8>

  /** One queue item: a chunk, or `None`, the end-of-stream sentinel. */
  type Item = Option<Bytes>

  /** What the consumer generator `_get_data` yields from a queue: every
      chunk that precedes the first sentinel, in queue order, and nothing
      after it. Never the sentinel itself. */
  function Delivered(q: seq<Item>): (d: seq<Bytes>)
    ensures |d| <= |q|
    ensures forall i :: 0 <= i < |d| ==> q[i] == Some(d[i])
    ensures |d| < |q| ==> q[|d|] == None
  {
    if q == [] then []
    else
      match q[0]
      case None => []
      case Some(chunk) => [chunk] + Delivered(q[1..])
  }

  /** The generator itself, as the loop the source writes: take items off
      the front of the queue, stop at the sentinel, yield everything else.
      `stopped` is false when the queue ran dry without a sentinel, where the
      thread would block on `queue.get()` waiting for more. */
  method GetData(q: seq<Item>) returns (yielded: seq<Bytes>, stopped: bool)
    ensures yielded == Delivered(q)
    ensures stopped <==> None in q
  {
    yielded := [];
    stopped := false;
    var i := 0;
    while i < |q|
      invariant 0 <= i <= |q| && |yielded| == i
      invariant forall j :: 0 <= j < i ==> q[j] == Some(yielded[j])
    {
      var d := q[i];
      if d.None? {
        DeliveredUpTo(q, yielded);
        stopped := true;
        return;
      }
      yielded := yielded + [d.value];
      i := i + 1;
    }
    DeliveredUpTo(q, yielded);
  }

  /** The chunks before the first sentinel, or before the end when there is
      none, are exactly what is delivered. */
  lemma DeliveredUpTo(q: seq<Item>, chunks: seq<Bytes>)
    requires |chunks| <= |q|
    requires forall j :: 0 <= j < |chunks| ==> q[j] == Some(chunks[j])
    requires |chunks| < |q| ==> q[|chunks|] == None
    ensures Delivered(q) == chunks
  {
    var d := Delivered(q);
    assert |d| == |chunks|;
  }

  /** Whatever follows the first sentinel is never delivered. */
  lemma {:induction false} DeliveredStopsAtSentinel(p: seq<Item>, t: seq<Item>)
    ensures Delivered(p + [None] + t) == Delivered(p)
  {
    if p == [] {
      assert p + [None] + t == [None] + t;
    } else {
      assert (p + [None] + t)[1..] == p[1..] + [None] + t;
      DeliveredStopsAtSentinel(p[1..], t);
    }
  }

  /** A queue of chunks only is delivered whole, in order. */
  lemma DeliveredAllChunks(chunks: seq<Bytes>)
    ensures Delivered(Queued(chunks)) == chunks
  {
    var q := Queued(chunks);
    var d := Delivered(q);
    assert None !in q;
    assert |d| == |q|;
    assert forall i :: 0 <= i < |d| ==> d[i] == chunks[i];
  }

  /** The queue items `stream_data` puts for a run of chunks. */
  function Queued(chunks: seq<Bytes>): (q: seq<Item>)
    ensures |q| == |chunks|
    ensures forall i :: 0 <= i < |q| ==> q[i] == Some(chunks[i])
  {
    seq(|chunks|, i requires 0 <= i < |chunks| => Some(chunks[i]))
  }

  /** A `StreamThread`: the language it was bound to, and its `text`, which
      starts as `None` and is written only by the worker itself. */
  datatype Worker = Worker(language: string, text: Option<string>)

  /** The vendor's `handle_audio_stream`: given the session language and the
      chunks the generator yields, the value it leaves in the worker's `text`
      by the time it returns or raises. */
  type Handler = (string, seq<Bytes>) -> Option<string>

  /** A streaming backend. `lang` is the language `create_streaming_thread`
      binds to new workers. With no stream the backend has no queue either
      (`self.queue` is missing or `None`); with one it has exactly one worker
      and the queue that worker reads. */
  datatype StreamingStt =
    | Idle(lang: string)
    | Streaming(lang: string, worker: Worker, queue: seq<Item>)

  /** What `stream_stop` returns, and the backend afterwards. */
  datatype Stopped = Stopped(text: Option<string>, state: StreamingStt)

  /** `stream_stop`: with no stream, `None` and nothing changes. With one,
      the sentinel is queued, the worker is joined (it consumes the queue up
      to the first sentinel), its `text` is returned, and both the worker and
      the queue are dropped. */
  function StreamStop(s: StreamingStt, handle: Handler): (r: Stopped)
    ensures r.state == Idle(s.lang)
    ensures s.Idle? ==> r.text == None && r.state == s
    ensures s.Streaming? ==> r.text == handle(s.worker.language, Delivered(s.queue))
  {
    match s
    case Idle(_) => Stopped(None, s)
    case Streaming(lang, worker, queue) =>
      var sentinelled := queue + [None];
      DeliveredStopsAtSentinel(queue, []);
      assert sentinelled == queue + [None] + [];
      var joined := worker.(text := handle(worker.language, Delivered(sentinelled)));
      Stopped(joined.text, Idle(lang))
  }

  /** `stream_start`: stop whatever stream is running, then install a fresh
      queue and a fresh worker bound to the backend's language. The per-call
      `language` is resolved by the source but never handed to the worker. */
  function StreamStart(s: StreamingStt, language: Option<string>, handle: Handler): (r: StreamingStt)
    ensures r.Streaming?
    ensures r.lang == s.lang
    ensures r.worker.language == s.lang && r.worker.text == None
    ensures r.queue == []
  {
    var stopped := StreamStop(s, handle).state;
    Streaming(stopped.lang, Worker(stopped.lang, None), [])
  }

  /** `stream_data`: append one item to the queue. Without a stream there is
      no queue to put into, and the attribute access raises. */
  function StreamData(s: StreamingStt, data: Item): (r: Outcome<StreamingStt>)
    ensures s.Idle? ==> r.Raised? && r.exc.AttributeError?
    ensures s.Streaming? ==> r.Returned? && r.value.Streaming?
    ensures s.Streaming? ==> r.value.worker == s.worker && r.value.lang == s.lang
    ensures s.Streaming? ==> r.value.queue == s.queue + [data]
  {
    match s
    case Idle(_) => Raised(AttributeError("'NoneType' object has no attribute 'put'"))
    case Streaming(lang, worker, queue) => Returned(Streaming(lang, worker, queue + [data]))
  }

  /** `StreamingSTT.execute`: the buffered `audio` and `language` are ignored;
      it only ends the running stream and returns what the worker produced. */
  function Execute<A>(s: StreamingStt, audio: A, language: Option<string>, handle: Handler): (r: Stopped)
    ensures r.state == Idle(s.lang)
    ensures s.Idle? ==> r.text == None
    ensures s.Streaming? ==> r.text == handle(s.worker.language, Delivered(s.queue))
  {
    StreamStop(s, handle)
  }

  /** Repeated `stream_data` calls, stopping at the first one that raises. */
  function Feed(s: StreamingStt, items: seq<Item>): Outcome<StreamingStt>
    decreases |items|
  {
    if items == [] then Returned(s)
    else
      match StreamData(s, items[0])
      case Raised(e) => Raised(e)
      case Returned(next) => Feed(next, items[1..])
  }

  /** Feeding a running stream appends every item, in order, to its queue
      and touches nothing else. */
  lemma {:induction false} FeedAppends(s: StreamingStt, items: seq<Item>)
    requires s.Streaming?
    ensures Feed(s, items) == Returned(s.(queue := s.queue + items))
    decreases |items|
  {
    if items == [] {
      assert s.queue + items == s.queue;
    } else {
      var next := s.(queue := s.queue + [items[0]]);
      assert StreamData(s, items[0]) == Returned(next);
      FeedAppends(next, items[1..]);
      assert s.queue + [items[0]] + items[1..] == s.queue + items;
    }
  }

  /** A whole utterance: `stream_start`, any run of `stream_data`, then
      `stream_stop`. The worker receives exactly the items before the first
      sentinel the caller may have slipped in, in submission order, and the
      backend ends idle. */
  lemma SessionDeliversUpToSentinel(s: StreamingStt, language: Option<string>, items: seq<Item>, handle: Handler)
    ensures Feed(StreamStart(s, language, handle), items).Returned?
    ensures StreamStop(Feed(StreamStart(s, language, handle), items).value, handle)
              == Stopped(handle(s.lang, Delivered(items)), Idle(s.lang))
  {
    var started := StreamStart(s, language, handle);
    FeedAppends(started, items);
    assert [] + items == items;
  }

  /** With chunks only, the worker sees all of them, in order, exactly once. */
  lemma SessionDeliversInOrder(s: StreamingStt, language: Option<string>, chunks: seq<Bytes>, handle: Handler)
    ensures Feed(StreamStart(s, language, handle), Queued(chunks)).Returned?
    ensures StreamStop(Feed(StreamStart(s, language, handle), Queued(chunks)).value, handle).text
              == handle(s.lang, chunks)
  {
    SessionDeliversUpToSentinel(s, language, Queued(chunks), handle);
    DeliveredAllChunks(chunks);
  }

  /** Stopping twice: the second stop returns `None` and changes nothing. */
  lemma StopIdempotent(s: StreamingStt, handle: Handler)
    ensures StreamStop(StreamStop(s, handle).state, handle)
              == Stopped(None, StreamStop(s, handle).state)
  {
  }

  /** Starting while a stream runs is the same as stopping it first and then
      starting: the old worker is joined, never orphaned. */
  lemma StartIsStopThenStart(s: StreamingStt, language: Option<string>, handle: Handler)
    ensures StreamStart(s, language, handle)
              == StreamStart(StreamStop(s, handle).state, language, handle)
  {
  }
}
