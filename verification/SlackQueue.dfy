/** The live IQ source, cmd/gophertrunk/hunt_iqsource.go: a forwarder goroutine
    drains the radio into a bounded slack queue and drops the newest chunk when it
    is full; Capture and Tune, on the reader's goroutine, take from that queue.
    Every atomic step of either side is an event, so a run is an interleaving. */
module SlackQueue {
  import opened Wrappers

  /** iqSlackDepth. */
  const SLACK_DEPTH := 64

  /** What the reader's goroutine is doing. */
  datatype Reader = Idle | Capturing(n: nat) | Tuning

  /** A successful Capture of n samples; `ended` marks the one that saw the stream end. */
  datatype Result<X> = Result(n: nat, out: seq<X>, ended: bool)

  /** `received`, `kept` and `dequeued` are the history of the run: the chunks
      read from the radio, whether each got into the queue, and the chunks taken
      out of it. `since` is how many of the latter came out before the last Tune
      was over, and `results` are the captures that succeeded after it. */
  datatype State<X> = State(
    queue: seq<seq<X>>,
    closed: bool,
    dropped: nat,
    pending: seq<X>,
    reader: Reader,
    received: seq<seq<X>>,
    kept: seq<bool>,
    dequeued: seq<seq<X>>,
    since: nat,
    results: seq<Result<X>>)

  datatype Event<X> =
    | ChunkArrived(chunk: seq<X>)   // forwarder: one receive and its non-blocking send
    | ForwarderStops                // forwarder: context done or stream closed; closes the queue
    | CaptureCalled(n: nat)
    | TakeChunk
    | CaptureDone
    | CaptureCancelled
    | StreamEnded
    | TuneFailed
    | TuneCalled
    | DiscardChunk
    | Settled

  ghost predicate Initial<X>(s: State<X>) {
    s == State([], false, 0, [], Idle, [], [], [], 0, [])
  }

  function Forward<X>(s: State<X>, ev: Event<X>): Option<State<X>> {
    match ev
    case ChunkArrived(chunk) =>
      if s.closed then None
      else if |s.queue| < SLACK_DEPTH
      then Some(s.(received := s.received + [chunk], kept := s.kept + [true], queue := s.queue + [chunk]))
      else Some(s.(received := s.received + [chunk], kept := s.kept + [false], dropped := s.dropped + 1))
    case ForwarderStops =>
      if s.closed then None else Some(s.(closed := true))
    case _ => None
  }

  function Read<X>(s: State<X>, ev: Event<X>): Option<State<X>> {
    match ev
    case CaptureCalled(n) =>
      if s.reader.Idle? then Some(s.(reader := Capturing(n))) else None
    case TakeChunk =>
      if s.reader.Capturing? && |s.pending| < s.reader.n && s.queue != []
      then Some(s.(pending := s.pending + s.queue[0], dequeued := s.dequeued + [s.queue[0]], queue := s.queue[1..]))
      else None
    case CaptureDone =>
      if s.reader.Capturing? && |s.pending| >= s.reader.n
      then var n := s.reader.n;
            Some(s.(reader := Idle, results := s.results + [Result(n, s.pending[..n], false)],
                    pending := s.pending[n..]))
      else None
    case CaptureCancelled =>
      if s.reader.Capturing? && |s.pending| < s.reader.n then Some(s.(reader := Idle)) else None
    case StreamEnded =>
      if s.reader.Capturing? && |s.pending| < s.reader.n && s.closed && s.queue == []
      then Some(s.(reader := Idle, results := s.results + [Result(s.reader.n, s.pending, true)], pending := []))
      else None
    case TuneFailed =>
      if s.reader.Idle? then Some(s) else None
    case TuneCalled =>
      if s.reader.Idle? then Some(s.(reader := Tuning, pending := [], since := |s.dequeued|, results := [])) else None
    case DiscardChunk =>
      if s.reader.Tuning? && s.queue != []
      then Some(s.(dequeued := s.dequeued + [s.queue[0]], since := |s.dequeued| + 1, queue := s.queue[1..]))
      else None
    case Settled =>
      if s.reader.Tuning? then Some(s.(reader := Idle)) else None
    case _ => None
  }

  function Step<X>(s: State<X>, ev: Event<X>): Option<State<X>> {
    if ev.ChunkArrived? || ev.ForwarderStops? then Forward(s, ev) else Read(s, ev)
  }

  ghost predicate IsRun<X>(trace: seq<State<X>>, evs: seq<Event<X>>) {
    && |trace| == |evs| + 1
    && Initial(trace[0])
    && forall k {:trigger evs[k]} | 0 <= k < |evs| :: Step(trace[k], evs[k]) == Some(trace[k + 1])
  }

  // -------------------------------------------------------------- specification

  function Flatten<X>(chunks: seq<seq<X>>): seq<X> {
    if chunks == [] then [] else Flatten(chunks[..|chunks| - 1]) + chunks[|chunks| - 1]
  }

  function Outputs<X>(results: seq<Result<X>>): seq<X> {
    if results == [] then [] else Outputs(results[..|results| - 1]) + results[|results| - 1].out
  }

  /** The chunks that got into the queue, in arrival order. */
  function Kept<X>(received: seq<seq<X>>, kept: seq<bool>): seq<seq<X>>
    requires |received| == |kept|
  {
    if received == [] then []
    else
      var n := |received| - 1;
      Kept(received[..n], kept[..n]) + if kept[n] then [received[n]] else []
  }

  // ------------------------------------------------------------------ invariant

  /** Nothing is lost, duplicated or reordered between the radio and the reader
      but the chunks counted as dropped. */
  ghost predicate QueueInv<X>(s: State<X>) {
    && |s.queue| <= SLACK_DEPTH
    && |s.kept| == |s.received|
    && s.dequeued + s.queue == Kept(s.received, s.kept)
    && |s.received| == |s.dequeued| + |s.queue| + s.dropped
  }

  ghost predicate ReaderInv<X>(s: State<X>) {
    && s.since <= |s.dequeued|
    && (s.reader.Tuning? ==> s.results == [] && s.pending == [] && s.since == |s.dequeued|)
    && Outputs(s.results) + s.pending == Flatten(s.dequeued[s.since..])
    && (forall k | 0 <= k < |s.results| ::
          if s.results[k].ended then |s.results[k].out| < s.results[k].n else |s.results[k].out| == s.results[k].n)
    && ((exists k | 0 <= k < |s.results| :: s.results[k].ended) ==> s.closed && s.queue == [])
    && (s.results != [] && s.results[|s.results| - 1].ended ==> s.pending == [])
  }

  lemma {:induction false} KeptAppend<X>(received: seq<seq<X>>, kept: seq<bool>, chunk: seq<X>, k: bool)
    requires |received| == |kept|
    ensures Kept(received + [chunk], kept + [k]) == Kept(received, kept) + if k then [chunk] else []
  {
    assert (received + [chunk])[..|received|] == received && (kept + [k])[..|kept|] == kept;
  }

  lemma FlattenAppend<X>(chunks: seq<seq<X>>, chunk: seq<X>)
    ensures Flatten(chunks + [chunk]) == Flatten(chunks) + chunk
  {
    assert (chunks + [chunk])[..|chunks|] == chunks;
  }

  lemma OutputsAppend<X>(results: seq<Result<X>>, r: Result<X>)
    ensures Outputs(results + [r]) == Outputs(results) + r.out
  {
    assert (results + [r])[..|results|] == results;
  }

  lemma ForwardKeepsInv<X>(s: State<X>, ev: Event<X>, s': State<X>)
    requires QueueInv(s) && ReaderInv(s) && Forward(s, ev) == Some(s')
    ensures QueueInv(s') && ReaderInv(s')
  {
    if ev.ChunkArrived? {
      KeptAppend(s.received, s.kept, ev.chunk, |s.queue| < SLACK_DEPTH);
    }
  }

  lemma ReadKeepsQueue<X>(s: State<X>, ev: Event<X>, s': State<X>)
    requires QueueInv(s) && Read(s, ev) == Some(s')
    ensures QueueInv(s')
  {
    if ev.TakeChunk? || ev.DiscardChunk? {
      assert s'.dequeued + s'.queue == s.dequeued + ([s.queue[0]] + s.queue[1..]);
      assert s.queue == [s.queue[0]] + s.queue[1..];
    }
  }

  lemma TakeKeepsReader<X>(s: State<X>, s': State<X>)
    requires ReaderInv(s) && Read(s, TakeChunk) == Some(s')
    ensures ReaderInv(s')
  {
    assert s'.dequeued[s.since..] == s.dequeued[s.since..] + [s.queue[0]];
    FlattenAppend(s.dequeued[s.since..], s.queue[0]);
  }

  /** A result r that splits the leftover keeps the reader's account straight. */
  lemma ResultKeepsReader<X>(s: State<X>, r: Result<X>, rest: seq<X>)
    requires ReaderInv(s) && s.reader.Capturing? && s.pending == r.out + rest
    requires !r.ended && |r.out| == r.n
    ensures ReaderInv(s.(reader := Idle, results := s.results + [r], pending := rest))
  {
    OutputsAppend(s.results, r);
  }

  lemma EndKeepsReader<X>(s: State<X>, n: nat)
    requires ReaderInv(s) && |s.pending| < n && s.closed && s.queue == []
    ensures ReaderInv(s.(reader := Idle, results := s.results + [Result(n, s.pending, true)], pending := []))
  {
    OutputsAppend(s.results, Result(n, s.pending, true));
  }

  lemma ReadKeepsReader<X>(s: State<X>, ev: Event<X>, s': State<X>)
    requires ReaderInv(s) && Read(s, ev) == Some(s')
    ensures ReaderInv(s')
  {
    if ev.TakeChunk? {
      TakeKeepsReader(s, s');
    } else if ev.CaptureDone? {
      ResultKeepsReader(s, Result(s.reader.n, s.pending[..s.reader.n], false), s.pending[s.reader.n..]);
    } else if ev.StreamEnded? {
      EndKeepsReader(s, s.reader.n);
    } else if ev.TuneCalled? || ev.DiscardChunk? {
      assert s'.dequeued[s'.since..] == [];
    }
  }

  lemma {:induction false} RunInv<X>(trace: seq<State<X>>, evs: seq<Event<X>>, k: nat)
    requires IsRun(trace, evs) && k <= |evs|
    ensures QueueInv(trace[k]) && ReaderInv(trace[k])
  {
    if k > 0 {
      RunInv(trace, evs, k - 1);
      var s, ev, s' := trace[k - 1], evs[k - 1], trace[k];
      assert Step(s, ev) == Some(s');
      if ev.ChunkArrived? || ev.ForwarderStops? {
        ForwardKeepsInv(s, ev, s');
      } else {
        ReadKeepsQueue(s, ev, s');
        ReadKeepsReader(s, ev, s');
      }
    }
  }

  // --------------------------------------------------------------- main results

  /** Conservation, over every interleaving: each chunk read from the radio was
      taken by the reader, is queued or was counted as dropped; the taken and the
      queued ones are the undropped ones in arrival order; the queue is bounded. */
  lemma Conservation<X>(trace: seq<State<X>>, evs: seq<Event<X>>, s: State<X>)
    requires IsRun(trace, evs) && s == trace[|evs|]
    ensures |s.received| == |s.dequeued| + |s.queue| + s.dropped
    ensures |s.kept| == |s.received| && s.dequeued + s.queue == Kept(s.received, s.kept)
    ensures |s.queue| <= SLACK_DEPTH
  {
    RunInv(trace, evs, |evs|);
  }

  /** Between two Tunes the results of the successful Captures followed by the
      leftover are exactly the samples taken from the queue: a cancelled Capture
      loses none. A result has the length asked for unless the stream ended, and
      then nothing is left in the queue. */
  lemma CapturesLoseNothing<X>(trace: seq<State<X>>, evs: seq<Event<X>>, s: State<X>)
    requires IsRun(trace, evs) && s == trace[|evs|]
    ensures s.since <= |s.dequeued| && Outputs(s.results) + s.pending == Flatten(s.dequeued[s.since..])
    ensures forall k | 0 <= k < |s.results| ::
              if s.results[k].ended then |s.results[k].out| < s.results[k].n else |s.results[k].out| == s.results[k].n
    ensures (exists k | 0 <= k < |s.results| :: s.results[k].ended) ==> s.closed && s.queue == []
  {
    RunInv(trace, evs, |evs|);
  }

  /** Call j asked for n samples and is the last Capture called before step k. */
  ghost predicate LastAsked<X>(evs: seq<Event<X>>, j: nat, k: nat, n: nat) {
    j < k <= |evs| && evs[j] == CaptureCalled(n) && forall i | j < i < k :: !evs[i].CaptureCalled?
  }

  lemma {:induction false} AskedByCall<X>(trace: seq<State<X>>, evs: seq<Event<X>>, k: nat) returns (j: nat)
    requires IsRun(trace, evs) && k <= |evs| && trace[k].reader.Capturing?
    ensures LastAsked(evs, j, k, trace[k].reader.n)
  {
    var s, ev := trace[k - 1], evs[k - 1];
    assert Step(s, ev) == Some(trace[k]);
    if ev.CaptureCalled? {
      j := k - 1;
    } else {
      j := AskedByCall(trace, evs, k - 1);
    }
  }

  /** A successful Capture answers the last call: its result is for the number of samples
      that call asked for, and it is exactly the oldest samples not yet handed out. */
  lemma ResultAnswersCall<X>(trace: seq<State<X>>, evs: seq<Event<X>>, k: nat) returns (j: nat)
    requires IsRun(trace, evs) && k < |evs| && (evs[k].CaptureDone? || evs[k].StreamEnded?)
    ensures j < k && evs[j].CaptureCalled?
    ensures var s, s' := trace[k], trace[k + 1];
            && LastAsked(evs, j, k, evs[j].n)
            && |s'.results| == |s.results| + 1 && s'.results[..|s.results|] == s.results
            && s'.results[|s.results|].n == evs[j].n && s'.results[|s.results|].out + s'.pending == s.pending
  {
    assert Step(trace[k], evs[k]) == Some(trace[k + 1]);
    j := AskedByCall(trace, evs, k);
  }

  /** A retune throws away what was taken or queued before it was over. */
  lemma TuneStartsAfresh<X>(trace: seq<State<X>>, evs: seq<Event<X>>, k: nat)
    requires IsRun(trace, evs) && k < |evs| && evs[k].Settled?
    ensures var s := trace[k + 1]; s.reader.Idle? && s.pending == [] && s.results == [] && s.since == |s.dequeued|
  {
    RunInv(trace, evs, k);
    assert Step(trace[k], evs[k]) == Some(trace[k + 1]);
  }

  /** The forwarder never blocks: while it runs it can take the next chunk in any
      state, whatever the reader is doing, and it never touches the reader's side. */
  lemma ForwarderNeverBlocks<X>(s: State<X>, chunk: seq<X>)
    requires !s.closed
    ensures Step(s, ChunkArrived(chunk)).Some?
    ensures var s' := Step(s, ChunkArrived(chunk)).value;
            s'.reader == s.reader && s'.pending == s.pending && s'.results == s.results && s'.dequeued == s.dequeued
  {
  }

  /** When each step can be taken: Capture takes chunks until it has enough, Tune discards
      them, and neither runs while the other does. */
  lemma StepsExactly<X>(s: State<X>, chunk: seq<X>, n: nat)
    ensures var short := s.reader.Capturing? && |s.pending| < s.reader.n;
            && (Step(s, ChunkArrived(chunk)).Some? <==> !s.closed) && (Step(s, ForwarderStops).Some? <==> !s.closed)
            && (Step(s, CaptureCalled(n)).Some? <==> s.reader.Idle?)
            && (Step(s, TuneCalled).Some? <==> s.reader.Idle?) && (Step(s, TuneFailed).Some? <==> s.reader.Idle?)
            && (Step(s, TakeChunk).Some? <==> short && s.queue != [])
            && (Step(s, CaptureCancelled).Some? <==> short)
            && (Step(s, StreamEnded).Some? <==> short && s.closed && s.queue == [])
            && (Step(s, CaptureDone).Some? <==> s.reader.Capturing? && !short)
            && (Step(s, DiscardChunk).Some? <==> s.reader.Tuning? && s.queue != [])
            && (Step(s, Settled).Some? <==> s.reader.Tuning?)
  {
  }

  /** Capture waits only for a live stream that has nothing queued. */
  lemma CaptureWaitsOnlyForInput<X>(s: State<X>)
    requires s.reader.Capturing?
    ensures || Step(s, TakeChunk).Some? || Step(s, CaptureDone).Some? || Step(s, StreamEnded).Some?
            || (!s.closed && s.queue == [])
  {
  }

  ghost predicate NeverTuned<X>(evs: seq<Event<X>>) {
    forall k | 0 <= k < |evs| :: evs[k] != TuneCalled
  }

  lemma {:induction false} SinceStart<X>(trace: seq<State<X>>, evs: seq<Event<X>>, k: nat)
    requires IsRun(trace, evs) && NeverTuned(evs) && k <= |evs|
    ensures trace[k].since == 0 && !trace[k].reader.Tuning?
  {
    if k > 0 {
      SinceStart(trace, evs, k - 1);
      assert Step(trace[k - 1], evs[k - 1]) == Some(trace[k]);
      assert evs[k - 1] != TuneCalled;
    }
  }

  lemma {:induction false} KeptShorter<X>(received: seq<seq<X>>, kept: seq<bool>)
    requires |received| == |kept|
    ensures |Kept(received, kept)| <= |received|
    ensures |Kept(received, kept)| == |received| ==> Kept(received, kept) == received
  {
    if received != [] {
      var n := |received| - 1;
      KeptShorter(received[..n], kept[..n]);
      assert received == received[..n] + [received[n]];
    }
  }

  /** End to end: in a run without a retune and without drops, once a Capture
      has reported the end of the stream the results are the whole stream. */
  lemma WholeStreamDelivered<X>(trace: seq<State<X>>, evs: seq<Event<X>>, s: State<X>)
    requires IsRun(trace, evs) && s == trace[|evs|] && NeverTuned(evs)
    requires s.dropped == 0 && s.results != [] && s.results[|s.results| - 1].ended
    ensures Outputs(s.results) == Flatten(s.received)
  {
    RunInv(trace, evs, |evs|);
    SinceStart(trace, evs, |evs|);
    KeptShorter(s.received, s.kept);
    assert s.dequeued[0..] == s.dequeued == s.dequeued + s.queue;
  }

  /** Drops happen only behind real time: a run in which every chunk finds fewer
      than SLACK_DEPTH chunks queued drops nothing. */
  lemma {:induction false} NoDropsWhileKeepingUp<X>(trace: seq<State<X>>, evs: seq<Event<X>>, k: nat)
    requires IsRun(trace, evs) && k <= |evs|
    requires forall j | 0 <= j < k :: evs[j].ChunkArrived? ==> |trace[j].queue| < SLACK_DEPTH
    ensures trace[k].dropped == 0
  {
    if k > 0 {
      NoDropsWhileKeepingUp(trace, evs, k - 1);
      assert Step(trace[k - 1], evs[k - 1]) == Some(trace[k]);
      assert evs[k - 1].ChunkArrived? ==> |trace[k - 1].queue| < SLACK_DEPTH;
    }
  }
}
