/** The multi-output capture pipeline, cmd/gophertrunk/capture.go.

    captureStreamSinks runs two goroutines. The drain loop reads input chunks,
    pushes each one through every output's stateful down-converter and puts the
    result on a bounded channel; the writer goroutine takes chunks off that
    channel and hands them to the sinks, which may fail. The context, the safety
    timer, the end of the stream and a reported write error race the drain.

    Here the two goroutines are one transition function over a shared state. An
    event is one atomic step of either goroutine, or of the environment, and a
    run is any sequence of enabled events, so a statement about every run is a
    statement about every interleaving, chunking and set of down-converters. */
module Capture {
  import opened Wrappers

  /** captureWriterDepth. */
  const WRITER_DEPTH := 256

  /** One *ccdecoder.Downconverter: any state transformer at all. */
  datatype Downconverter<!S, !X> = Downconverter(init: S, process: (S, seq<X>) -> (S, seq<X>))

  /** `target` is the input sample count at which the drain loop stops; an output
      whose down-converter is None records the input chunk unchanged. */
  datatype Config<!S, !X> = Config(ddcs: seq<Option<Downconverter<S, X>>>, target: int)

  datatype CaptureChunk<X> = CaptureChunk(idx: nat, buf: seq<X>)

  datatype Error<E> = Cancelled | StreamEnded | WriteFailed(cause: E)

  /** Where the drain goroutine is. The writer channel is closed on the way into Joining. */
  datatype DrainPhase<X> = Waiting | Carving | Sending(buf: seq<X>) | Joining | Returned

  datatype WriterPhase<X> = Ready | Writing(chunk: CaptureChunk<X>) | Discarding | Exited

  datatype SinkCall<X> = SinkCall(chunk: CaptureChunk<X>, ok: bool)

  /** `next` is the range variable over the outputs: outputs below it are done with
      the newest input chunk. `probed` is what the carrier probe was fed and
      `calls` the log of sink calls, oldest first. */
  datatype State<S, X, E> = State(
    phase: DrainPhase<X>,
    inputs: seq<seq<X>>,
    inputRead: int,
    next: nat,
    ddcStates: seq<Option<S>>,
    written: seq<nat>,
    probed: seq<X>,
    err: Option<Error<E>>,
    queue: seq<CaptureChunk<X>>,
    errCh: Option<E>,
    writer: WriterPhase<X>,
    calls: seq<SinkCall<X>>)

  datatype Event<X, E> =
    | CtxDone
    | TimerFired
    | WriteErrorSeen
    | SourceClosed
    | ChunkArrived(chunk: seq<X>)
    | TargetReached
    | Carve
    | Enqueue
    | JoinWriter
    | Take
    | SinkOk
    | SinkFailed(error: E)
    | DiscardOne
    | WriterExit

  // ---------------------------------------------------------------- transitions

  /** One call of a down-converter; None is one that has not been called yet. */
  function Apply<S, X>(ddc: Option<Downconverter<S, X>>, st: Option<S>, chunk: seq<X>): (r: (Option<S>, seq<X>)) {
    match ddc
    case None => (None, chunk)
    case Some(d) =>
      var (after, out) := d.process(if st.Some? then st.value else d.init, chunk);
      (Some(after), out)
  }

  ghost predicate Initial<S, X, E>(c: Config<S, X>, s: State<S, X, E>) {
    && s.phase == Waiting && s.inputs == [] && s.inputRead == 0 && s.next == |c.ddcs|
    && s.ddcStates == seq(|c.ddcs|, i => None)
    && s.written == seq(|c.ddcs|, i => 0)
    && s.probed == [] && s.err == None && s.queue == [] && s.errCh == None
    && s.writer == Ready && s.calls == []
  }

  /** The inner loop moves to the next output, or back to the outer select. */
  function Advance<S, X, E>(c: Config<S, X>, s: State<S, X, E>): State<S, X, E> {
    s.(next := s.next + 1, phase := if s.next + 1 >= |c.ddcs| then Waiting else Carving)
  }

  predicate AtOuterSelect<S, X, E>(c: Config<S, X>, s: State<S, X, E>) {
    s.phase.Waiting? && s.inputRead < c.target
  }

  predicate Closed<S, X, E>(s: State<S, X, E>) {
    s.phase.Joining? || s.phase.Returned?
  }

  function StopWith<S, X, E>(s: State<S, X, E>, e: Error<E>): State<S, X, E> {
    s.(phase := Joining, err := Some(e))
  }

  /** The drain goroutine's steps; None when the step is not enabled. */
  function DrainStep<S, X, E>(c: Config<S, X>, s: State<S, X, E>, ev: Event<X, E>): Option<State<S, X, E>>
    requires |s.ddcStates| == |s.written| == |c.ddcs|
  {
    match ev
    case CtxDone =>
      if AtOuterSelect(c, s) || s.phase.Sending? then Some(StopWith(s, Cancelled)) else None
    case TimerFired =>
      if AtOuterSelect(c, s) then Some(s.(phase := Joining)) else None
    case WriteErrorSeen =>
      if (AtOuterSelect(c, s) || s.phase.Sending?) && s.errCh.Some?
      then Some(StopWith(s, WriteFailed(s.errCh.value)).(errCh := None)) else None
    case SourceClosed =>
      if AtOuterSelect(c, s) then Some(StopWith(s, StreamEnded)) else None
    case ChunkArrived(chunk) =>
      if AtOuterSelect(c, s)
      then Some(s.(inputs := s.inputs + [chunk], inputRead := s.inputRead + |chunk|, next := 0, phase := Carving))
      else None
    case TargetReached =>
      if s.phase.Waiting? && s.inputRead >= c.target then Some(s.(phase := Joining)) else None
    case Carve =>
      if s.phase.Carving? && s.next < |c.ddcs| && s.inputs != [] then
        var (st, out) := Apply(c.ddcs[s.next], s.ddcStates[s.next], s.inputs[|s.inputs| - 1]);
        var s' := s.(ddcStates := s.ddcStates[s.next := st]);
        if out == [] then Some(Advance(c, s'))
        else Some(s'.(phase := Sending(out), probed := if s.next == 0 then s.probed + out else s.probed))
      else None
    case Enqueue =>
      if s.phase.Sending? && s.next < |c.ddcs| && |s.queue| < WRITER_DEPTH then
        Some(Advance(c, s.(queue := s.queue + [CaptureChunk(s.next, s.phase.buf)],
                           written := s.written[s.next := s.written[s.next] + |s.phase.buf|])))
      else None
    case JoinWriter =>
      if s.phase.Joining? && s.writer.Exited?
      then Some(s.(phase := Returned,
                   err := if s.err.None? && s.errCh.Some? then Some(WriteFailed(s.errCh.value)) else s.err,
                   errCh := if s.err.None? then None else s.errCh))
      else None
    case _ => None
  }

  /** The writer goroutine's steps. The report to the error channel is non-blocking. */
  function WriterStep<S, X, E>(s: State<S, X, E>, ev: Event<X, E>): Option<State<S, X, E>> {
    match ev
    case Take =>
      if s.writer.Ready? && s.queue != []
      then Some(s.(writer := Writing(s.queue[0]), queue := s.queue[1..])) else None
    case SinkOk =>
      if s.writer.Writing?
      then Some(s.(writer := Ready, calls := s.calls + [SinkCall(s.writer.chunk, true)])) else None
    case SinkFailed(e) =>
      if s.writer.Writing?
      then Some(s.(writer := Discarding, calls := s.calls + [SinkCall(s.writer.chunk, false)],
                   errCh := if s.errCh.None? then Some(e) else s.errCh)) else None
    case DiscardOne =>
      if s.writer.Discarding? && s.queue != [] then Some(s.(queue := s.queue[1..])) else None
    case WriterExit =>
      if (s.writer.Ready? || s.writer.Discarding?) && s.queue == [] && Closed(s)
      then Some(s.(writer := Exited)) else None
    case _ => None
  }

  predicate IsWriterEvent<X, E>(ev: Event<X, E>) {
    ev.Take? || ev.SinkOk? || ev.SinkFailed? || ev.DiscardOne? || ev.WriterExit?
  }

  function Step<S, X, E>(c: Config<S, X>, s: State<S, X, E>, ev: Event<X, E>): Option<State<S, X, E>>
    requires |s.ddcStates| == |s.written| == |c.ddcs|
  {
    if IsWriterEvent(ev) then WriterStep(s, ev) else DrainStep(c, s, ev)
  }

  /** `trace` is a run: it starts in an initial state and every step is enabled. */
  ghost predicate IsRun<S, X, E>(c: Config<S, X>, trace: seq<State<S, X, E>>, evs: seq<Event<X, E>>) {
    && |trace| == |evs| + 1
    && (forall k | 0 <= k < |trace| :: |trace[k].ddcStates| == |trace[k].written| == |c.ddcs|)
    && Initial(c, trace[0])
    && forall k {:trigger evs[k]} | 0 <= k < |evs| :: Step(c, trace[k], evs[k]) == Some(trace[k + 1])
  }

  // -------------------------------------------------------------- specification

  /** The down-converter's state after the given input chunks. */
  function StateAfter<S, X>(ddc: Option<Downconverter<S, X>>, chunks: seq<seq<X>>): Option<S> {
    if chunks == [] then None
    else Apply(ddc, StateAfter(ddc, chunks[..|chunks| - 1]), chunks[|chunks| - 1]).0
  }

  /** Everything the down-converter produces from the given input chunks, run alone. */
  function Carved<S, X>(ddc: Option<Downconverter<S, X>>, chunks: seq<seq<X>>): seq<X> {
    if chunks == [] then []
    else
      var before := chunks[..|chunks| - 1];
      Carved(ddc, before) + Apply(ddc, StateAfter(ddc, before), chunks[|chunks| - 1]).1
  }

  /** The samples of the chunks addressed to output i, in order. */
  function StreamOf<X>(chunks: seq<CaptureChunk<X>>, i: nat): seq<X> {
    if chunks == [] then []
    else StreamOf(chunks[..|chunks| - 1], i) +
         if chunks[|chunks| - 1].idx == i then chunks[|chunks| - 1].buf else []
  }

  /** The chunks the sinks accepted, in call order. */
  function Accepted<X>(calls: seq<SinkCall<X>>): seq<CaptureChunk<X>> {
    if calls == [] then []
    else Accepted(calls[..|calls| - 1]) +
         if calls[|calls| - 1].ok then [calls[|calls| - 1].chunk] else []
  }

  function Hand<X>(w: WriterPhase<X>): seq<CaptureChunk<X>> {
    if w.Writing? then [w.chunk] else []
  }

  /** Accepted by a sink, in the writer's hand or on the channel. */
  function Committed<S, X, E>(s: State<S, X, E>): seq<CaptureChunk<X>> {
    Accepted(s.calls) + Hand(s.writer) + s.queue
  }

  /** p_i: how many input chunks output i is completely done with. */
  function DoneWith<S, X, E>(s: State<S, X, E>, i: nat): (p: nat)
    ensures p <= |s.inputs|
  {
    if i < s.next || s.inputs == [] then |s.inputs| else |s.inputs| - 1
  }

  predicate Failed<S, X, E>(s: State<S, X, E>) {
    s.calls != [] && !s.calls[|s.calls| - 1].ok
  }

  // ------------------------------------------------------------------ invariant

  ghost predicate Shape<S, X, E>(c: Config<S, X>, s: State<S, X, E>) {
    && |c.ddcs| >= 1
    && |s.ddcStates| == |s.written| == |c.ddcs|
    && s.next <= |c.ddcs|
    && |s.queue| <= WRITER_DEPTH
    && (s.inputs == [] ==> s.next == |c.ddcs|)
    && (s.phase.Waiting? ==> s.next == |c.ddcs|)
    && (s.phase.Carving? || s.phase.Sending? ==> s.next < |c.ddcs| && s.inputs != [])
    && (s.writer.Exited? ==> Closed(s) && s.queue == [])
    && (s.phase.Returned? ==> s.writer.Exited?)
    && (s.next < |c.ddcs| && Closed(s) ==> s.err.Some?)
    && (!Closed(s) ==> s.err.None?)
  }

  /** The sinks stop for good at the first failure, and the failure is never lost. */
  ghost predicate FailureInv<S, X, E>(s: State<S, X, E>) {
    && (forall k | 0 <= k < |s.calls| - 1 :: s.calls[k].ok)
    && (Failed(s) ==> s.writer.Discarding? || s.writer.Exited?)
    && (s.writer.Discarding? ==> Failed(s))
    && (Failed(s) ==> s.errCh.Some? || s.err.Some?)
    && (s.phase.Returned? && Failed(s) ==> s.err.Some?)
    && (s.errCh.Some? ==> Failed(s))
    && (s.err.Some? && s.err.value.WriteFailed? ==> Failed(s))
  }

  /** The newest output of the down-converter that is being sent. */
  ghost predicate DdcInv<S, X, E>(c: Config<S, X>, s: State<S, X, E>)
    requires Shape(c, s)
  {
    !Closed(s) ==>
      && (forall i | 0 <= i < |c.ddcs| :: s.ddcStates[i] ==
            StateAfter(c.ddcs[i], s.inputs[..if i == s.next && s.phase.Sending? then |s.inputs| else DoneWith(s, i)]))
      && (s.phase.Sending? ==>
            && s.phase.buf != []
            && s.phase.buf == Apply(c.ddcs[s.next], StateAfter(c.ddcs[s.next], s.inputs[..|s.inputs| - 1]),
                                    s.inputs[|s.inputs| - 1]).1)
  }

  /** Output i: counted, committed and accepted samples against the reference. */
  ghost predicate DeliveryInv<S, X, E>(c: Config<S, X>, s: State<S, X, E>, i: nat)
    requires Shape(c, s) && i < |c.ddcs|
  {
    var reference := Carved(c.ddcs[i], s.inputs[..DoneWith(s, i)]);
    && s.written[i] == |reference|
    && (!Failed(s) ==> StreamOf(Committed(s), i) == reference)
    && StreamOf(Accepted(s.calls), i) <= reference
  }

  ghost predicate ProbeInv<S, X, E>(c: Config<S, X>, s: State<S, X, E>)
    requires Shape(c, s)
  {
    s.probed == Carved(c.ddcs[0], if s.phase.Carving? && s.next == 0 then s.inputs[..|s.inputs| - 1] else s.inputs)
  }

  ghost predicate Inv<S, X, E>(c: Config<S, X>, s: State<S, X, E>) {
    && Shape(c, s) && FailureInv(s) && DdcInv(c, s) && ProbeInv(c, s)
    && forall i | 0 <= i < |c.ddcs| :: DeliveryInv(c, s, i)
  }

  // ---------------------------------------------------------- sequence helpers

  lemma {:induction false} StreamOfConcat<X>(a: seq<CaptureChunk<X>>, b: seq<CaptureChunk<X>>, i: nat)
    ensures StreamOf(a + b, i) == StreamOf(a, i) + StreamOf(b, i)
  {
    if b == [] {
      assert a + b == a;
    } else {
      var b' := b[..|b| - 1];
      assert (a + b)[..|a + b| - 1] == a + b';
      StreamOfConcat(a, b', i);
    }
  }

  lemma StreamOfAppend<X>(a: seq<CaptureChunk<X>>, ch: CaptureChunk<X>, i: nat)
    ensures StreamOf(a + [ch], i) == StreamOf(a, i) + if ch.idx == i then ch.buf else []
  {
    assert (a + [ch])[..|a|] == a;
  }

  lemma AcceptedAppend<X>(calls: seq<SinkCall<X>>, call: SinkCall<X>)
    ensures Accepted(calls + [call]) == Accepted(calls) + if call.ok then [call.chunk] else []
  {
    assert (calls + [call])[..|calls|] == calls;
  }

  lemma StreamOfPrefix<X>(s: seq<CaptureChunk<X>>, rest: seq<CaptureChunk<X>>, i: nat)
    ensures StreamOf(s, i) <= StreamOf(s + rest, i)
  {
    StreamOfConcat(s, rest, i);
  }

  /** Carved over one more chunk, stated on the prefixes the invariant uses. */
  lemma CarvedStep<S, X>(ddc: Option<Downconverter<S, X>>, inputs: seq<seq<X>>)
    requires inputs != []
    ensures var before := inputs[..|inputs| - 1];
            && Carved(ddc, inputs) == Carved(ddc, before) + Apply(ddc, StateAfter(ddc, before), inputs[|inputs| - 1]).1
            && StateAfter(ddc, inputs) == Apply(ddc, StateAfter(ddc, before), inputs[|inputs| - 1]).0
            && inputs[..|inputs|] == inputs
  {
    assert inputs[..|inputs|] == inputs;
  }

  // --------------------------------------------------- every step keeps it

  lemma InitialInv<S, X, E>(c: Config<S, X>, s: State<S, X, E>)
    requires |c.ddcs| >= 1 && Initial(c, s)
    ensures Inv(c, s)
  {
    assert s.inputs[..0] == [];
  }

  lemma WriterKeepsInv<S, X, E>(c: Config<S, X>, s: State<S, X, E>, ev: Event<X, E>, s': State<S, X, E>)
    requires Inv(c, s) && WriterStep(s, ev) == Some(s')
    ensures Inv(c, s')
  {
    WriterKeepsShape(c, s, ev, s');
    WriterKeepsFailure(s, ev, s');
    WriterKeepsDdcs(c, s, ev, s');
    forall i | 0 <= i < |c.ddcs|
      ensures DeliveryInv(c, s', i)
    {
      assert DeliveryInv(c, s, i);
      WriterKeepsDelivery(c, s, ev, s', i);
    }
  }

  lemma WriterKeepsShape<S, X, E>(c: Config<S, X>, s: State<S, X, E>, ev: Event<X, E>, s': State<S, X, E>)
    requires Shape(c, s) && WriterStep(s, ev) == Some(s')
    ensures Shape(c, s')
  {
  }

  lemma WriterKeepsFailure<S, X, E>(s: State<S, X, E>, ev: Event<X, E>, s': State<S, X, E>)
    requires FailureInv(s) && WriterStep(s, ev) == Some(s')
    requires s.phase.Returned? ==> s.writer.Exited?
    ensures FailureInv(s')
  {
    if ev.SinkOk? || ev.SinkFailed? {
      assert !Failed(s);
      assert forall k | 0 <= k < |s.calls| :: s'.calls[k] == s.calls[k] && s.calls[k].ok;
    } else {
      assert s'.calls == s.calls;
    }
  }

  lemma WriterKeepsDdcs<S, X, E>(c: Config<S, X>, s: State<S, X, E>, ev: Event<X, E>, s': State<S, X, E>)
    requires Shape(c, s) && DdcInv(c, s) && ProbeInv(c, s) && WriterStep(s, ev) == Some(s') && Shape(c, s')
    ensures DdcInv(c, s') && ProbeInv(c, s')
  {
    assert s' == s.(queue := s'.queue, writer := s'.writer, calls := s'.calls, errCh := s'.errCh);
  }

  lemma WriterKeepsDelivery<S, X, E>(c: Config<S, X>, s: State<S, X, E>, ev: Event<X, E>, s': State<S, X, E>, i: nat)
    requires Shape(c, s) && FailureInv(s) && WriterStep(s, ev) == Some(s') && Shape(c, s')
    requires i < |c.ddcs| && DeliveryInv(c, s, i)
    ensures DeliveryInv(c, s', i)
  {
    WriterKeepsCommitted(s, ev, s');
    WriterKeepsAccepted(s, ev, s', i);
    WriterTouches(s, ev, s');
    DeliveryCarries(c, s, s', i);
  }

  lemma WriterTouches<S, X, E>(s: State<S, X, E>, ev: Event<X, E>, s': State<S, X, E>)
    requires WriterStep(s, ev) == Some(s')
    ensures s'.inputs == s.inputs && s'.next == s.next && s'.written == s.written
  {
  }

  lemma DeliveryCarries<S, X, E>(c: Config<S, X>, s: State<S, X, E>, s': State<S, X, E>, i: nat)
    requires Shape(c, s) && Shape(c, s') && i < |c.ddcs| && DeliveryInv(c, s, i)
    requires s'.inputs == s.inputs && s'.next == s.next && s'.written == s.written
    requires !Failed(s') ==> Committed(s') == Committed(s) && !Failed(s)
    requires || StreamOf(Accepted(s'.calls), i) == StreamOf(Accepted(s.calls), i)
             || (!Failed(s) && StreamOf(Accepted(s'.calls), i) <= StreamOf(Committed(s), i))
    ensures DeliveryInv(c, s', i)
  {
  }

  lemma WriterKeepsAccepted<S, X, E>(s: State<S, X, E>, ev: Event<X, E>, s': State<S, X, E>, i: nat)
    requires FailureInv(s) && WriterStep(s, ev) == Some(s')
    ensures StreamOf(Accepted(s'.calls), i) ==
              if ev.SinkOk? then StreamOf(Accepted(s.calls) + [s.writer.chunk], i) else StreamOf(Accepted(s.calls), i)
    ensures ev.SinkOk? ==> !Failed(s) && StreamOf(Accepted(s.calls) + [s.writer.chunk], i) <= StreamOf(Committed(s), i)
  {
    if ev.SinkOk? {
      AcceptedAppend(s.calls, SinkCall(s.writer.chunk, true));
      assert Committed(s) == (Accepted(s.calls) + [s.writer.chunk]) + s.queue;
      StreamOfPrefix(Accepted(s.calls) + [s.writer.chunk], s.queue, i);
    } else if ev.SinkFailed? {
      AcceptedAppend(s.calls, SinkCall(s.writer.chunk, false));
      assert Accepted(s'.calls) == Accepted(s.calls);
    }
  }

  lemma WriterKeepsCommitted<S, X, E>(s: State<S, X, E>, ev: Event<X, E>, s': State<S, X, E>)
    requires FailureInv(s) && WriterStep(s, ev) == Some(s')
    ensures !Failed(s') ==> Committed(s') == Committed(s) && !Failed(s)
  {
    if ev.SinkOk? {
      AcceptedAppend(s.calls, SinkCall(s.writer.chunk, true));
    } else if ev.Take? {
      assert s.queue == [s.queue[0]] + s.queue[1..];
    }
  }

  lemma StopKeepsInv<S, X, E>(c: Config<S, X>, s: State<S, X, E>, ev: Event<X, E>, s': State<S, X, E>)
    requires Inv(c, s) && DrainStep(c, s, ev) == Some(s')
    requires !ev.ChunkArrived? && !ev.Carve? && !ev.Enqueue?
    ensures Inv(c, s')
  {
    StopKeepsShape(c, s, ev, s');
    forall i | 0 <= i < |c.ddcs|
      ensures DeliveryInv(c, s', i)
    {
      assert DeliveryInv(c, s, i);
    }
  }

  lemma StopKeepsShape<S, X, E>(c: Config<S, X>, s: State<S, X, E>, ev: Event<X, E>, s': State<S, X, E>)
    requires Shape(c, s) && FailureInv(s) && ProbeInv(c, s) && DrainStep(c, s, ev) == Some(s')
    requires !ev.ChunkArrived? && !ev.Carve? && !ev.Enqueue?
    ensures Shape(c, s') && FailureInv(s') && DdcInv(c, s') && ProbeInv(c, s')
    ensures s' == s.(phase := s'.phase, err := s'.err, errCh := s'.errCh)
  {
  }

  lemma ArrivalKeepsInv<S, X, E>(c: Config<S, X>, s: State<S, X, E>, chunk: seq<X>, s': State<S, X, E>)
    requires Inv(c, s) && DrainStep(c, s, ChunkArrived(chunk)) == Some(s')
    ensures Inv(c, s')
  {
    assert s'.inputs[..|s.inputs|] == s.inputs == s.inputs[..|s.inputs|];
    forall i | 0 <= i < |c.ddcs|
      ensures DeliveryInv(c, s', i)
      ensures s'.ddcStates[i] == StateAfter(c.ddcs[i], s'.inputs[..DoneWith(s', i)])
    {
      assert DeliveryInv(c, s, i);
      assert DoneWith(s', i) == |s.inputs| == DoneWith(s, i);
    }
  }

  lemma CarveKeepsInv<S, X, E>(c: Config<S, X>, s: State<S, X, E>, s': State<S, X, E>)
    requires Inv(c, s) && DrainStep(c, s, Carve) == Some(s')
    ensures Inv(c, s')
  {
    CarveKeepsShape(c, s, s');
    CarveKeepsDdcs(c, s, s');
    CarveKeepsProbe(c, s, s');
    forall i | 0 <= i < |c.ddcs|
      ensures DeliveryInv(c, s', i)
    {
      CarveKeepsDelivery(c, s, s', i);
    }
  }

  lemma CarveKeepsDelivery<S, X, E>(c: Config<S, X>, s: State<S, X, E>, s': State<S, X, E>, i: nat)
    requires Shape(c, s) && DdcInv(c, s) && Shape(c, s') && i < |c.ddcs| && DeliveryInv(c, s, i)
    requires DrainStep(c, s, Carve) == Some(s')
    ensures DeliveryInv(c, s', i)
  {
    CarveKeepsReference(c, s, s', i);
    assert s'.calls == s.calls && s'.writer == s.writer && s'.queue == s.queue && s'.written == s.written;
  }

  /** An output that produces nothing is done at once and has nothing to deliver. */
  lemma CarveKeepsReference<S, X, E>(c: Config<S, X>, s: State<S, X, E>, s': State<S, X, E>, i: nat)
    requires Shape(c, s) && DdcInv(c, s) && DrainStep(c, s, Carve) == Some(s') && i < |c.ddcs|
    ensures Carved(c.ddcs[i], s'.inputs[..DoneWith(s', i)]) == Carved(c.ddcs[i], s.inputs[..DoneWith(s, i)])
  {
    if i == s.next {
      assert s.ddcStates[i] == StateAfter(c.ddcs[i], s.inputs[..|s.inputs| - 1]);
      CarvedStep(c.ddcs[i], s.inputs);
    } else {
      assert DoneWith(s', i) == DoneWith(s, i);
    }
  }

  /** What a Carve step does, without the rest of the transition function. */
  ghost predicate Carves<S, X, E>(c: Config<S, X>, s: State<S, X, E>, s': State<S, X, E>)
    requires Shape(c, s) && s.next < |c.ddcs| && s.inputs != []
  {
    var carved := Apply(c.ddcs[s.next], s.ddcStates[s.next], s.inputs[|s.inputs| - 1]);
    && s'.inputs == s.inputs && !Closed(s') && !s.phase.Sending? && !Closed(s)
    && s'.ddcStates == s.ddcStates[s.next := carved.0]
    && s'.probed == (if s.next == 0 then s.probed + carved.1 else s.probed)
    && (s.phase.Carving? && (s'.phase.Carving? ==> s'.next > 0))
    && if carved.1 == [] then s'.next == s.next + 1 && !s'.phase.Sending?
       else s'.next == s.next && s'.phase == Sending(carved.1)
  }

  lemma CarveKeepsShape<S, X, E>(c: Config<S, X>, s: State<S, X, E>, s': State<S, X, E>)
    requires Shape(c, s) && FailureInv(s) && DrainStep(c, s, Carve) == Some(s')
    ensures Shape(c, s') && FailureInv(s') && Carves(c, s, s')
  {
  }

  lemma CarveKeepsDdcs<S, X, E>(c: Config<S, X>, s: State<S, X, E>, s': State<S, X, E>)
    requires Shape(c, s) && DdcInv(c, s)
    requires Shape(c, s') && s.next < |c.ddcs| && s.inputs != [] && Carves(c, s, s')
    ensures DdcInv(c, s')
  {
    CarvedStep(c.ddcs[s.next], s.inputs);
    forall i | 0 <= i < |c.ddcs|
      ensures s'.ddcStates[i] == StateAfter(c.ddcs[i], s'.inputs[..if i <= s.next then |s.inputs| else |s.inputs| - 1])
    {
      assert s.ddcStates[i] == StateAfter(c.ddcs[i], s.inputs[..DoneWith(s, i)]);
    }
  }

  lemma CarveKeepsProbe<S, X, E>(c: Config<S, X>, s: State<S, X, E>, s': State<S, X, E>)
    requires Shape(c, s) && DdcInv(c, s) && ProbeInv(c, s)
    requires Shape(c, s') && s.next < |c.ddcs| && s.inputs != [] && Carves(c, s, s')
    ensures ProbeInv(c, s')
  {
    if s.next == 0 {
      CarvedStep(c.ddcs[0], s.inputs);
      assert s.ddcStates[0] == StateAfter(c.ddcs[0], s.inputs[..|s.inputs| - 1]);
    }
  }

  lemma EnqueueKeepsInv<S, X, E>(c: Config<S, X>, s: State<S, X, E>, s': State<S, X, E>)
    requires Inv(c, s) && DrainStep(c, s, Enqueue) == Some(s')
    ensures Inv(c, s')
  {
    EnqueueKeepsDdcs(c, s, s');
    forall i | 0 <= i < |c.ddcs|
      ensures DeliveryInv(c, s', i)
    {
      assert DeliveryInv(c, s, i);
      EnqueueKeepsDelivery(c, s, s', i);
    }
  }

  lemma EnqueueKeepsDdcs<S, X, E>(c: Config<S, X>, s: State<S, X, E>, s': State<S, X, E>)
    requires Shape(c, s) && FailureInv(s) && DdcInv(c, s) && ProbeInv(c, s)
    requires DrainStep(c, s, Enqueue) == Some(s')
    ensures Shape(c, s') && FailureInv(s') && DdcInv(c, s') && ProbeInv(c, s')
  {
    forall i | 0 <= i < |c.ddcs|
      ensures s'.ddcStates[i] == StateAfter(c.ddcs[i], s'.inputs[..DoneWith(s', i)])
    {
      assert i != s.next ==> DoneWith(s', i) == DoneWith(s, i);
    }
  }

  lemma EnqueueTouches<S, X, E>(c: Config<S, X>, s: State<S, X, E>, s': State<S, X, E>)
    requires Shape(c, s) && DrainStep(c, s, Enqueue) == Some(s')
    ensures s.phase.Sending? && s.next < |c.ddcs| && !Closed(s)
    ensures s'.inputs == s.inputs && s'.calls == s.calls && s'.next == s.next + 1
    ensures s'.written == s.written[s.next := s.written[s.next] + |s.phase.buf|]
    ensures Committed(s') == Committed(s) + [CaptureChunk(s.next, s.phase.buf)]
  {
  }

  lemma EnqueueKeepsDelivery<S, X, E>(c: Config<S, X>, s: State<S, X, E>, s': State<S, X, E>, i: nat)
    requires Shape(c, s) && DdcInv(c, s) && Shape(c, s') && i < |c.ddcs| && DeliveryInv(c, s, i)
    requires DrainStep(c, s, Enqueue) == Some(s')
    ensures DeliveryInv(c, s', i)
  {
    EnqueueTouches(c, s, s');
    StreamOfAppend(Committed(s), CaptureChunk(s.next, s.phase.buf), i);
    if i == s.next {
      CarvedStep(c.ddcs[i], s.inputs);
    } else {
      assert DoneWith(s', i) == DoneWith(s, i);
    }
  }

  lemma StepKeepsInv<S, X, E>(c: Config<S, X>, s: State<S, X, E>, ev: Event<X, E>, s': State<S, X, E>)
    requires Inv(c, s) && Step(c, s, ev) == Some(s')
    ensures Inv(c, s')
  {
    if IsWriterEvent(ev) {
      WriterKeepsInv(c, s, ev, s');
    } else if ev.ChunkArrived? {
      ArrivalKeepsInv(c, s, ev.chunk, s');
    } else if ev.Carve? {
      CarveKeepsInv(c, s, s');
    } else if ev.Enqueue? {
      EnqueueKeepsInv(c, s, s');
    } else {
      StopKeepsInv(c, s, ev, s');
    }
  }

  lemma {:induction false} RunInv<S, X, E>(c: Config<S, X>, trace: seq<State<S, X, E>>, evs: seq<Event<X, E>>, k: nat)
    requires |c.ddcs| >= 1 && IsRun(c, trace, evs) && k < |trace|
    ensures Inv(c, trace[k])
  {
    if k == 0 {
      InitialInv(c, trace[0]);
    } else {
      RunInv(c, trace, evs, k - 1);
      StepKeepsInv(c, trace[k - 1], evs[k - 1], trace[k]);
    }
  }

  // ------------------------------------------------------------- main results

  ghost predicate Ends<S, X, E>(c: Config<S, X>, trace: seq<State<S, X, E>>, evs: seq<Event<X, E>>, s: State<S, X, E>) {
    IsRun(c, trace, evs) && trace[|evs|] == s
  }

  /** p_0 >= p_1 >= ... >= p_last >= p_0 - 1. */
  ghost predicate InStep(p: seq<nat>) {
    forall i, j | 0 <= i < j < |p| :: p[j] <= p[i] <= p[j] + 1
  }

  /** Sink i accepted exactly what its down-converter makes of the first p_i inputs. */
  ghost predicate DeliveredUpTo<S, X, E>(c: Config<S, X>, s: State<S, X, E>, p: seq<nat>) {
    && |p| == |c.ddcs| == |s.written|
    && (forall i | 0 <= i < |p| :: p[i] <= |s.inputs|)
    && (forall i | 0 <= i < |p| :: s.written[i] == |Carved(c.ddcs[i], s.inputs[..p[i]])|)
    && (forall i | 0 <= i < |p| :: StreamOf(Accepted(s.calls), i) == Carved(c.ddcs[i], s.inputs[..p[i]]))
  }

  /** The step leaves the loop in the middle of a chunk: while an output is being sent. */
  predicate BreaksMidChunk<S, X, E>(s: State<S, X, E>, s': State<S, X, E>) {
    s.phase.Sending? && Closed(s')
  }

  ghost predicate BrokeMidChunk<S, X, E>(trace: seq<State<S, X, E>>, k: nat)
    requires k < |trace|
  {
    exists j | 0 <= j < k :: BreaksMidChunk(trace[j], trace[j + 1])
  }

  /** The loop was left in mid-chunk exactly when outputs are left over at the end, and
      never by the end of the stream, the timer or the target. */
  lemma {:induction false} LeftOver<S, X, E>(c: Config<S, X>, trace: seq<State<S, X, E>>, evs: seq<Event<X, E>>, k: nat)
    requires |c.ddcs| >= 1 && IsRun(c, trace, evs) && k < |trace|
    ensures Closed(trace[k]) ==> (BrokeMidChunk(trace, k) <==> trace[k].next < |c.ddcs|)
    ensures !Closed(trace[k]) ==> !BrokeMidChunk(trace, k)
    ensures Closed(trace[k]) && (trace[k].err.None? || trace[k].err.value.StreamEnded?) ==> trace[k].next == |c.ddcs|
  {
    if k > 0 {
      LeftOver(c, trace, evs, k - 1);
      RunInv(c, trace, evs, k - 1);
      BrokeStep(trace, k);
      LeftOverStep(c, trace[k - 1], evs[k - 1], trace[k]);
    }
  }

  lemma BrokeStep<S, X, E>(trace: seq<State<S, X, E>>, k: nat)
    requires 0 < k < |trace|
    ensures BrokeMidChunk(trace, k) <==> BrokeMidChunk(trace, k - 1) || BreaksMidChunk(trace[k - 1], trace[k])
  {
  }

  lemma LeftOverStep<S, X, E>(c: Config<S, X>, s: State<S, X, E>, ev: Event<X, E>, s': State<S, X, E>)
    requires Shape(c, s) && Step(c, s, ev) == Some(s')
    ensures Closed(s) ==> Closed(s') && s'.next == s.next
    ensures Closed(s) && (s'.err.None? || s'.err.value.StreamEnded?) ==> s'.err == s.err
    ensures !Closed(s) && Closed(s') ==> (s.phase.Sending? <==> s'.next < |c.ddcs|)
    ensures !Closed(s) && Closed(s') && s.phase.Sending? ==> s'.err.Some? && !s'.err.value.StreamEnded?
  {
  }

  /** Delivery. With no sink failure every sink holds its own down-converter's output on a
      prefix of the input, the prefixes are at most one chunk apart and the counts returned
      are the sizes written. Unless the loop broke in mid-chunk, which the end of the stream
      and an error-free end never do, every output is complete: the outputs are
      sample-synchronous. */
  lemma Delivery<S, X, E>(c: Config<S, X>, trace: seq<State<S, X, E>>, evs: seq<Event<X, E>>, s: State<S, X, E>)
    requires |c.ddcs| >= 1 && Ends(c, trace, evs, s) && s.phase.Returned? && !Failed(s)
    ensures exists p: seq<nat> ::
              && DeliveredUpTo(c, s, p) && InStep(p)
              && (!BrokeMidChunk(trace, |evs|) ==> forall i | 0 <= i < |p| :: p[i] == |s.inputs|)
              && (BrokeMidChunk(trace, |evs|) ==> p[|p| - 1] < |s.inputs|)
    ensures s.err.None? || s.err.value.StreamEnded? ==> !BrokeMidChunk(trace, |evs|)
  {
    RunInv(c, trace, evs, |evs|);
    LeftOver(c, trace, evs, |evs|);
    DeliveredPrefixes(c, s, Prefixes(c, s));
  }

  /** p_0, ..., p_last. */
  function Prefixes<S, X, E>(c: Config<S, X>, s: State<S, X, E>): (p: seq<nat>)
    ensures |p| == |c.ddcs| && forall i | 0 <= i < |p| :: p[i] == DoneWith(s, i)
  {
    seq(|c.ddcs|, i requires 0 <= i < |c.ddcs| => DoneWith(s, i))
  }

  lemma DeliveredPrefixes<S, X, E>(c: Config<S, X>, s: State<S, X, E>, p: seq<nat>)
    requires Inv(c, s) && s.phase.Returned? && !Failed(s) && p == Prefixes(c, s)
    ensures DeliveredUpTo(c, s, p) && InStep(p)
  {
    assert Hand(s.writer) == [] && s.queue == [];
    assert Committed(s) == Accepted(s.calls);
    forall i | 0 <= i < |p|
      ensures s.written[i] == |Carved(c.ddcs[i], s.inputs[..p[i]])|
      ensures StreamOf(Accepted(s.calls), i) == Carved(c.ddcs[i], s.inputs[..p[i]])
    {
      assert DeliveryInv(c, s, i);
    }
  }

  /** At any moment, and whatever failed, what a sink has accepted is a prefix of
      what its down-converter makes of the chunks received so far. */
  lemma NeverCorrupted<S, X, E>(c: Config<S, X>, trace: seq<State<S, X, E>>, evs: seq<Event<X, E>>, s: State<S, X, E>,
                                i: nat)
    requires |c.ddcs| >= 1 && Ends(c, trace, evs, s) && i < |c.ddcs|
    ensures StreamOf(Accepted(s.calls), i) <= Carved(c.ddcs[i], s.inputs)
    ensures |s.queue| <= WRITER_DEPTH
  {
    RunInv(c, trace, evs, |evs|);
    assert DeliveryInv(c, s, i);
    if DoneWith(s, i) < |s.inputs| {
      CarvedStep(c.ddcs[i], s.inputs);
    } else {
      assert s.inputs[..|s.inputs|] == s.inputs;
    }
  }

  /** The carrier probe has seen the first output's samples of every chunk
      received, even of one a write error kept from being recorded. */
  lemma ProbeSeesEverything<S, X, E>(c: Config<S, X>, trace: seq<State<S, X, E>>, evs: seq<Event<X, E>>,
                                     s: State<S, X, E>)
    requires |c.ddcs| >= 1 && Ends(c, trace, evs, s) && s.phase.Returned?
    ensures s.probed == Carved(c.ddcs[0], s.inputs)
  {
    RunInv(c, trace, evs, |evs|);
  }

  /** Once a sink call has failed no sink is called again, and captureStreamSinks
      returns an error; a write error is returned only when a sink call failed. */
  lemma FailureIsFinalAndReported<S, X, E>(c: Config<S, X>, trace: seq<State<S, X, E>>, evs: seq<Event<X, E>>, k: nat)
    requires |c.ddcs| >= 1 && IsRun(c, trace, evs) && k <= |evs|
    ensures Failed(trace[k]) ==> trace[|evs|].calls == trace[k].calls
    ensures Failed(trace[k]) && trace[|evs|].phase.Returned? ==> trace[|evs|].err.Some?
    ensures trace[|evs|].err.Some? && trace[|evs|].err.value.WriteFailed? ==> Failed(trace[|evs|])
  {
    RunInv(c, trace, evs, |evs|);
    if Failed(trace[k]) {
      CallsFrozen(c, trace, evs, k, |evs|);
    }
  }

  lemma {:induction false} CallsFrozen<S, X, E>(c: Config<S, X>, trace: seq<State<S, X, E>>, evs: seq<Event<X, E>>,
                                                k: nat, m: nat)
    requires |c.ddcs| >= 1 && IsRun(c, trace, evs) && k <= m <= |evs| && Failed(trace[k])
    ensures trace[m].calls == trace[k].calls
  {
    if k < m {
      CallsFrozen(c, trace, evs, k, m - 1);
      RunInv(c, trace, evs, m - 1);
      FailedStepCallsNoSink(c, trace[m - 1], evs[m - 1], trace[m]);
    }
  }

  lemma FailedStepCallsNoSink<S, X, E>(c: Config<S, X>, s: State<S, X, E>, ev: Event<X, E>, s': State<S, X, E>)
    requires Shape(c, s) && FailureInv(s) && Failed(s) && Step(c, s, ev) == Some(s')
    ensures s'.calls == s.calls
  {
  }

  function Total<X>(chunks: seq<seq<X>>): nat {
    if chunks == [] then 0 else Total(chunks[..|chunks| - 1]) + |chunks[|chunks| - 1]|
  }

  /** The loop counts INPUT samples: it never reads another chunk once it has
      `target` of them, and an error-free return means it has them all unless
      the safety timer cut it short. */
  lemma {:induction false} ReadsUpToTarget<S, X, E>(c: Config<S, X>, trace: seq<State<S, X, E>>,
                                                    evs: seq<Event<X, E>>, k: nat)
    requires |c.ddcs| >= 1 && IsRun(c, trace, evs) && k <= |evs|
    ensures trace[k].inputRead == Total(trace[k].inputs)
    ensures trace[k].inputs != [] ==> Total(trace[k].inputs[..|trace[k].inputs| - 1]) < c.target
    ensures (forall j | 0 <= j < k :: evs[j] != TimerFired) && Closed(trace[k]) && trace[k].err.None? ==>
              Total(trace[k].inputs) >= c.target
  {
    if k > 0 {
      ReadsUpToTarget(c, trace, evs, k - 1);
      RunInv(c, trace, evs, k - 1);
      CountStep(c, trace[k - 1], evs[k - 1], trace[k]);
    }
  }

  lemma CountStep<S, X, E>(c: Config<S, X>, s: State<S, X, E>, ev: Event<X, E>, s': State<S, X, E>)
    requires Shape(c, s) && Step(c, s, ev) == Some(s')
    requires s.inputRead == Total(s.inputs)
    ensures s'.inputRead == Total(s'.inputs)
    ensures s'.inputs == s.inputs ||
            (s'.inputs != [] && s'.inputs[..|s'.inputs| - 1] == s.inputs && Total(s.inputs) < c.target)
    ensures !Closed(s) && Closed(s') && s'.err.None? && ev != TimerFired ==> s'.inputRead >= c.target
    ensures Closed(s) && s'.err.None? ==> Closed(s') && s.err.None? && s'.inputs == s.inputs
  {
    if ev.ChunkArrived? {
      assert s'.inputs[..|s.inputs|] == s.inputs;
    } else {
      assert s'.inputs == s.inputs && s'.inputRead == s.inputRead;
    }
  }

  // ------------------------------------------------------------------ progress

  /** Work left without a further input chunk: what the writer still has to move
      and what the drain still has to do with the newest chunk. */
  function Rank<S, X, E>(c: Config<S, X>, s: State<S, X, E>): int {
    2 * |s.queue|
    + (if s.writer.Exited? then 0 else 1)
    + (if s.writer.Writing? then 1 else 0)
    + (match s.phase
       case Returned => 0
       case Joining => 1
       case Waiting => 2
       case Carving => 2 + 4 * (|c.ddcs| - s.next)
       case Sending(_) => 1 + 4 * (|c.ddcs| - s.next))
  }

  lemma RankFalls<S, X, E>(c: Config<S, X>, s: State<S, X, E>, ev: Event<X, E>, s': State<S, X, E>)
    requires Shape(c, s) && Shape(c, s') && Step(c, s, ev) == Some(s')
    ensures 0 <= Rank(c, s')
    ensures if ev.ChunkArrived? then Rank(c, s') == Rank(c, s) + 4 * |c.ddcs| else Rank(c, s') < Rank(c, s)
  {
    if IsWriterEvent(ev) {
      assert s'.phase == s.phase && s'.next == s.next;
    } else {
      assert s'.writer == s.writer;
    }
  }

  function Arrivals<X, E>(evs: seq<Event<X, E>>): nat {
    if evs == [] then 0 else Arrivals(evs[..|evs| - 1]) + if evs[|evs| - 1].ChunkArrived? then 1 else 0
  }

  /** No livelock: between two input chunks a run takes a bounded number of steps. */
  lemma RunsAreBounded<S, X, E>(c: Config<S, X>, trace: seq<State<S, X, E>>, evs: seq<Event<X, E>>)
    requires |c.ddcs| >= 1 && IsRun(c, trace, evs)
    ensures |evs| + Rank(c, trace[|evs|]) <= 3 + (4 * |c.ddcs| + 1) * Arrivals(evs)
  {
    RunsAreBoundedUpTo(c, trace, evs, |evs|);
    assert evs[..|evs|] == evs;
  }

  lemma {:induction false} RunsAreBoundedUpTo<S, X, E>(c: Config<S, X>, trace: seq<State<S, X, E>>,
                                                       evs: seq<Event<X, E>>, k: nat)
    requires |c.ddcs| >= 1 && IsRun(c, trace, evs) && k <= |evs|
    ensures k + Rank(c, trace[k]) <= 3 + (4 * |c.ddcs| + 1) * Arrivals(evs[..k])
  {
    if k > 0 {
      RunsAreBoundedUpTo(c, trace, evs, k - 1);
      BudgetAlongRun(c, trace, evs, k - 1);
    }
  }

  lemma BudgetAlongRun<S, X, E>(c: Config<S, X>, trace: seq<State<S, X, E>>, evs: seq<Event<X, E>>, k: nat)
    requires |c.ddcs| >= 1 && IsRun(c, trace, evs) && k < |evs|
    requires k + Rank(c, trace[k]) <= 3 + (4 * |c.ddcs| + 1) * Arrivals(evs[..k])
    ensures k + 1 + Rank(c, trace[k + 1]) <= 3 + (4 * |c.ddcs| + 1) * Arrivals(evs[..k + 1])
  {
    RankAlongRun(c, trace, evs, k);
    ArrivalsStep(evs, k);
    BudgetStep(k, Rank(c, trace[k]), Rank(c, trace[k + 1]), 4 * |c.ddcs| + 1, Arrivals(evs[..k]), evs[k].ChunkArrived?);
  }

  lemma ArrivalsStep<X, E>(evs: seq<Event<X, E>>, k: nat)
    requires k < |evs|
    ensures Arrivals(evs[..k + 1]) == if evs[k].ChunkArrived? then Arrivals(evs[..k]) + 1 else Arrivals(evs[..k])
  {
    assert evs[..k + 1][..k] == evs[..k];
  }

  lemma BudgetStep(k: nat, rank: int, rank': int, budget: int, a: nat, arrival: bool)
    requires k + rank <= 3 + budget * a
    requires rank' + 1 <= rank + (if arrival then budget else 0)
    ensures k + 1 + rank' <= 3 + budget * (if arrival then a + 1 else a)
  {
    assert budget * (a + 1) == budget * a + budget;
  }

  lemma RankAlongRun<S, X, E>(c: Config<S, X>, trace: seq<State<S, X, E>>, evs: seq<Event<X, E>>, k: nat)
    requires |c.ddcs| >= 1 && IsRun(c, trace, evs) && k < |evs|
    ensures Rank(c, trace[k + 1]) + 1 <= Rank(c, trace[k]) + (if evs[k].ChunkArrived? then 4 * |c.ddcs| + 1 else 0)
  {
    RunInv(c, trace, evs, k);
    RunInv(c, trace, evs, k + 1);
    RankFalls(c, trace[k], evs[k], trace[k + 1]);
  }

  /** An event that needs neither an input chunk, nor the context, nor the timer;
      only that a sink call in progress returns. */
  predicate Internal<X, E>(ev: Event<X, E>) {
    !ev.CtxDone? && !ev.TimerFired? && !ev.SourceClosed? && !ev.ChunkArrived? && !ev.SinkFailed?
  }

  /** The enabled internal event of a state that is not waiting for input. */
  function NextInternal<S, X, E>(c: Config<S, X>, s: State<S, X, E>): Event<X, E> {
    if s.phase.Waiting? then TargetReached
    else if s.phase.Carving? then Carve
    else if s.phase.Sending? && |s.queue| < WRITER_DEPTH then Enqueue
    else if s.writer.Exited? then JoinWriter
    else if s.writer.Writing? then SinkOk
    else if s.queue == [] then WriterExit
    else if s.writer.Ready? then Take
    else DiscardOne
  }

  /** No deadlock: before it returns, the pipeline can always take an internal
      step unless the drain is at the outer select, where only input, the
      context or the timer is due. In particular a drain blocked on a full
      channel and a drain joining the writer are always released by the writer,
      failed or not. */
  lemma NeverStuck<S, X, E>(c: Config<S, X>, trace: seq<State<S, X, E>>, evs: seq<Event<X, E>>, s: State<S, X, E>)
    requires |c.ddcs| >= 1 && Ends(c, trace, evs, s) && !s.phase.Returned?
    ensures AtOuterSelect(c, s) || (Internal(NextInternal(c, s)) && Step(c, s, NextInternal(c, s)).Some?)
    ensures AtOuterSelect(c, s) ==> Step(c, s, CtxDone).Some? && Step(c, s, TimerFired).Some?
  {
    RunInv(c, trace, evs, |evs|);
  }

  /** The final join always completes: from any state in which the loop has been
      left, internal steps alone reach the return, within Rank steps. */
  lemma {:induction false} JoinCompletes<S, X, E>(c: Config<S, X>, s: State<S, X, E>)
    returns (t: State<S, X, E>, n: nat)
    requires Inv(c, s) && Closed(s)
    ensures Inv(c, t) && t.phase.Returned? && n <= Rank(c, s) && t == After(c, s, n)
    decreases Rank(c, s)
  {
    if s.phase.Returned? {
      return s, 0;
    }
    var ev := NextInternal(c, s);
    var s' := Step(c, s, ev).value;
    StepKeepsInv(c, s, ev, s');
    RankFalls(c, s, ev, s');
    t, n := JoinCompletes(c, s');
    n := n + 1;
  }

  /** The state after n internal steps, stopping at the return. */
  function After<S, X, E>(c: Config<S, X>, s: State<S, X, E>, n: nat): State<S, X, E>
    decreases n
  {
    if n == 0 || |s.ddcStates| != |c.ddcs| || |s.written| != |c.ddcs| then s
    else match Step(c, s, NextInternal(c, s))
      case Some(s') => After(c, s', n - 1)
      case None => s
  }

  /** From every reachable state the pipeline can still return: it suffices that the
      context is cancelled at the next outer select and that sink calls return. */
  lemma {:induction false} CanReturn<S, X, E>(c: Config<S, X>, trace: seq<State<S, X, E>>, evs: seq<Event<X, E>>)
    returns (longer: seq<State<S, X, E>>, more: seq<Event<X, E>>)
    requires |c.ddcs| >= 1 && IsRun(c, trace, evs)
    ensures IsRun(c, longer, evs + more) && trace <= longer
    ensures longer[|evs + more|].phase.Returned?
    ensures forall i | 0 <= i < |more| :: Internal(more[i]) || more[i].CtxDone?
    decreases Rank(c, trace[|evs|])
  {
    var s := trace[|evs|];
    RunInv(c, trace, evs, |evs|);
    if s.phase.Returned? {
      longer, more := trace, [];
      assert evs + [] == evs;
      return;
    }
    NeverStuck(c, trace, evs, s);
    var ev := if AtOuterSelect(c, s) then CtxDone else NextInternal(c, s);
    var s' := Step(c, s, ev).value;
    StepKeepsInv(c, s, ev, s');
    RankFalls(c, s, ev, s');
    RunExtends(c, trace, evs, ev, s');
    longer, more := CanReturn(c, trace + [s'], evs + [ev]);
    assert evs + [ev] + more == evs + ([ev] + more);
    more := [ev] + more;
  }

  lemma RunExtends<S, X, E>(c: Config<S, X>, trace: seq<State<S, X, E>>, evs: seq<Event<X, E>>, ev: Event<X, E>,
                            s': State<S, X, E>)
    requires IsRun(c, trace, evs) && Shape(c, s') && Step(c, trace[|evs|], ev) == Some(s')
    ensures IsRun(c, trace + [s'], evs + [ev])
  {
    var t, e := trace + [s'], evs + [ev];
    forall k | 0 <= k < |e|
      ensures Step(c, t[k], e[k]) == Some(t[k + 1])
    {
      if k < |evs| {
        assert e[k] == evs[k] && t[k] == trace[k] && t[k + 1] == trace[k + 1];
      }
    }
  }

  // ------------------------------------------------------- the returned error

  /** A sink call failed with e before step k. */
  ghost predicate SinkFailedWith<X, E>(evs: seq<Event<X, E>>, k: nat, e: E)
    requires k <= |evs|
  {
    exists j | 0 <= j < k :: evs[j] == SinkFailed(e)
  }

  ghost predicate SomeSinkFailed<X, E>(evs: seq<Event<X, E>>, k: nat)
    requires k <= |evs|
  {
    exists j | 0 <= j < k :: evs[j].SinkFailed?
  }

  /** Failures and the errors reported for them. */
  ghost predicate FailuresTold<S, X, E>(s: State<S, X, E>, evs: seq<Event<X, E>>, k: nat)
    requires k <= |evs|
  {
    && (Failed(s) <==> SomeSinkFailed(evs, k))
    && (s.errCh.Some? ==> SinkFailedWith(evs, k, s.errCh.value))
    && (s.err.Some? && s.err.value.WriteFailed? ==> SinkFailedWith(evs, k, s.err.value.cause))
  }

  lemma SinkFailedStep<X, E>(evs: seq<Event<X, E>>, k: nat)
    requires k < |evs|
    ensures SomeSinkFailed(evs, k + 1) <==> SomeSinkFailed(evs, k) || evs[k].SinkFailed?
    ensures forall e :: SinkFailedWith(evs, k, e) ==> SinkFailedWith(evs, k + 1, e)
    ensures evs[k].SinkFailed? ==> SinkFailedWith(evs, k + 1, evs[k].error)
  {
  }

  lemma FailuresToldStep<S, X, E>(c: Config<S, X>, s: State<S, X, E>, s': State<S, X, E>, evs: seq<Event<X, E>>, k: nat)
    requires k < |evs| && Shape(c, s) && FailureInv(s) && Step(c, s, evs[k]) == Some(s') && FailuresTold(s, evs, k)
    ensures FailuresTold(s', evs, k + 1)
  {
    SinkFailedStep(evs, k);
  }

  lemma {:induction false} FailuresAreTold<S, X, E>(c: Config<S, X>, trace: seq<State<S, X, E>>, evs: seq<Event<X, E>>,
                                                    k: nat)
    requires |c.ddcs| >= 1 && IsRun(c, trace, evs) && k < |trace|
    ensures FailuresTold(trace[k], evs, k)
  {
    if k > 0 {
      FailuresAreTold(c, trace, evs, k - 1);
      RunInv(c, trace, evs, k - 1);
      FailuresToldStep(c, trace[k - 1], trace[k], evs, k - 1);
    }
  }

  /** Step k leaves the loop. */
  ghost predicate LeavesLoop<S, X, E>(trace: seq<State<S, X, E>>, k: nat)
    requires k + 1 < |trace|
  {
    !Closed(trace[k]) && Closed(trace[k + 1])
  }

  /** The error the loop is left with. */
  function LoopError<S, X, E>(s: State<S, X, E>, ev: Event<X, E>): Option<Error<E>> {
    match ev
    case SourceClosed => Some(StreamEnded)
    case CtxDone => Some(Cancelled)
    case WriteErrorSeen => if s.errCh.Some? then Some(WriteFailed(s.errCh.value)) else None
    case _ => None
  }

  lemma LeavingStep<S, X, E>(c: Config<S, X>, s: State<S, X, E>, ev: Event<X, E>, s': State<S, X, E>)
    requires Shape(c, s) && Step(c, s, ev) == Some(s') && !Closed(s) && Closed(s')
    ensures s'.err == LoopError(s, ev) && !s'.phase.Returned?
    ensures ev.SourceClosed? || ev.CtxDone? || ev.WriteErrorSeen? || ev.TimerFired? || ev.TargetReached?
    ensures ev.WriteErrorSeen? ==> s.errCh.Some?
  {
  }

  /** After that a known error stays, and an unknown one can only become a sink's. */
  lemma ClosedStep<S, X, E>(c: Config<S, X>, s: State<S, X, E>, ev: Event<X, E>, s': State<S, X, E>)
    requires Shape(c, s) && Step(c, s, ev) == Some(s') && Closed(s)
    ensures Closed(s') && (s.err.Some? ==> s'.err == s.err)
    ensures s.err.None? && s'.err.Some? ==> s'.err.value.WriteFailed?
  {
  }

  ghost predicate ErrorIs<E>(err: Option<Error<E>>, e: Option<Error<E>>) {
    if e.Some? then err == e else err.Some? ==> err.value.WriteFailed?
  }

  lemma {:induction false} ErrorStays<S, X, E>(c: Config<S, X>, trace: seq<State<S, X, E>>, evs: seq<Event<X, E>>,
                                               k: nat, m: nat)
    requires |c.ddcs| >= 1 && IsRun(c, trace, evs) && k < m < |trace| && LeavesLoop(trace, k)
    ensures Closed(trace[m]) && ErrorIs(trace[m].err, LoopError(trace[k], evs[k]))
  {
    if m == k + 1 {
      LeftWith(c, trace, evs, k);
    } else {
      ErrorStays(c, trace, evs, k, m - 1);
      StaysAt(c, trace, evs, m - 1, LoopError(trace[k], evs[k]));
    }
  }

  lemma LeftWith<S, X, E>(c: Config<S, X>, trace: seq<State<S, X, E>>, evs: seq<Event<X, E>>, k: nat)
    requires |c.ddcs| >= 1 && IsRun(c, trace, evs) && k < |evs| && LeavesLoop(trace, k)
    ensures trace[k + 1].err == LoopError(trace[k], evs[k])
  {
    RunInv(c, trace, evs, k);
    LeavingStep(c, trace[k], evs[k], trace[k + 1]);
  }

  lemma StaysAt<S, X, E>(c: Config<S, X>, trace: seq<State<S, X, E>>, evs: seq<Event<X, E>>, m: nat,
                         e: Option<Error<E>>)
    requires |c.ddcs| >= 1 && IsRun(c, trace, evs) && m < |evs| && Closed(trace[m]) && ErrorIs(trace[m].err, e)
    ensures Closed(trace[m + 1]) && ErrorIs(trace[m + 1].err, e)
  {
    RunInv(c, trace, evs, m);
    ErrorStaysOnce(c, trace[m], evs[m], trace[m + 1], e);
  }

  lemma ErrorStaysOnce<S, X, E>(c: Config<S, X>, s: State<S, X, E>, ev: Event<X, E>, s': State<S, X, E>,
                                e: Option<Error<E>>)
    requires Shape(c, s) && Step(c, s, ev) == Some(s') && Closed(s)
    requires ErrorIs(s.err, e)
    ensures Closed(s') && ErrorIs(s'.err, e)
  {
    ClosedStep(c, s, ev, s');
  }

  /** The two selects. At the top of the loop the drain listens, below the target, to the
      context, the timer, the source and the error channel; while sending it can always be
      cancelled or told of a write error, and hands over exactly when there is room. */
  lemma SelectArms<S, X, E>(c: Config<S, X>, s: State<S, X, E>, chunk: seq<X>)
    requires Shape(c, s)
    ensures var top := s.phase.Waiting? && s.inputRead < c.target;
            && (Step(c, s, CtxDone).Some? <==> top || s.phase.Sending?)
            && (Step(c, s, WriteErrorSeen).Some? <==> (top || s.phase.Sending?) && s.errCh.Some?)
            && (Step(c, s, TimerFired).Some? <==> top)
            && (Step(c, s, SourceClosed).Some? <==> top)
            && (Step(c, s, ChunkArrived(chunk)).Some? <==> top)
            && (Step(c, s, Enqueue).Some? <==> s.phase.Sending? && |s.queue| < 256)
  {
  }

  /** What a return with `err` says of the event that left the loop and of the sinks. */
  ghost predicate ErrorFitsEnd<X, E>(end: Event<X, E>, err: Option<Error<E>>, evs: seq<Event<X, E>>) {
    match end
    case SourceClosed => err == Some(StreamEnded)
    case CtxDone => err == Some(Cancelled)
    case WriteErrorSeen => err.Some? && err.value.WriteFailed? && SinkFailedWith(evs, |evs|, err.value.cause)
    case _ =>
      && (end.TimerFired? || end.TargetReached?)
      && (err.Some? <==> SomeSinkFailed(evs, |evs|))
      && (err.Some? ==> err.value.WriteFailed? && SinkFailedWith(evs, |evs|, err.value.cause))
  }

  /** The returned error tells how the loop was left: the end of the stream, a cancellation
      or the error of a failed sink call. Left by the timer or with the target reached,
      the return has an error exactly if a sink call failed, and then that one's. */
  lemma ErrorTellsEnd<S, X, E>(c: Config<S, X>, trace: seq<State<S, X, E>>, evs: seq<Event<X, E>>, k: nat)
    requires |c.ddcs| >= 1 && IsRun(c, trace, evs) && k < |evs| && LeavesLoop(trace, k)
    requires trace[|evs|].phase.Returned?
    ensures ErrorFitsEnd(evs[k], trace[|evs|].err, evs)
  {
    var n := |evs|;
    RunInv(c, trace, evs, k);
    RunInv(c, trace, evs, n);
    LeavingStep(c, trace[k], evs[k], trace[k + 1]);
    ErrorStays(c, trace, evs, k, n);
    FailuresAreTold(c, trace, evs, n);
  }

  /** Exactly one step leaves the loop in a run that has returned. */
  lemma {:induction false} LoopLeftOnce<S, X, E>(c: Config<S, X>, trace: seq<State<S, X, E>>, evs: seq<Event<X, E>>,
                                                 m: nat) returns (k: nat)
    requires |c.ddcs| >= 1 && IsRun(c, trace, evs) && m < |trace| && Closed(trace[m])
    ensures k < m && LeavesLoop(trace, k) && forall j | 0 <= j < m && LeavesLoop(trace, j) :: j == k
  {
    RunInv(c, trace, evs, m - 1);
    if Closed(trace[m - 1]) {
      k := LoopLeftOnce(c, trace, evs, m - 1);
    } else {
      k := m - 1;
      forall j | 0 <= j < m
        ensures LeavesLoop(trace, j) ==> j == k
      {
        if j < k {
          StaysClosed(c, trace, evs, j + 1, k);
        }
      }
    }
  }

  /** Once left, the loop stays left. */
  lemma {:induction false} StaysClosed<S, X, E>(c: Config<S, X>, trace: seq<State<S, X, E>>, evs: seq<Event<X, E>>,
                                                j: nat, k: nat)
    requires |c.ddcs| >= 1 && IsRun(c, trace, evs) && j <= k < |trace|
    ensures Closed(trace[j]) ==> Closed(trace[k])
  {
    if j < k {
      StaysClosed(c, trace, evs, j, k - 1);
      RunInv(c, trace, evs, k - 1);
      if Closed(trace[k - 1]) {
        ClosedStep(c, trace[k - 1], evs[k - 1], trace[k]);
      }
    }
  }

  /** At most one sink call of a run fails, so the error returned is that one's. */
  lemma OneSinkFails<S, X, E>(c: Config<S, X>, trace: seq<State<S, X, E>>, evs: seq<Event<X, E>>, i: nat, j: nat)
    requires |c.ddcs| >= 1 && IsRun(c, trace, evs) && i < j < |evs| && evs[i].SinkFailed?
    ensures !evs[j].SinkFailed?
  {
    RunInv(c, trace, evs, j);
    FailuresAreTold(c, trace, evs, j);
    assert SomeSinkFailed(evs, j);
    assert Step(c, trace[j], evs[j]).Some?;
  }

  // ------------------------------------------- what a down-converter's output is

  function Concat<X>(chunks: seq<seq<X>>): seq<X> {
    if chunks == [] then [] else Concat(chunks[..|chunks| - 1]) + chunks[|chunks| - 1]
  }

  /** Without a down-converter the output is the input. */
  lemma {:induction false} RawOutputIsInput<S, X>(ddc: Option<Downconverter<S, X>>, chunks: seq<seq<X>>)
    requires ddc == None
    ensures Carved(ddc, chunks) == Concat(chunks)
  {
    if chunks != [] {
      RawOutputIsInput(ddc, chunks[..|chunks| - 1]);
    }
  }

  /** A down-converter starts from its initial state and hands each chunk's state on to the
      next; its output is what it gives for the chunks, one after the other. */
  lemma {:induction false} DdcRunsThrough<S, X>(d: Downconverter<S, X>, chunks: seq<seq<X>>, states: seq<S>,
                                                outs: seq<seq<X>>)
    requires |states| == |chunks| + 1 && |outs| == |chunks| && states[0] == d.init
    requires forall k | 0 <= k < |chunks| :: d.process(states[k], chunks[k]) == (states[k + 1], outs[k])
    ensures Carved(Some(d), chunks) == Concat(outs)
    ensures chunks != [] ==> StateAfter(Some(d), chunks) == Some(states[|chunks|])
  {
    if chunks != [] {
      var n := |chunks| - 1;
      DdcRunsThrough(d, chunks[..n], states[..n + 1], outs[..n]);
      assert d.process(states[n], chunks[n]) == (states[n + 1], outs[n]);
      assert Apply(Some(d), StateAfter(Some(d), chunks[..n]), chunks[n]) == (Some(states[n + 1]), outs[n]);
    }
  }

  // ---------------------------------------------------------------- a whole run

  lemma Extend<S, X, E>(c: Config<S, X>, trace: seq<State<S, X, E>>, evs: seq<Event<X, E>>, ev: Event<X, E>)
    returns (longer: seq<State<S, X, E>>, more: seq<Event<X, E>>)
    requires |c.ddcs| >= 1 && IsRun(c, trace, evs) && Step(c, trace[|evs|], ev).Some?
    ensures IsRun(c, longer, more) && |more| == |evs| + 1
    ensures longer[|more|] == Step(c, trace[|evs|], ev).value
  {
    var s' := Step(c, trace[|evs|], ev).value;
    RunInv(c, trace, evs, |evs|);
    StepKeepsInv(c, trace[|evs|], ev, s');
    RunExtends(c, trace, evs, ev, s');
    longer, more := trace + [s'], evs + [ev];
  }

  /** One sample arrives and is put on the channel raw. */
  lemma SampleQueued<S, X, E>(x: X) returns (c: Config<S, X>, trace: seq<State<S, X, E>>, evs: seq<Event<X, E>>)
    ensures c == Config([None], 1) && IsRun(c, trace, evs)
    ensures trace[|evs|] ==
              State(Waiting, [[x]], 1, 1, [None], [1], [x], None, [CaptureChunk(0, [x])], None, Ready, [])
  {
    c := Config([None], 1);
    var s: State<S, X, E> := State(Waiting, [], 0, 1, [None], [0], [], None, [], None, Ready, []);
    trace, evs := [s], [];
    assert Initial(c, s);
    trace, evs := Extend(c, trace, evs, ChunkArrived([x]));
    trace, evs := Extend(c, trace, evs, Carve);
    trace, evs := Extend(c, trace, evs, Enqueue);
  }

  lemma SampleRecorded<S, X, E>(x: X) returns (c: Config<S, X>, trace: seq<State<S, X, E>>, evs: seq<Event<X, E>>)
    ensures c == Config([None], 1) && IsRun(c, trace, evs)
    ensures trace[|evs|] ==
              State(Waiting, [[x]], 1, 1, [None], [1], [x], None, [], None, Ready,
                    [SinkCall(CaptureChunk(0, [x]), true)])
  {
    c, trace, evs := SampleQueued(x);
    trace, evs := Extend(c, trace, evs, Take);
    trace, evs := Extend(c, trace, evs, SinkOk);
  }

  /** There are complete runs: the sample was all that was asked for and the capture ends. */
  lemma WholeRun<S, X, E>(x: X) returns (c: Config<S, X>, trace: seq<State<S, X, E>>, evs: seq<Event<X, E>>)
    ensures |c.ddcs| == 1 && IsRun(c, trace, evs)
    ensures var s := trace[|evs|];
            && s.phase.Returned? && s.err.None? && s.inputs == [[x]] && s.written == [1]
            && s.calls == [SinkCall(CaptureChunk(0, [x]), true)]
  {
    c, trace, evs := SampleRecorded(x);
    trace, evs := Extend(c, trace, evs, TargetReached);
    trace, evs := Extend(c, trace, evs, WriterExit);
    trace, evs := Extend(c, trace, evs, JoinWriter);
  }
}
