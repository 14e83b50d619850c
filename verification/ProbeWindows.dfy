/** The carrier probe windows of a capture, cmd/gophertrunk/capture_carrier.go:
    up to eight disjoint windows of the recorded stream, filled while the stream
    goes by in chunks of any size. */
module ProbeWindows {
  import opened Arith

  /** captureProbeSamples. */
  const PROBE_SAMPLES := 32768

  /** captureProbeWindows. */
  const PROBE_WINDOWS := 8

  /** siglab.ClipThreshold. */
  const CLIP_THRESHOLD := 0.98

  datatype Sample = Sample(re: real, im: real)

  predicate Clipped(v: Sample) {
    v.re >= CLIP_THRESHOLD || v.re <= -CLIP_THRESHOLD || v.im >= CLIP_THRESHOLD || v.im <= -CLIP_THRESHOLD
  }

  function CountClipped(stream: seq<Sample>): nat {
    if stream == [] then 0
    else CountClipped(stream[..|stream| - 1]) + if Clipped(stream[|stream| - 1]) then 1 else 0
  }

  lemma {:induction false} CountClippedConcat(a: seq<Sample>, b: seq<Sample>)
    ensures CountClipped(a + b) == CountClipped(a) + CountClipped(b)
  {
    if b == [] {
      assert a + b == a;
    } else {
      assert (a + b)[..|a + b| - 1] == a + b[..|b| - 1];
      CountClippedConcat(a, b[..|b| - 1]);
    }
  }

  /** Sample i has a component of 0.98 or more in magnitude. */
  ghost predicate AtRail(stream: seq<Sample>, i: int) {
    0 <= i < |stream| && !(-0.98 < stream[i].re < 0.98 && -0.98 < stream[i].im < 0.98)
  }

  lemma {:induction false} CountClippedExactly(stream: seq<Sample>)
    ensures CountClipped(stream) == |set i | 0 <= i < |stream| && AtRail(stream, i)|
  {
    if stream != [] {
      var n, before := |stream| - 1, stream[..|stream| - 1];
      CountClippedExactly(before);
      var few := set i | 0 <= i < n && AtRail(before, i);
      var all := set i | 0 <= i < |stream| && AtRail(stream, i);
      assert all == few + if AtRail(stream, n) then {n} else {};
    }
  }

  method CountClippedLoop(raw: seq<Sample>) returns (n: nat)
    ensures n == CountClipped(raw)
  {
    n := 0;
    for i := 0 to |raw|
      invariant n == CountClipped(raw[..i])
    {
      assert raw[..i + 1][..i] == raw[..i];
      if Clipped(raw[i]) {
        n := n + 1;
      }
    }
    assert raw[..|raw|] == raw;
  }

  /** What the window starting at `start` holds once `stream` has gone by. */
  function WindowOf(stream: seq<Sample>, start: nat): (w: seq<Sample>)
    ensures |w| <= PROBE_SAMPLES
  {
    if start >= |stream| then []
    else if start + PROBE_SAMPLES <= |stream| then stream[start..start + PROBE_SAMPLES]
    else stream[start..]
  }

  /** The loop body of feed: window `w` takes its share of the chunk that starts
      at absolute position `base`. */
  function FeedWindow(w: seq<Sample>, start: int, base: int, samples: seq<Sample>): seq<Sample> {
    if |w| >= PROBE_SAMPLES then w
    else
      var lo := start + |w| - base;
      var hi := start + PROBE_SAMPLES - base;
      var s := if lo < 0 then 0 else lo;
      var e := if hi > |samples| then |samples| else hi;
      if s < e then w + samples[s..e] else w
  }

  lemma FeedWindowExtends(stream: seq<Sample>, start: nat, samples: seq<Sample>)
    ensures FeedWindow(WindowOf(stream, start), start, |stream|, samples) == WindowOf(stream + samples, start)
  {
  }

  function Flatten(chunks: seq<seq<Sample>>): seq<Sample> {
    if chunks == [] then [] else Flatten(chunks[..|chunks| - 1]) + chunks[|chunks| - 1]
  }

  /** One window fed a whole sequence of chunks, the way the capture loop does. */
  function FeedWindowAll(start: nat, chunks: seq<seq<Sample>>): seq<Sample> {
    if chunks == [] then []
    else
      var before := chunks[..|chunks| - 1];
      FeedWindow(FeedWindowAll(start, before), start, |Flatten(before)|, chunks[|chunks| - 1])
  }

  /** However a stream is cut into chunks, a window ends up with the same slice of it. */
  lemma {:induction false} ChunkingIrrelevant(start: nat, chunks: seq<seq<Sample>>)
    ensures FeedWindowAll(start, chunks) == WindowOf(Flatten(chunks), start)
  {
    if chunks != [] {
      var before := chunks[..|chunks| - 1];
      ChunkingIrrelevant(start, before);
      FeedWindowExtends(Flatten(before), start, chunks[|chunks| - 1]);
    }
  }

  class CarrierProbe {
    var starts: seq<int>
    var windows: seq<seq<Sample>>
    var pos: int
    var clipped: int
    /** Everything fed so far. */
    ghost var fed: seq<Sample>

    ghost predicate Valid()
      reads this
    {
      && |windows| == |starts|
      && pos == |fed|
      && clipped == CountClipped(fed)
      && (forall i | 0 <= i < |starts| :: starts[i] >= 0)
      && forall i | 0 <= i < |windows| :: starts[i] >= 0 && windows[i] == WindowOf(fed, starts[i])
    }

    /** newCarrierProbe. With more than one window the windows are pairwise
        disjoint, evenly spread and end within the expected recording. */
    constructor (expected: int)
      ensures Valid() && fed == []
      ensures |starts| == if expected < 2 * PROBE_SAMPLES then 1
                          else if expected >= PROBE_WINDOWS * PROBE_SAMPLES then PROBE_WINDOWS
                          else expected / PROBE_SAMPLES
      ensures starts[0] == 0
      ensures |starts| > 1 ==> forall i | 0 <= i < |starts| :: starts[i] == i * (expected / |starts|)
      ensures forall i, j | 0 <= i < j < |starts| :: starts[i] + PROBE_SAMPLES <= starts[j]
      ensures |starts| > 1 ==> forall i | 0 <= i < |starts| :: starts[i] + PROBE_SAMPLES <= expected
    {
      var k := PROBE_WINDOWS;
      var maxK := GoDiv(expected, PROBE_SAMPLES);
      if maxK < k {
        k := maxK;
      }
      if k < 1 {
        k := 1;
      }
      var stride := PROBE_SAMPLES;
      if k > 1 {
        stride := GoDiv(expected, k);
      }
      assert k > 1 ==> stride >= PROBE_SAMPLES && k * stride <= expected by {
        if k > 1 {
          QuotientBounds(expected, k, PROBE_SAMPLES);
        }
      }
      var ss: seq<int>, ws: seq<seq<Sample>> := [], [];
      var i := 0;
      while i < k
        invariant 0 <= i <= k && |ss| == |ws| == i
        invariant forall j | 0 <= j < i :: ss[j] == j * stride
        invariant forall j | 0 <= j < i :: ws[j] == []
      {
        ss := ss + [i * stride];
        ws := ws + [[]];
        i := i + 1;
      }
      SpreadFacts(ss, k, stride, expected);
      starts, windows, pos, clipped, fed := ss, ws, 0, 0, [];
    }

    /** feed. */
    method Feed(samples: seq<Sample>)
      requires Valid()
      modifies this
      ensures Valid() && fed == old(fed) + samples && starts == old(starts)
    {
      var base := pos;
      pos := pos + |samples|;
      var c := CountClippedLoop(samples);
      clipped := clipped + c;
      CountClippedConcat(fed, samples);
      ghost var before := fed;
      ghost var had := windows;
      fed := fed + samples;
      ghost var ss, all := starts, fed;
      for i := 0 to |starts|
        invariant starts == ss && fed == all && pos == |fed| && clipped == CountClipped(fed)
        invariant |windows| == |ss|
        invariant forall j | 0 <= j < i :: windows[j] == WindowOf(all, ss[j])
        invariant forall j | i <= j < |windows| :: windows[j] == had[j]
      {
        var w := TakeShare(windows[i], starts[i], base, samples, before);
        windows := windows[i := w];
      }
    }
  }

  /** The body of feed's loop over the windows: the window of the stream so far becomes
      the window of the stream with the chunk. */
  method TakeShare(w: seq<Sample>, start: nat, base: int, samples: seq<Sample>, ghost stream: seq<Sample>)
    returns (w': seq<Sample>)
    requires w == WindowOf(stream, start) && base == |stream|
    ensures w' == WindowOf(stream + samples, start)
  {
    FeedWindowExtends(stream, start, samples);
    if |w| >= PROBE_SAMPLES {
      return w;
    }
    var lo := start + |w|;
    var hi := start + PROBE_SAMPLES;
    var s, e := lo - base, hi - base;
    if s < 0 {
      s := 0;
    }
    if e > |samples| {
      e := |samples|;
    }
    return if s < e then w + samples[s..e] else w;
  }

  lemma QuotientBounds(expected: int, k: int, size: int)
    requires 1 < k && size > 0 && k <= GoDiv(expected, size)
    ensures expected >= 0 && GoDiv(expected, k) >= size && k * GoDiv(expected, k) <= expected
  {
    if expected < 0 {
      DivFacts(-expected, size);
      assert false;
    }
    var d, q := expected / size, expected / k;
    DivFacts(expected, size);
    DivFacts(expected, k);
    MulMonotone(k, d, size);
    if q < size {
      MulMonotone(q + 1, size, k);
      MulSub(q + 1, 1, k);
    }
  }

  lemma MulMonotone(x: int, y: int, n: int)
    requires x <= y && n >= 0
    ensures x * n <= y * n
  {
    assert (y - x) * n >= 0;
  }

  lemma SpreadFacts(ss: seq<int>, k: int, stride: int, expected: int)
    requires 1 <= k == |ss| && stride >= PROBE_SAMPLES
    requires forall j | 0 <= j < k :: ss[j] == j * stride
    requires k > 1 ==> k * stride <= expected
    ensures ss[0] == 0 && forall j | 0 <= j < k :: ss[j] >= 0
    ensures forall i, j | 0 <= i < j < k :: ss[i] + PROBE_SAMPLES <= ss[j]
    ensures k > 1 ==> forall i | 0 <= i < k :: ss[i] + PROBE_SAMPLES <= expected
  {
    forall i, j | 0 <= i < j < k
      ensures ss[i] + PROBE_SAMPLES <= ss[j]
    {
      StrideGap(i, j, stride);
    }
    forall i | 0 <= i < k
      ensures ss[i] >= 0 && (k > 1 ==> ss[i] + PROBE_SAMPLES <= expected)
    {
      StrideGap(i, k, stride);
    }
  }

  lemma StrideGap(i: nat, j: nat, stride: int)
    requires i < j && stride >= 0
    ensures 0 <= i * stride && i * stride + stride <= j * stride
  {
    assert (j - i - 1) * stride >= 0;
    assert j * stride == i * stride + stride + (j - i - 1) * stride;
  }
}
