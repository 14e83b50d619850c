/** captureCarrierOffsetHz after the FFT, cmd/gophertrunk/capture_carrier.go: a
    circular sliding-window sum over the power spectrum, its first maximum, the
    plateau around that maximum and the plateau's centre bin. The spectrum is any
    array of powers; float64 is modelled by real. */
module CarrierEstimate {
  import opened Arith

  const PROBE_SAMPLES := 32768
  const PEAK_MARGIN := 3.0
  const PLATEAU_FRACTION := 0.999

  /** Circular indexing: bin n-1 is adjacent to bin 0. */
  function At(s: seq<real>, i: int): real
    requires s != []
  {
    s[i % |s|]
  }

  /** The direct circular sum of `len` bins from bin `lo` upwards. */
  function CircSum(p: seq<real>, lo: int, len: nat): real
    requires p != []
  {
    if len == 0 then 0.0 else CircSum(p, lo, len - 1) + At(p, lo + len - 1)
  }

  /** The smoothed spectrum at bin k: the window of half-width `half` around it. */
  function Hump(p: seq<real>, half: nat, k: int): real
    requires p != []
  {
    CircSum(p, k - half, 2 * half + 1)
  }

  function Sum(p: seq<real>): real {
    if p == [] then 0.0 else Sum(p[..|p| - 1]) + p[|p| - 1]
  }

  /** Half-width of the smoothing window: about n/128 bins, at least 4. */
  function HalfWidth(n: nat): nat {
    (if n / 64 < 8 then 8 else n / 64) / 2
  }

  // -------------------------------------------------------- the running sum

  lemma {:induction false} CircSumHead(p: seq<real>, lo: int, len: nat)
    requires p != [] && len > 0
    ensures CircSum(p, lo, len) == At(p, lo) + CircSum(p, lo + 1, len - 1)
  {
    if len > 1 {
      CircSumHead(p, lo, len - 1);
    }
  }

  /** One step of the running sum: drop the bin on the left, take the one on the right. */
  lemma HumpSlides(p: seq<real>, half: nat, k: int)
    requires p != []
    ensures Hump(p, half, k) == Hump(p, half, k - 1) - At(p, k - 1 - half) + At(p, k + half)
  {
    CircSumHead(p, k - 1 - half, 2 * half + 1);
  }

  /** The smoothed spectrum. */
  function Smoothed(p: seq<real>, half: nat): (s: seq<real>)
    requires p != []
    ensures |s| == |p| && forall k | 0 <= k < |s| :: s[k] == Hump(p, half, k)
  {
    seq(|p|, k => Hump(p, half, k))
  }

  ghost predicate FirstMaximum(s: seq<real>, k: nat) {
    && k < |s|
    && (forall j | 0 <= j < |s| :: s[j] <= s[k])
    && forall j | 0 <= j < k :: s[j] < s[k]
  }

  method Smooth(power: array<real>, half: nat) returns (smoothed: array<real>, best: real, bestK: nat)
    requires power.Length > 0
    ensures fresh(smoothed)
    ensures smoothed[..] == Smoothed(power[..], half)
    ensures FirstMaximum(smoothed[..], bestK) && best == smoothed[bestK]
  {
    var n := power.Length;
    ghost var p := power[..];
    smoothed := new real[n];
    var sum := 0.0;
    var j: int := 0 - half;
    while j <= half
      invariant 0 - half <= j <= half + 1 && sum == CircSum(p, 0 - half, j + half)
    {
      WrapIsEuclidean(j, n);
      sum := sum + power[Wrap(j, n)];
      j := j + 1;
    }
    smoothed[0] := sum;
    best, bestK := sum, 0;
    for k := 1 to n
      invariant power[..] == p && fresh(smoothed)
      invariant sum == Hump(p, half, k - 1)
      invariant forall j | 0 <= j < k :: smoothed[j] == Hump(p, half, j)
      invariant bestK < k && best == smoothed[bestK]
      invariant forall j | 0 <= j < k :: smoothed[j] <= best
      invariant forall j | 0 <= j < bestK :: smoothed[j] < best
    {
      HumpSlides(p, half, k);
      WrapIsEuclidean(k - 1 - half, n);
      WrapIsEuclidean(k + half, n);
      sum := sum - power[Wrap(k - 1 - half, n)];
      sum := sum + power[Wrap(k + half, n)];
      smoothed[k] := sum;
      if sum > best {
        best, bestK := sum, k;
      }
    }
  }

  // ------------------------------------------------------------- the plateau

  /** The bin d steps from k. */
  function Bin(s: seq<real>, k: int, d: int): real
    requires s != []
  {
    s[(k + d) % |s|]
  }

  /** a bins to the left of k and b to the right, and k itself, reach thr, and
      neither side can be extended unless it has gone all the way round. */
  ghost predicate IsPlateau(s: seq<real>, k: int, thr: real, a: int, b: int)
    requires s != []
  {
    && 0 <= a <= |s| && 0 <= b <= |s|
    && (forall d | -a <= d <= b :: Bin(s, k, d) >= thr)
    && (a < |s| ==> Bin(s, k, -a - 1) < thr)
    && (b < |s| ==> Bin(s, k, b + 1) < thr)
  }

  method ExpandPlateau(smoothed: array<real>, bestK: nat, thr: real) returns (l: int, r: int)
    requires bestK < smoothed.Length && smoothed[bestK] >= thr
    ensures exists a, b :: IsPlateau(smoothed[..], bestK, thr, a, b)
              && l == (bestK - a) % smoothed.Length && r == (bestK + b) % smoothed.Length
  {
    ghost var a, b;
    l, a := ExpandLeft(smoothed, bestK, thr);
    r, b := ExpandRight(smoothed, bestK, thr);
    assert IsPlateau(smoothed[..], bestK, thr, a, b);
  }

  method ExpandLeft(smoothed: array<real>, bestK: nat, thr: real) returns (l: int, ghost a: int)
    requires bestK < smoothed.Length && smoothed[bestK] >= thr
    ensures 0 <= a <= smoothed.Length && l == (bestK - a) % smoothed.Length
    ensures forall d | -a <= d <= 0 :: Bin(smoothed[..], bestK, d) >= thr
    ensures a < smoothed.Length ==> Bin(smoothed[..], bestK, -a - 1) < thr
  {
    var n := smoothed.Length;
    ghost var s := smoothed[..];
    l, a := bestK, 0;
    var i := 0;
    while i < n
      invariant 0 <= i <= n && a == i && 0 <= l < n && l == (bestK - a) % n
      invariant forall d | -a <= d <= 0 :: Bin(s, bestK, d) >= thr
    {
      WrapIsEuclidean(l - 1, n);
      ModAdd(bestK - a, -1, n);
      var p := Wrap(l - 1, n);
      assert smoothed[p] == Bin(s, bestK, -a - 1);
      if smoothed[p] < thr {
        return;
      }
      l, a := p, a + 1;
      i := i + 1;
    }
  }

  method ExpandRight(smoothed: array<real>, bestK: nat, thr: real) returns (r: int, ghost b: int)
    requires bestK < smoothed.Length && smoothed[bestK] >= thr
    ensures 0 <= b <= smoothed.Length && r == (bestK + b) % smoothed.Length
    ensures forall d | 0 <= d <= b :: Bin(smoothed[..], bestK, d) >= thr
    ensures b < smoothed.Length ==> Bin(smoothed[..], bestK, b + 1) < thr
  {
    var n := smoothed.Length;
    ghost var s := smoothed[..];
    r, b := bestK, 0;
    var i := 0;
    while i < n
      invariant 0 <= i <= n && b == i && 0 <= r < n && r == (bestK + b) % n
      invariant forall d | 0 <= d <= b :: Bin(s, bestK, d) >= thr
    {
      ModAdd(bestK + b, 1, n);
      var q := (r + 1) % n;
      assert smoothed[q] == Bin(s, bestK, b + 1);
      if smoothed[q] < thr {
        return;
      }
      r, b := q, b + 1;
      i := i + 1;
    }
  }

  /** The centre the code takes between the plateau's ends. */
  function CentreBin(l: int, r: int, n: nat): int
    requires n > 0
  {
    (l + Wrap(r - l, n) / 2) % n
  }

  /** A plateau as long as the circle covers every bin. */
  lemma WholeCircle(s: seq<real>, k: int, thr: real, lo: int, hi: int, i: int) returns (d: int)
    requires s != [] && lo + |s| <= hi + 1
    ensures lo <= d <= hi && Bin(s, k, d) == Bin(s, 0, i)
  {
    d := lo + (i - k - lo) % |s|;
    ModAdd(i - k - lo, k + lo, |s|);
  }

  ghost predicate BelowSomewhere(s: seq<real>, thr: real) {
    exists i | 0 <= i < |s| :: s[i] < thr
  }

  lemma PlateauLeavesAGap(s: seq<real>, k: nat, thr: real, a: int, b: int)
    requires k < |s| && IsPlateau(s, k, thr, a, b) && BelowSomewhere(s, thr)
    ensures a + b + 1 < |s|
  {
    var i :| 0 <= i < |s| && s[i] < thr;
    if a + b + 1 >= |s| {
      var d := WholeCircle(s, k, thr, -a, b, i);
      ModSmall(i, |s|);
    }
  }

  /** The width the code computes modulo n is the plateau's real width. */
  lemma CentreOfGappedPlateau(k: int, n: nat, a: int, b: int)
    requires 0 <= a && 0 <= b && a + b < n
    ensures CentreBin((k - a) % n, (k + b) % n, n) == (k + (-a + (a + b) / 2)) % n
  {
    WidthOfGappedPlateau(k, n, a, b);
    CentreFromWidth((k - a) % n, (k + b) % n, n, a + b);
    ModAdd(k - a, (a + b) / 2, n);
  }

  lemma WidthOfGappedPlateau(k: int, n: nat, a: int, b: int)
    requires 0 <= a && 0 <= b && a + b < n
    ensures Wrap((k + b) % n - (k - a) % n, n) == a + b
  {
    WrapIsEuclidean((k + b) % n - (k - a) % n, n);
    ModDiff(k + b, k - a, n);
    ModSmall(a + b, n);
  }

  lemma CentreFromWidth(l: int, r: int, n: nat, w: int)
    requires n > 0 && Wrap(r - l, n) == w
    ensures CentreBin(l, r, n) == (l + w / 2) % n
  {
  }

  /** The centre bin still reaches the threshold, also when the plateau is the
      whole circle; short of that it is the exact middle of the plateau. */
  lemma CentreOnPlateau(s: seq<real>, k: nat, thr: real, a: int, b: int)
    requires k < |s| && IsPlateau(s, k, thr, a, b)
    ensures var c := CentreBin((k - a) % |s|, (k + b) % |s|, |s|);
            && 0 <= c < |s| && s[c] >= thr
            && (BelowSomewhere(s, thr) ==> a + b + 1 < |s| && c == (k + (-a + (a + b) / 2)) % |s|)
  {
    if BelowSomewhere(s, thr) {
      PlateauLeavesAGap(s, k, thr, a, b);
      CentreOfGappedPlateau(k, |s|, a, b);
      assert Bin(s, k, -a + (a + b) / 2) >= thr;
    }
  }

  // ------------------------------------------------------------ the estimate

  /** The shifted spectrum's signed bin number. */
  function SignedBin(c: int, n: int): int {
    if c >= n / 2 then c - n else c
  }

  function BinHz(c: int, n: nat, rate: real): real
    requires n > 0
  {
    SignedBin(c, n) as real * rate / n as real
  }

  /** Three times the energy of an average window of `win` bins. */
  function Gate(total: real, n: nat, win: nat): real
    requires n > 0
  {
    total / n as real * win as real * PEAK_MARGIN
  }

  /** A hump of `win` bins has at least three times the energy of an average one. */
  ghost predicate StandsClear(hump: real, total: real, n: nat, win: nat) {
    hump * n as real >= 3.0 * (win as real * total)
  }

  /** Some hump of the spectrum has at least three times an average window's energy. */
  ghost predicate HasCarrier(p: seq<real>)
    requires p != []
  {
    var half := HalfWidth(|p|);
    Sum(p) > 0.0 && exists k | 0 <= k < |p| :: StandsClear(Hump(p, half, k), Sum(p), |p|, 2 * half + 1)
  }

  /** c is the centre of the plateau a bins left and b bins right of the first maximum k. */
  ghost predicate IsPlateauCentre(s: seq<real>, k: nat, a: int, b: int, c: int) {
    && FirstMaximum(s, k)
    && IsPlateau(s, k, s[k] * PLATEAU_FRACTION, a, b)
    && c == CentreBin((k - a) % |s|, (k + b) % |s|, |s|)
  }

  /** That plateau ends on both sides, and c is its exact middle. */
  ghost predicate IsPlateauMiddle(s: seq<real>, k: nat, a: int, b: int, c: int) {
    && FirstMaximum(s, k)
    && IsPlateau(s, k, s[k] * 0.999, a, b)
    && a + b + 1 < |s| && c == (k + (-a + (a + b) / 2)) % |s|
  }

  /** The offset is the frequency of bin c up to one sampling rate, and within the band. */
  ghost predicate InBandAlias(offset: real, c: int, n: nat, rate: real)
    requires n > 0
  {
    var f := c as real * rate / n as real;
    && (offset == f || offset == f - rate)
    && -rate / 2.0 <= offset < rate / 2.0
  }

  /** Frequencies a whole number of sampling rates apart look the same to the FFT; only
      one of them is in band. */
  lemma OneAliasInBand(offset: real, offset': real, m: int, rate: real)
    requires -rate / 2.0 <= offset < rate / 2.0 && -rate / 2.0 <= offset' < rate / 2.0
    requires offset' == offset + m as real * rate
    ensures m == 0 && offset' == offset
  {
    if m >= 1 {
      MulOrder(1.0, m as real, rate);
    } else if m <= -1 {
      MulOrder(m as real, -1.0, rate);
    }
  }

  /** The offset, in Hz, that the spectrum's carrier is reported at. */
  ghost predicate IsEstimate(p: seq<real>, rate: real, offset: real)
    requires p != []
  {
    exists k, a, b, c ::
      && IsPlateauMiddle(Smoothed(p, HalfWidth(|p|)), k, a, b, c)
      && InBandAlias(offset, c, |p|, rate)
  }

  // -------------------------------------- a detected plateau is never the circle

  /** The sum of the first m windows of a length, the first of which starts at lo. */
  function WindowSum(p: seq<real>, lo: int, len: nat, m: nat): real
    requires p != []
  {
    if m == 0 then 0.0 else WindowSum(p, lo, len, m - 1) + CircSum(p, lo + m - 1, len)
  }

  lemma {:induction false} LongerWindows(p: seq<real>, lo: int, len: nat, m: nat)
    requires p != [] && len > 0
    ensures WindowSum(p, lo, len, m) == WindowSum(p, lo, len - 1, m) + CircSum(p, lo + len - 1, m)
  {
    if m > 0 {
      LongerWindows(p, lo, len, m - 1);
    }
  }

  lemma {:induction false} OnceAround(p: seq<real>, m: nat)
    requires m <= |p| && p != []
    ensures CircSum(p, 0, m) == Sum(p[..m])
  {
    if m > 0 {
      OnceAround(p, m - 1);
      ModSmall(m - 1, |p|);
      assert p[..m][..m - 1] == p[..m - 1];
    }
  }

  /** Once around the circle is the whole power, wherever it starts. */
  lemma {:induction false} AroundFrom(p: seq<real>, lo: nat)
    requires p != []
    ensures CircSum(p, lo, |p|) == Sum(p)
  {
    if lo == 0 {
      OnceAround(p, |p|);
      assert p[..|p|] == p;
    } else {
      AroundFrom(p, lo - 1);
      CircSumHead(p, lo - 1, |p|);
      ModShift(lo - 1, |p|, 1);
    }
  }

  lemma Around(p: seq<real>, lo: int)
    requires p != []
    ensures CircSum(p, lo, |p|) == Sum(p)
  {
    AroundFrom(p, lo % |p|);
    ModSmall(lo % |p|, |p|);
    CircSumPeriodic(p, lo, lo % |p|, |p|);
  }

  lemma {:induction false} EmptyWindows(p: seq<real>, lo: int, m: nat)
    requires p != []
    ensures WindowSum(p, lo, 0, m) == 0.0
  {
    if m > 0 {
      EmptyWindows(p, lo, m - 1);
    }
  }

  /** The humps add up to the power times the window's width. */
  lemma {:induction false} HumpsTotal(p: seq<real>, lo: int, len: nat)
    requires p != []
    ensures WindowSum(p, lo, len, |p|) == len as real * Sum(p)
  {
    if len == 0 {
      EmptyWindows(p, lo, |p|);
    } else {
      HumpsTotal(p, lo, len - 1);
      LongerWindows(p, lo, len, |p|);
      Around(p, lo + len - 1);
      assert len as real * Sum(p) == (len - 1) as real * Sum(p) + Sum(p);
    }
  }

  lemma {:induction false} HumpsAtLeast(p: seq<real>, half: nat, thr: real, m: nat)
    requires p != [] && m <= |p| && forall k | 0 <= k < |p| :: Hump(p, half, k) >= thr
    ensures WindowSum(p, 0 - half, 2 * half + 1, m) >= m as real * thr
  {
    if m > 0 {
      HumpsAtLeast(p, half, thr, m - 1);
      assert Hump(p, half, m - 1) >= thr;
      assert m as real * thr == (m - 1) as real * thr + thr;
    }
  }

  /** Three means cannot all but fit in one. */
  lemma PeakAboveMean(total: real, n: nat, win: nat, best: real)
    requires total > 0.0 && n > 0 && win > 0 && best >= Gate(total, n, win)
    ensures n as real * (best * PLATEAU_FRACTION) > win as real * total
  {
    var mean := total / n as real;
    assert mean * n as real == total;
    var gate := Gate(total, n, win);
    var power := win as real * total;
    GateTimes(mean, n as real, win as real, total);
    assert gate * n as real == 3.0 * power;
    MulOrder(gate, best, n as real);
    assert power > 0.0;
    assert n as real * (best * PLATEAU_FRACTION) == best * n as real * PLATEAU_FRACTION;
  }

  lemma GateTimes(mean: real, n: real, win: real, total: real)
    requires mean * n == total
    ensures mean * win * PEAK_MARGIN * n == 3.0 * (win * total)
  {
    assert mean * win * PEAK_MARGIN * n == (mean * n) * win * PEAK_MARGIN;
  }

  lemma SomeHumpBelow(p: seq<real>, half: nat, thr: real)
    requires p != [] && |p| as real * thr > (2 * half + 1) as real * Sum(p)
    ensures exists i | 0 <= i < |p| :: Hump(p, half, i) < thr
  {
    HumpsTotal(p, 0 - half, 2 * half + 1);
    if forall i | 0 <= i < |p| :: Hump(p, half, i) >= thr {
      HumpsAtLeast(p, half, thr, |p|);
    }
  }

  lemma PeakLeavesRoom(p: seq<real>, half: nat, best: real, thr: real)
    requires p != [] && Sum(p) > 0.0 && thr == best * PLATEAU_FRACTION && best >= Gate(Sum(p), |p|, 2 * half + 1)
    ensures exists i | 0 <= i < |p| :: Hump(p, half, i) < thr
  {
    PeakAboveMean(Sum(p), |p|, 2 * half + 1, best);
    SomeHumpBelow(p, half, thr);
  }

  lemma DetectedPeak(p: seq<real>, k: nat)
    requires p != [] && HasCarrier(p) && FirstMaximum(Smoothed(p, HalfWidth(|p|)), k)
    ensures Sum(p) > 0.0
    ensures Hump(p, HalfWidth(|p|), k) >= Gate(Sum(p), |p|, 2 * HalfWidth(|p|) + 1)
  {
    var half, total := HalfWidth(|p|), Sum(p);
    var j :| 0 <= j < |p| && StandsClear(Hump(p, half, j), total, |p|, 2 * half + 1);
    var s := Smoothed(p, half);
    assert s[j] <= s[k];
    GateExactly(total, |p|, 2 * half + 1, Hump(p, half, j));
  }

  /** A detected carrier's spectrum falls below the plateau threshold somewhere. */
  lemma CarrierEnds(p: seq<real>, k: nat)
    requires p != [] && HasCarrier(p) && FirstMaximum(Smoothed(p, HalfWidth(|p|)), k)
    ensures BelowSomewhere(Smoothed(p, HalfWidth(|p|)), Smoothed(p, HalfWidth(|p|))[k] * PLATEAU_FRACTION)
  {
    var half := HalfWidth(|p|);
    var s := Smoothed(p, half);
    DetectedPeak(p, k);
    var thr := s[k] * PLATEAU_FRACTION;
    PeakLeavesRoom(p, half, s[k], thr);
    var i :| 0 <= i < |p| && Hump(p, half, i) < thr;
    assert s[i] < thr;
  }

  /** So the centre the code computes is the exact middle. */
  lemma CentreIsMiddle(p: seq<real>, k: nat, a: int, b: int, c: int)
    requires p != [] && HasCarrier(p) && IsPlateauCentre(Smoothed(p, HalfWidth(|p|)), k, a, b, c)
    ensures IsPlateauMiddle(Smoothed(p, HalfWidth(|p|)), k, a, b, c)
  {
    var s := Smoothed(p, HalfWidth(|p|));
    CarrierEnds(p, k);
    CentreOnPlateau(s, k, s[k] * PLATEAU_FRACTION, a, b);
  }

  function PowerOfTwo(e: nat): nat {
    if e == 0 then 1 else 2 * PowerOfTwo(e - 1)
  }

  ghost predicate IsPowerOfTwo(n: nat) {
    exists e: nat :: n == PowerOfTwo(e)
  }

  /** Largest power of two not above the window's length, capped at the probe size. */
  method FftSize(samples: nat) returns (n: nat)
    ensures 1 <= n <= 32768 && (samples >= 1 ==> n <= samples)
    ensures IsPowerOfTwo(n)
    ensures 2 * n > samples || 2 * n > 32768
  {
    n := 1;
    ghost var e: nat := 0;
    while n * 2 <= samples && n * 2 <= PROBE_SAMPLES
      invariant 1 <= n <= PROBE_SAMPLES && (samples >= 1 ==> n <= samples) && n == PowerOfTwo(e)
      decreases PROBE_SAMPLES - n
    {
      n, e := n * 2, e + 1;
    }
  }

  method TotalPower(power: array<real>) returns (total: real)
    ensures total == Sum(power[..])
  {
    total := 0.0;
    for k := 0 to power.Length
      invariant total == Sum(power[..k])
    {
      assert power[..k + 1][..k] == power[..k];
      total := total + power[k];
    }
    assert power[..power.Length] == power[..];
  }

  /** captureCarrierOffsetHz on the power spectrum of the window's first n samples. */
  method CaptureCarrierOffset(power: array<real>, rate: real) returns (offset: real, ok: bool)
    requires IsPowerOfTwo(power.Length) && power.Length > 0
    ensures ok <==> power.Length >= 1024 && rate > 0.0 && HasCarrier(power[..])
    ensures ok ==> IsEstimate(power[..], rate, offset) && 128 * HalfWidth(power.Length) == power.Length
    ensures !ok ==> offset == 0.0
  {
    var n := power.Length;
    if n < 1024 || rate <= 0.0 {
      return 0.0, false;
    }
    ghost var p := power[..];
    var total := TotalPower(power);
    if total <= 0.0 {
      return 0.0, false;
    }
    var win := n / 64;
    if win < 8 {
      win := 8;
    }
    var half := win / 2;
    win := 2 * half + 1;
    var smoothed, best, bestK := Smooth(power, half);
    ghost var s := smoothed[..];
    PowerOfTwoEven(n);
    HalfWidthExactly(n);
    if best < Gate(total, n, win) {
      forall k | 0 <= k < n
        ensures !StandsClear(Hump(p, half, k), total, n, win)
      {
        assert s[k] <= best;
        GateExactly(total, n, win, s[k]);
      }
      return 0.0, false;
    }
    assert Hump(p, half, bestK) == best;
    GateExactly(total, n, win, best);
    GatePositive(total, n, win);
    offset := PlateauOffset(smoothed, best, bestK, rate);
    ok := true;
    ghost var a, b, c :| IsPlateauCentre(s, bestK, a, b, c) && InBandAlias(offset, c, n, rate);
    CentreIsMiddle(p, bestK, a, b, c);
  }

  /** From the smoothed spectrum and its first maximum to the signed offset. */
  method PlateauOffset(smoothed: array<real>, best: real, bestK: nat, rate: real) returns (offset: real)
    requires FirstMaximum(smoothed[..], bestK) && best == smoothed[bestK] > 0.0 && rate > 0.0
    requires smoothed.Length % 2 == 0
    ensures exists a, b, c ::
              IsPlateauCentre(smoothed[..], bestK, a, b, c) && InBandAlias(offset, c, smoothed.Length, rate)
  {
    var n := smoothed.Length;
    var l, r := ExpandPlateau(smoothed, bestK, best * PLATEAU_FRACTION);
    ghost var a, b :| IsPlateau(smoothed[..], bestK, best * PLATEAU_FRACTION, a, b)
      && l == (bestK - a) % n && r == (bestK + b) % n;
    var width := Wrap(r - l, n);
    var centerK := (l + width / 2) % n;
    assert centerK == CentreBin((bestK - a) % n, (bestK + b) % n, n);
    assert IsPlateauCentre(smoothed[..], bestK, a, b, centerK);
    BinHzIsAlias(centerK, n, rate);
    return BinHz(centerK, n, rate);
  }

  lemma BinHzInBand(c: int, n: int, rate: real)
    requires 0 <= c < n && n % 2 == 0 && rate > 0.0
    ensures -rate / 2.0 <= BinHz(c, n, rate) < rate / 2.0
  {
    SignedBinRange(c, n);
    OffsetInBand(SignedBin(c, n), n, rate);
  }

  /** The signed bin's frequency is the bin's own, or that minus the sampling rate. */
  lemma BinHzIsAlias(c: int, n: nat, rate: real)
    requires 0 <= c < n && n % 2 == 0 && rate > 0.0
    ensures InBandAlias(BinHz(c, n, rate), c, n, rate)
  {
    BinHzInBand(c, n, rate);
    DivAssoc(c as real, rate, n as real);
    DivAssoc((c - n) as real, rate, n as real);
    var x := rate / n as real;
    assert (c - n) as real * x == c as real * x - n as real * x;
  }

  /** The noise gate without its divisions. */
  lemma GateExactly(total: real, n: nat, win: nat, x: real)
    requires n > 0
    ensures x >= Gate(total, n, win) <==> StandsClear(x, total, n, win)
  {
    var gate := Gate(total, n, win);
    GateTimes(total / n as real, n as real, win as real, total);
    if x >= gate {
      MulOrder(gate, x, n as real);
    } else {
      MulOrder(x, gate, n as real);
    }
  }

  lemma {:induction false} PowerOfTwoMonotone(e: nat, f: nat)
    requires e <= f
    ensures PowerOfTwo(e) <= PowerOfTwo(f)
  {
    if e < f {
      PowerOfTwoMonotone(e, f - 1);
    }
  }

  lemma SevenTimesDoubled(e: nat)
    ensures PowerOfTwo(e + 7) == 128 * PowerOfTwo(e)
  {
    assert PowerOfTwo(e + 2) == 2 * PowerOfTwo(e + 1) == 4 * PowerOfTwo(e);
    assert PowerOfTwo(e + 4) == 2 * PowerOfTwo(e + 3) == 4 * PowerOfTwo(e + 2);
    assert PowerOfTwo(e + 6) == 2 * PowerOfTwo(e + 5) == 4 * PowerOfTwo(e + 4);
  }

  /** From 1024 bins on the half-width is exactly a 128th of the bins. */
  lemma HalfWidthExactly(n: nat)
    requires n >= 1024 && IsPowerOfTwo(n)
    ensures 128 * HalfWidth(n) == n
  {
    var e: nat :| n == PowerOfTwo(e);
    SevenTimesDoubled(2);
    PowerOfTwoMonotone(if e < 9 then e else 9, 9);
    SevenTimesDoubled(e - 7);
  }

  lemma GatePositive(total: real, n: nat, win: nat)
    requires total > 0.0 && n > 0 && win > 0
    ensures Gate(total, n, win) > 0.0
  {
    var mean := total / n as real;
    assert mean > 0.0;
    assert mean * win as real > 0.0;
  }

  lemma OffsetInBand(f: int, n: int, rate: real)
    requires n > 0 && rate > 0.0 && -n <= 2 * f < n
    ensures -rate / 2.0 <= f as real * rate / n as real < rate / 2.0
  {
    var x := rate / n as real;
    MulOrder(-n as real, 2.0 * f as real, x);
    MulOrder(2.0 * f as real, n as real, x);
    DivAssoc(f as real, rate, n as real);
    assert n as real * x == rate;
  }

  lemma MulOrder(x: real, y: real, f: real)
    requires f > 0.0
    ensures x <= y ==> x * f <= y * f
    ensures x < y ==> x * f < y * f
  {
    if x < y {
      assert (y - x) * f > 0.0;
    }
  }

  lemma DivAssoc(f: real, rate: real, n: real)
    requires n > 0.0
    ensures f * rate / n == f * (rate / n)
  {
    var y, z := f * rate / n, f * (rate / n);
    assert z * n == f * (rate / n * n);
    assert (y - z) * n == 0.0;
  }

  /** The reported bin is on the plateau: its smoothed power is within a
      thousandth of the maximum, whatever the spectrum looks like. */
  lemma ReportedBinIsNearPeak(s: seq<real>, k: nat, a: int, b: int, c: int)
    requires IsPlateauCentre(s, k, a, b, c)
    ensures 0 <= c < |s| && s[c] >= s[k] * 0.999
  {
    CentreOnPlateau(s, k, s[k] * PLATEAU_FRACTION, a, b);
  }

  lemma SignedBinRange(c: int, n: int)
    requires 0 <= c < n && n % 2 == 0
    ensures -n <= 2 * SignedBin(c, n) < n
  {
  }

  lemma PowerOfTwoEven(n: nat)
    requires n >= 2 && IsPowerOfTwo(n)
    ensures n % 2 == 0
  {
    var e: nat :| n == PowerOfTwo(e);
  }

  // --------------------------------------------- what the estimate recovers

  /** The bins to the left of c mirror those to its right. */
  ghost predicate SymmetricAbout(p: seq<real>, c: int)
    requires p != []
  {
    forall d: int :: Bin(p, c, d) == Bin(p, c, -d)
  }

  lemma {:induction false} CircSumMirror(p: seq<real>, c: int, x: int, len: nat)
    requires p != [] && SymmetricAbout(p, c)
    ensures CircSum(p, c + x, len) == CircSum(p, c - x - len + 1, len)
  {
    if len > 0 {
      CircSumMirror(p, c, x, len - 1);
      CircSumHead(p, c - x - len + 1, len);
      assert At(p, c + x + len - 1) == Bin(p, c, x + len - 1);
      assert At(p, c - x - len + 1) == Bin(p, c, -(x + len - 1));
    }
  }

  lemma {:induction false} CircSumPeriodic(p: seq<real>, lo: int, lo': int, len: nat)
    requires p != [] && lo % |p| == lo' % |p|
    ensures CircSum(p, lo, len) == CircSum(p, lo', len)
  {
    if len > 0 {
      CircSumPeriodic(p, lo, lo', len - 1);
      ModCongruent(lo, lo', len - 1, |p|);
    }
  }

  lemma SmoothedBin(p: seq<real>, half: nat, c: int, d: int)
    requires p != []
    ensures Bin(Smoothed(p, half), c, d) == Hump(p, half, c + d)
  {
    var k := (c + d) % |p|;
    ModSmall(k, |p|);
    ModCongruent(k, c + d, 0 - half, |p|);
    CircSumPeriodic(p, k - half, c + d - half, 2 * half + 1);
  }

  lemma SmoothedSymmetric(p: seq<real>, half: nat, c: int)
    requires p != [] && SymmetricAbout(p, c)
    ensures SymmetricAbout(Smoothed(p, half), c)
  {
    forall d: int
      ensures Bin(Smoothed(p, half), c, d) == Bin(Smoothed(p, half), c, -d)
    {
      SmoothedBin(p, half, c, d);
      SmoothedBin(p, half, c, -d);
      CircSumMirror(p, c, d - half, 2 * half + 1);
    }
  }

  /** A plateau of a spectrum symmetric about one of its own bins is centred there. */
  lemma PlateauCentredOn(s: seq<real>, k: nat, thr: real, a: int, b: int, e: int)
    requires k < |s| && IsPlateau(s, k, thr, a, b) && a + b + 1 < |s|
    requires -a <= e <= b && SymmetricAbout(s, k + e)
    ensures -a + (a + b) / 2 == e
  {
    assert Bin(s, k + e, -(a + e) - 1) == Bin(s, k, -a - 1);
    assert Bin(s, k + e, -(-(a + e) - 1)) == Bin(s, k, a + 2 * e + 1);
    assert Bin(s, k + e, (b - e) + 1) == Bin(s, k, b + 1);
    assert Bin(s, k + e, -((b - e) + 1)) == Bin(s, k, 2 * e - b - 1);
    assert a + 2 * e + 1 > b;
    assert 2 * e - b - 1 < -a;
  }

  lemma SymmetricShift(s: seq<real>, c: nat, c': int)
    requires c < |s| && SymmetricAbout(s, c) && c' % |s| == c
    ensures SymmetricAbout(s, c')
  {
    ModSmall(c, |s|);
    forall d: int
      ensures Bin(s, c', d) == Bin(s, c', -d)
    {
      ModCongruent(c', c, d, |s|);
      ModCongruent(c', c, -d, |s|);
      assert Bin(s, c, d) == Bin(s, c, -d);
    }
  }

  /** Every bin from k to k+e reaches thr. */
  ghost predicate ReachesFrom(s: seq<real>, k: int, thr: real, e: int)
    requires s != []
  {
    forall d | (0 <= d <= e) || (e <= d <= 0) :: Bin(s, k, d) >= thr
  }

  /** Bin c belongs to the same hump as the maximum at k. */
  ghost predicate OneHumpWith(s: seq<real>, k: nat, c: nat)
    requires k < |s|
  {
    var thr := s[k] * PLATEAU_FRACTION;
    exists e :: ReachesFrom(s, k, thr, e) && (k + e) % |s| == c && -|s| < e < |s|
  }

  lemma ReachedBinsAreInPlateau(s: seq<real>, k: nat, thr: real, a: int, b: int, e: int)
    requires k < |s| && IsPlateau(s, k, thr, a, b) && ReachesFrom(s, k, thr, e) && -|s| < e < |s|
    ensures -a <= e <= b
  {
  }

  lemma CentreOfSymmetricHump(s: seq<real>, k: nat, a: int, b: int, c: nat, c': int)
    requires IsPlateauMiddle(s, k, a, b, c') && c < |s| && SymmetricAbout(s, c) && OneHumpWith(s, k, c)
    ensures c' == c
  {
    var thr := s[k] * PLATEAU_FRACTION;
    var e :| ReachesFrom(s, k, thr, e) && (k + e) % |s| == c && -|s| < e < |s|;
    ReachedBinsAreInPlateau(s, k, thr, a, b, e);
    SymmetricShift(s, c, k + e);
    PlateauCentredOn(s, k, thr, a, b, e);
  }

  /** The estimate lands on the channel's middle: for a spectrum symmetric about
      bin c whose smoothed hump stays over the plateau threshold from its first
      maximum to c, the reported offset is exactly the in-band frequency of bin c. */
  lemma SymmetricCarrierIsExact(p: seq<real>, rate: real, offset: real, c: nat)
    requires c < |p| && SymmetricAbout(p, c) && IsEstimate(p, rate, offset)
    requires forall k :: FirstMaximum(Smoothed(p, HalfWidth(|p|)), k) ==> OneHumpWith(Smoothed(p, HalfWidth(|p|)), k, c)
    ensures InBandAlias(offset, c, |p|, rate)
  {
    var s := Smoothed(p, HalfWidth(|p|));
    SmoothedSymmetric(p, HalfWidth(|p|), c);
    var k, a, b, c' :| IsPlateauMiddle(s, k, a, b, c') && InBandAlias(offset, c', |p|, rate);
    CentreOfSymmetricHump(s, k, a, b, c, c');
  }

  /** A pure tone: all the power is in bin t. */
  ghost predicate IsTone(p: seq<real>, t: nat) {
    t < |p| && p[t] > 0.0 && forall k | 0 <= k < |p| && k != t :: p[k] == 0.0
  }

  lemma {:induction false} ToneWindow(p: seq<real>, t: nat, lo: int, len: nat)
    requires IsTone(p, t) && len <= |p|
    ensures CircSum(p, lo, len) == if (t - lo) % |p| < len then p[t] else 0.0
  {
    if len > 0 {
      ToneWindow(p, t, lo, len - 1);
      ModSmall(len - 1, |p|);
      ModSmall(t, |p|);
      if (lo + len - 1) % |p| == t {
        ModCongruent(lo + len - 1, t, -lo, |p|);
      }
      if (t - lo) % |p| == len - 1 {
        ModCongruent(t - lo, len - 1, lo, |p|);
      }
    }
  }

  lemma ToneBin(p: seq<real>, t: nat, half: nat, k: int, d: int)
    requires IsTone(p, t) && 2 * half + 1 < |p|
    ensures Bin(Smoothed(p, half), k, d) == if (t - k - d + half) % |p| <= 2 * half then p[t] else 0.0
  {
    SmoothedBin(p, half, k, d);
    ToneWindow(p, t, k + d - half, 2 * half + 1);
  }

  lemma ToneIsSymmetric(p: seq<real>, t: nat)
    requires IsTone(p, t)
    ensures SymmetricAbout(p, t)
  {
    ModSmall(t, |p|);
    forall d: int
      ensures Bin(p, t, d) == Bin(p, t, -d)
    {
      if (t + d) % |p| == t {
        ModCongruent(t + d, t, t - (t + d), |p|);
        ModCongruent(t + d, t, 2 * t, |p|);
      }
      if (t - d) % |p| == t {
        ModCongruent(t - d, t, 2 * t, |p|);
      }
    }
  }

  lemma ToneHump(p: seq<real>, t: nat, half: nat, k: nat)
    requires IsTone(p, t) && 2 * half + 1 < |p| && FirstMaximum(Smoothed(p, half), k)
    ensures OneHumpWith(Smoothed(p, half), k, t)
  {
    var s := Smoothed(p, half);
    ModSmall(half, |p|);
    ModSmall(t, |p|);
    ModSmall(k, |p|);
    ToneBin(p, t, half, t, 0);
    ToneBin(p, t, half, k, 0);
    assert Bin(s, t, 0) == s[t] == p[t];
    assert Bin(s, k, 0) == s[k] == p[t];
    var q := (t - k + half) % |p|;
    var e := q - half;
    ModAdd(t - k + half, k - half, |p|);
    assert (k + e) % |p| == t;
    var thr := s[k] * PLATEAU_FRACTION;
    forall d | (0 <= d <= e) || (e <= d <= 0)
      ensures Bin(s, k, d) >= thr
    {
      ToneBin(p, t, half, k, d);
      ModAdd(t - k + half, -d, |p|);
      ModSmall(q - d, |p|);
    }
    assert ReachesFrom(s, k, thr, e);
  }

  lemma {:induction false} ToneSum(p: seq<real>, t: nat, m: nat)
    requires IsTone(p, t) && m <= |p|
    ensures Sum(p[..m]) == if t < m then p[t] else 0.0
  {
    if m > 0 {
      ToneSum(p, t, m - 1);
      assert p[..m][..m - 1] == p[..m - 1];
    }
  }

  /** A tone is always detected and its frequency recovered exactly, in every bin. */
  lemma ToneIsExact(p: seq<real>, rate: real, t: nat)
    requires |p| >= 1024 && IsTone(p, t)
    ensures HasCarrier(p)
    ensures forall offset :: IsEstimate(p, rate, offset) ==> InBandAlias(offset, t, |p|, rate)
  {
    var half := HalfWidth(|p|);
    ToneSum(p, t, |p|);
    assert p[..|p|] == p;
    ModSmall(half, |p|);
    ToneBin(p, t, half, t, 0);
    ModSmall(t, |p|);
    assert Hump(p, half, t) == p[t];
    GateOfTone(p[t], |p|, 2 * half + 1);
    GateExactly(p[t], |p|, 2 * half + 1, p[t]);
    ToneIsSymmetric(p, t);
    forall k | FirstMaximum(Smoothed(p, half), k)
      ensures OneHumpWith(Smoothed(p, half), k, t)
    {
      ToneHump(p, t, half, k);
    }
    forall offset | IsEstimate(p, rate, offset)
      ensures InBandAlias(offset, t, |p|, rate)
    {
      SymmetricCarrierIsExact(p, rate, offset, t);
    }
  }

  lemma GateOfTone(power: real, n: nat, win: nat)
    requires power > 0.0 && n > 0 && 3 * win <= n
    ensures Gate(power, n, win) <= power
  {
    var mean := power / n as real;
    assert mean * n as real == power;
    MulOrder(3.0 * win as real, n as real, mean);
    assert Gate(power, n, win) == mean * (3.0 * win as real);
  }
}
