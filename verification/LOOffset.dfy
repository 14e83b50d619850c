/** The conventional scanner's LO offset, cmd/gophertrunk/conv_offset.go: how far each
    front-end product stays outside the channel, and the search for the offset that
    keeps the nearest one furthest away. Frequencies are real numbers of hertz. */
module LOOffset {
  import opened Wrappers

  const MinHz: real := 150000.0
  const MaxFrac: real := 0.35
  const StepHz: real := 1000.0
  const MaxOrder: nat := 6
  const DevHz: real := 5000.0
  const ChanHalfHz: real := 12500.0

  function Abs(x: real): real {
    if x < 0.0 then -x else x
  }

  function Min(x: real, y: real): real {
    if x < y then x else y
  }

  // ------------------------------------------------------------------ wrapping

  /** math.Mod: the remainder has the sign of f. */
  function Mod(f: real, fs: real): real
    requires fs > 0.0
  {
    if f >= 0.0 then f - fs * ((f / fs).Floor as real) else -(-f - fs * ((-f / fs).Floor as real))
  }

  /** wrapHz. */
  function Wrap(f: real, fs: real): real
    requires fs > 0.0
  {
    var g := Mod(f, fs);
    if g > fs / 2.0 then g - fs else if g <= -fs / 2.0 then g + fs else g
  }

  /** The alias of f that lies m sample rates away. */
  function Alias(f: real, fs: real, m: int): real {
    f + m as real * fs
  }

  lemma Distribute(x: real, y: real, c: real)
    ensures (x - y) * c == x * c - c * y
  {
  }

  lemma ScaleUp(d: real, c: real, r: real)
    requires c > 0.0 && r == d * c
    ensures d >= 0.0 ==> r >= 0.0
    ensures d > 0.0 ==> r > 0.0
  {
  }

  /** The quotient's floor leaves a remainder below the divisor. */
  lemma Between(x: real, q: real, f: real, fs: real)
    requires fs > 0.0 && q <= x < q + 1.0 && x * fs == f
    ensures 0.0 <= f - fs * q < fs
  {
    var r := f - fs * q;
    Distribute(x, q, fs);
    ScaleUp(x - q, fs, r);
    Distribute(1.0, x - q, fs);
    ScaleUp(1.0 - (x - q), fs, fs - r);
  }

  lemma FloorRemainder(f: real, fs: real)
    requires fs > 0.0
    ensures 0.0 <= f - fs * ((f / fs).Floor as real) < fs
  {
    Between(f / fs, (f / fs).Floor as real, f, fs);
  }

  /** math.Mod yields an alias less than a sample rate from zero. */
  lemma ModIsAlias(f: real, fs: real) returns (m: int)
    requires fs > 0.0
    ensures Mod(f, fs) == Alias(f, fs, m) && -fs < Mod(f, fs) < fs
  {
    var a := if f >= 0.0 then f else -f;
    FloorRemainder(a, fs);
    var q := (a / fs).Floor;
    m := if f >= 0.0 then -q else q;
    assert (-q) as real * fs == -(fs * q as real);
  }

  /** Wrapping picks an alias within half a sample rate. */
  lemma WrapIsAlias(f: real, fs: real) returns (m: int)
    requires fs > 0.0
    ensures Wrap(f, fs) == Alias(f, fs, m)
    ensures -fs / 2.0 < Wrap(f, fs) <= fs / 2.0
  {
    m := ModIsAlias(f, fs);
    var g := Mod(f, fs);
    if g > fs / 2.0 {
      OneFurther(f, fs, m, -1);
      m := m - 1;
    } else if g <= -fs / 2.0 {
      OneFurther(f, fs, m, 1);
      m := m + 1;
    }
  }

  lemma OneFurther(f: real, fs: real, m: int, d: int)
    ensures Alias(f, fs, m + d) == Alias(Alias(f, fs, m), fs, d)
  {
    assert (m + d) as real == m as real + d as real;
  }

  lemma MultipleFar(fs: real, d: int)
    requires fs > 0.0 && d != 0
    ensures Abs(d as real * fs) >= fs
  {
    if d > 0 {
      assert (d as real - 1.0) * fs >= 0.0;
    } else {
      assert (-(d as real) - 1.0) * fs >= 0.0;
    }
  }

  lemma FarStaysFar(w: real, x: real, fs: real)
    requires Abs(x) >= fs && Abs(w) <= fs / 2.0
    ensures Abs(w) <= Abs(w + x)
  {
  }

  /** |wrapHz(f)| is the distance from f to the nearest multiple of the sample rate. */
  lemma WrapIsDistance(f: real, fs: real)
    requires fs > 0.0
    ensures forall m: int :: Abs(Wrap(f, fs)) <= Abs(Alias(f, fs, m))
    ensures exists m: int :: Abs(Wrap(f, fs)) == Abs(Alias(f, fs, m))
  {
    var q := WrapIsAlias(f, fs);
    forall m: int
      ensures Abs(Wrap(f, fs)) <= Abs(Alias(f, fs, m))
    {
      var d := m - q;
      OneFurther(f, fs, q, d);
      assert Alias(f, fs, m) == Wrap(f, fs) + d as real * fs;
      if d != 0 {
        MultipleFar(fs, d);
        FarStaysFar(Wrap(f, fs), d as real * fs, fs);
      }
    }
  }

  lemma AliasOfNegative(f: real, fs: real, m: int)
    ensures Alias(-f, fs, -m) == -Alias(f, fs, m)
  {
    assert (-m) as real == -(m as real);
  }

  /** Wrapping is even in magnitude, so one sign of every product is enough to check. */
  lemma WrapIsEven(f: real, fs: real)
    requires fs > 0.0
    ensures Abs(Wrap(-f, fs)) == Abs(Wrap(f, fs))
  {
    WrapNotAbove(f, fs);
    WrapNotAbove(-f, fs);
  }

  lemma WrapNotAbove(f: real, fs: real)
    requires fs > 0.0
    ensures Abs(Wrap(-f, fs)) <= Abs(Wrap(f, fs))
  {
    var m := WrapIsAlias(f, fs);
    AliasOfNegative(f, fs, m);
    WrapIsDistance(-f, fs);
  }

  // ----------------------------------------------------------------- clearance

  /** The local function clear. */
  function Clear(f: real, spread: real, fs: real): real
    requires fs > 0.0
  {
    Abs(Wrap(f, fs)) - ChanHalfHz - spread
  }

  /** The front-end products, by number: the DC spur, the image and the clipping
      products of order k = 1 to 6, with the extent of their modulation. */
  const Products: nat := MaxOrder + 2

  function ProductHz(off: real, i: nat): real {
    if i == 0 then off else if i == 1 then 2.0 * off else (4 * (i - 1)) as real * off
  }

  function Extent(i: nat): (e: real)
    ensures e >= 0.0
  {
    if i == 0 then 0.0 else if i == 1 then DevHz else (4 * (i - 1) + 1) as real * DevHz
  }

  function ProductClear(off: real, fs: real, i: nat): real
    requires fs > 0.0
  {
    Clear(ProductHz(off, i), Extent(i), fs)
  }

  function ProductClears(off: real, fs: real): (c: seq<real>)
    requires fs > 0.0
    ensures |c| == Products && forall i: nat | i < Products :: c[i] == ProductClear(off, fs, i)
  {
    seq(Products, i requires 0 <= i < Products => ProductClear(off, fs, i))
  }

  /** The least of the first n values. */
  function Least(c: seq<real>, n: nat): real
    requires 0 < n <= |c|
  {
    if n == 1 then c[0] else Min(Least(c, n - 1), c[n - 1])
  }

  function Clearance(off: real, fs: real): real
    requires fs > 0.0
  {
    Least(ProductClears(off, fs), Products)
  }

  /** loOffsetClearanceHz. */
  method LoOffsetClearanceHz(off: real, fs: real) returns (score: real)
    requires fs > 0.0
    ensures score == Clearance(off, fs)
  {
    ghost var clears := ProductClears(off, fs);
    score := Clear(off, 0.0, fs);
    assert score == clears[0];
    assert clears[1] == Clear(2.0 * off, DevHz, fs);
    score := Min(score, Clear(2.0 * off, DevHz, fs));
    for k := 1 to MaxOrder + 1
      invariant score == Least(clears, k + 1)
    {
      var spread := (4 * k + 1) as real * DevHz;
      assert clears[k + 1] == Clear((4 * k) as real * off, spread, fs);
      score := Min(score, Clear((4 * k) as real * off, spread, fs));
    }
  }

  lemma {:induction false} LeastIsLeast(c: seq<real>, n: nat)
    requires 0 < n <= |c|
    ensures forall i | 0 <= i < n :: Least(c, n) <= c[i]
    ensures exists i | 0 <= i < n :: Least(c, n) == c[i]
  {
    if n > 1 {
      LeastIsLeast(c, n - 1);
      var i :| 0 <= i < n - 1 && Least(c, n - 1) == c[i];
      assert Least(c, n) == c[i] || Least(c, n) == c[n - 1];
    } else {
      assert Least(c, n) == c[0];
    }
  }

  /** The clearance is the least over all products. */
  lemma ClearanceIsLeast(off: real, fs: real) returns (i: nat)
    requires fs > 0.0
    ensures i < Products && Clearance(off, fs) == ProductClear(off, fs, i)
    ensures forall j: nat | j < Products :: Clearance(off, fs) <= ProductClear(off, fs, j)
  {
    var clears := ProductClears(off, fs);
    LeastIsLeast(clears, Products);
    i :| 0 <= i < Products && Least(clears, Products) == clears[i];
    forall j: nat | j < Products
      ensures Clearance(off, fs) <= ProductClear(off, fs, j)
    {
      assert clears[j] == ProductClear(off, fs, j);
    }
  }

  predicate InChannel(f: real) {
    -ChanHalfHz <= f <= ChanHalfHz
  }

  /** No part of a product centred there reaches into the channel. */
  ghost predicate Misses(centre: real, spread: real) {
    forall f :: InChannel(f) ==> Abs(f - centre) > spread
  }

  lemma MissesByDistance(centre: real, spread: real)
    requires spread >= 0.0
    ensures Misses(centre, spread) <==> Abs(centre) > ChanHalfHz + spread
  {
    var near := if centre > ChanHalfHz then ChanHalfHz else if centre < -ChanHalfHz then -ChanHalfHz else centre;
    assert InChannel(near);
    if Misses(centre, spread) {
      assert Abs(near - centre) > spread;
    }
  }

  ghost predicate BothSidesMiss(off: real, fs: real, i: nat, m: int) {
    Misses(Alias(ProductHz(off, i), fs, m), Extent(i)) && Misses(Alias(-ProductHz(off, i), fs, m), Extent(i))
  }

  /** Every alias of every product, on either side, stays out of the channel. */
  ghost predicate ClipSafe(off: real, fs: real) {
    forall i: nat, m: int | i < Products :: BothSidesMiss(off, fs, i, m)
  }

  /** A positive clearance means exactly that. */
  lemma PositiveClearanceIsClipSafe(off: real, fs: real)
    requires fs > 0.0
    ensures Clearance(off, fs) > 0.0 <==> ClipSafe(off, fs)
  {
    var least := ClearanceIsLeast(off, fs);
    if Clearance(off, fs) > 0.0 {
      forall i: nat, m: int | i < Products
        ensures BothSidesMiss(off, fs, i, m)
      {
        assert ProductClear(off, fs, i) > 0.0;
        AliasesMiss(ProductHz(off, i), Extent(i), fs, m);
        WrapIsEven(ProductHz(off, i), fs);
        AliasesMiss(-ProductHz(off, i), Extent(i), fs, m);
      }
    }
    if ClipSafe(off, fs) {
      SafeProductClears(off, fs, least);
    }
  }

  lemma SafeProductClears(off: real, fs: real, i: nat)
    requires fs > 0.0 && i < Products && ClipSafe(off, fs)
    ensures ProductClear(off, fs, i) > 0.0
  {
    var m := WrapIsAlias(ProductHz(off, i), fs);
    assert BothSidesMiss(off, fs, i, m);
    MissesByDistance(Wrap(ProductHz(off, i), fs), Extent(i));
  }

  lemma AliasesMiss(f: real, spread: real, fs: real, m: int)
    requires fs > 0.0 && spread >= 0.0 && Clear(f, spread, fs) > 0.0
    ensures Misses(Alias(f, fs, m), spread)
  {
    WrapIsDistance(f, fs);
    MissesByDistance(Alias(f, fs, m), spread);
  }

  // -------------------------------------------------------- the worst choice

  lemma MultiplesWrapToZero(fs: real, m: int)
    requires fs > 0.0
    ensures Abs(Wrap(m as real * fs, fs)) == 0.0
  {
    WrapIsDistance(m as real * fs, fs);
    AliasToZero(fs, m);
  }

  lemma AliasToZero(fs: real, m: int)
    ensures Alias(m as real * fs, fs, -m) == 0.0
  {
    assert (-m) as real == -(m as real);
  }

  lemma ProductClearAtLeast(off: real, fs: real, i: nat)
    requires fs > 0.0 && i < Products
    ensures ProductClear(off, fs, i) >= -137500.0
  {
    assert Extent(i) <= 125000.0;
  }

  /** A quarter of the sample rate has the least clearance there is: its sixth clipping
      product falls on the middle of the channel. */
  lemma QuarterIsWorst(off: real, fs: real)
    requires fs > 0.0
    ensures Clearance(fs / 4.0, fs) == -137500.0 <= Clearance(off, fs)
  {
    var i := ClearanceIsLeast(off, fs);
    ProductClearAtLeast(off, fs, i);
    QuarterHits(fs);
  }

  lemma QuarterHits(fs: real)
    requires fs > 0.0
    ensures Clearance(fs / 4.0, fs) == -137500.0
  {
    var i := ClearanceIsLeast(fs / 4.0, fs);
    ProductClearAtLeast(fs / 4.0, fs, i);
    SixthProductOnChannel(fs);
  }

  lemma SixthProductOnChannel(fs: real)
    requires fs > 0.0
    ensures ProductClear(fs / 4.0, fs, 7) == -137500.0
  {
    assert ProductHz(fs / 4.0, 7) == 24.0 * (fs / 4.0) == 6.0 * fs;
    MultiplesWrapToZero(fs, 6);
    assert 6 as real * fs == 6.0 * fs;
    assert Extent(7) == 125000.0;
  }

  // ------------------------------------------------------------------ the search

  function GridHz(i: nat): real {
    MinHz + i as real * StepHz
  }

  /** The smallest grid offset of the greatest clearance, or 0 when the grid is empty. */
  ghost predicate IsPick(fs: real, best: real) {
    if fs <= 0.0 || MaxFrac * fs < MinHz then best == 0.0
    else exists i: nat :: best == GridHz(i) && IsBestUpTo(fs, i, MaxFrac * fs)
  }

  ghost predicate IsBestUpTo(fs: real, i: nat, maxHz: real)
    requires fs > 0.0
  {
    && GridHz(i) <= maxHz
    && (forall j: nat | GridHz(j) <= maxHz :: Clearance(GridHz(j), fs) <= Clearance(GridHz(i), fs))
    && (forall j: nat | j < i :: Clearance(GridHz(j), fs) < Clearance(GridHz(i), fs))
  }

  /** pickClipSafeLOOffsetHz. */
  method PickClipSafeLOOffsetHz(fs: real) returns (best: real)
    ensures IsPick(fs, best)
  {
    var maxOff := MaxFrac * fs;
    if fs <= 0.0 || maxOff < MinHz {
      return 0.0;
    }
    // No score yet stands for the initial minus infinity.
    best := 0.0;
    var bestScore: Option<real> := None;
    ghost var at, n := 0, 0;
    var off := MinHz;
    while off <= maxOff
      invariant off == GridHz(n)
      invariant bestScore == None <==> n == 0
      invariant n > 0 ==> at < n && best == GridHz(at) <= maxOff && bestScore == Some(Clearance(best, fs))
      invariant n > 0 ==> forall j: nat | j < n :: Clearance(GridHz(j), fs) <= bestScore.value
      invariant n > 0 ==> forall j: nat | j < at :: Clearance(GridHz(j), fs) < bestScore.value
      decreases maxOff - off
    {
      var s := LoOffsetClearanceHz(off, fs);
      if bestScore == None || s > bestScore.value {
        best, bestScore := off, Some(s);
        at := n;
      }
      off := off + StepHz;
      n := n + 1;
    }
    forall j: nat | GridHz(j) <= maxOff
      ensures j < n
    {
    }
    assert IsBestUpTo(fs, at, maxOff);
  }

  // ------------------------------------------- at which rates the search succeeds

  /** The band of half-width c around f lies between two neighbouring multiples of fs. */
  predicate Apart(f: real, c: real, fs: real, m: int) {
    m as real * fs < f - c && f + c < (m + 1) as real * fs
  }

  lemma MultipleOrder(a: int, b: int, fs: real)
    requires a <= b && fs > 0.0
    ensures a as real * fs <= b as real * fs
  {
    var d := b as real - a as real;
    ScaleUp(d, fs, d * fs);
    Distribute(b as real, a as real, fs);
  }

  lemma NegatedMultiple(m: int, fs: real)
    ensures (-m) as real * fs == -(m as real * fs)
  {
    assert (-m) as real == -(m as real);
  }

  lemma AliasApart(f: real, c: real, fs: real, m: int, k: int)
    requires fs > 0.0 && Apart(f, c, fs, m)
    ensures Abs(Alias(f, fs, k)) > c
  {
    if k >= -m {
      MultipleOrder(-m, k, fs);
      NegatedMultiple(m, fs);
    } else {
      MultipleOrder(k, -(m + 1), fs);
      NegatedMultiple(m + 1, fs);
    }
  }

  lemma ApartIsClear(f: real, spread: real, fs: real, m: int)
    requires fs > 0.0 && Apart(f, ChanHalfHz + spread, fs, m)
    ensures Clear(f, spread, fs) > 0.0
  {
    var k := WrapIsAlias(f, fs);
    AliasApart(f, ChanHalfHz + spread, fs, m, k);
  }

  predicate ProductApart(off: real, fs: real, i: nat, m: int) {
    Apart(ProductHz(off, i), ChanHalfHz + Extent(i), fs, m)
  }

  /** The eight products in numbers. */
  lemma ProductInNumbers(off: real, i: nat)
    requires i < 8
    ensures ProductHz(off, i)
            == [off, 2.0 * off, 4.0 * off, 8.0 * off, 12.0 * off, 16.0 * off, 20.0 * off, 24.0 * off][i]
    ensures Extent(i) == [0.0, 5000.0, 25000.0, 45000.0, 65000.0, 85000.0, 105000.0, 125000.0][i]
  {
  }

  /** An offset is clear when each product lies between two neighbouring multiples. */
  lemma AllApartIsClear(off: real, fs: real, m: seq<int>)
    requires fs > 0.0 && |m| == 8
    requires forall i: nat | i < 8 :: ProductApart(off, fs, i, m[i])
    ensures Clearance(off, fs) > 0.0
  {
    var i := ClearanceIsLeast(off, fs);
    assert ProductApart(off, fs, i, m[i]);
    ApartIsClear(ProductHz(off, i), Extent(i), fs, m[i]);
  }

  /** Some grid offset keeps all products out of the channel. */
  ghost predicate SomeClear(fs: real)
    requires fs > 0.0
  {
    exists i: nat :: GridHz(i) <= MaxFrac * fs && Clearance(GridHz(i), fs) > 0.0
  }

  lemma Witness(fs: real, i: nat, off: real, m0: int, m1: int, m2: int, m3: int, m4: int, m5: int, m6: int, m7: int)
    requires fs > 0.0 && off == GridHz(i) && off <= MaxFrac * fs
    requires Apart(off, 12500.0, fs, m0) && Apart(2.0 * off, 17500.0, fs, m1)
    requires Apart(4.0 * off, 37500.0, fs, m2) && Apart(8.0 * off, 57500.0, fs, m3)
    requires Apart(12.0 * off, 77500.0, fs, m4) && Apart(16.0 * off, 97500.0, fs, m5)
    requires Apart(20.0 * off, 117500.0, fs, m6) && Apart(24.0 * off, 137500.0, fs, m7)
    ensures SomeClear(fs)
  {
    var m := [m0, m1, m2, m3, m4, m5, m6, m7];
    forall j: nat | j < 8
      ensures ProductApart(off, fs, j, m[j])
    {
      ProductInNumbers(off, j);
    }
    AllApartIsClear(off, fs, m);
  }

  lemma HighRatesClear(fs: real)
    requires fs >= 1435000.0
    ensures SomeClear(fs)
  {
    if fs >= 3740000.0 {
      Witness(fs, 0, 150000.0, 0, 0, 0, 0, 0, 0, 0, 0);
    } else if fs >= 2958000.0 {
      Witness(fs, 90, 240000.0, 0, 0, 0, 0, 0, 1, 1, 1);
    } else if fs >= 2376000.0 {
      Witness(fs, 41, 191000.0, 0, 0, 0, 0, 0, 1, 1, 1);
    } else if fs >= 1939000.0 {
      Witness(fs, 5, 155000.0, 0, 0, 0, 0, 0, 1, 1, 1);
    } else if fs >= 1659000.0 {
      Witness(fs, 50, 200000.0, 0, 0, 0, 0, 1, 1, 2, 2);
    } else {
      Witness(fs, 22, 172000.0, 0, 0, 0, 0, 1, 1, 2, 2);
    }
  }

  lemma MiddleRatesClear(fs: real)
    requires fs >= 730000.0 && fs <= 1435000.0
    ensures SomeClear(fs)
  {
    if fs >= 1258000.0 {
      Witness(fs, 155, 305000.0, 0, 0, 0, 1, 2, 3, 4, 5);
    } else if fs >= 1109800.0 {
      Witness(fs, 118, 268000.0, 0, 0, 0, 1, 2, 3, 4, 5);
    } else if fs >= 988000.0 {
      Witness(fs, 87, 237000.0, 0, 0, 0, 1, 2, 3, 4, 5);
    } else if fs >= 888000.0 {
      Witness(fs, 62, 212000.0, 0, 0, 0, 1, 2, 3, 4, 5);
    } else if fs >= 802000.0 {
      Witness(fs, 41, 191000.0, 0, 0, 0, 1, 2, 3, 4, 5);
    } else {
      Witness(fs, 23, 173000.0, 0, 0, 0, 1, 2, 3, 4, 5);
    }
  }

  lemma LowRatesClear(fs: real)
    requires 7.0 * fs > 3737500.0 && fs <= 730000.0
    ensures SomeClear(fs)
  {
    if fs >= 670000.0 {
      Witness(fs, 8, 158000.0, 0, 0, 0, 1, 2, 3, 4, 5);
    } else if fs >= 628000.0 {
      Witness(fs, 27, 177000.0, 0, 0, 1, 2, 3, 4, 5, 6);
    } else if fs >= 593000.0 {
      Witness(fs, 17, 167000.0, 0, 0, 1, 2, 3, 4, 5, 6);
    } else if fs >= 562000.0 {
      Witness(fs, 8, 158000.0, 0, 0, 1, 2, 3, 4, 5, 6);
    } else {
      Witness(fs, 0, 150000.0, 0, 0, 1, 2, 3, 4, 5, 6);
    }
  }

  /** Below that rate five of the clipping products cover all offsets there are. */
  lemma LowestRatesNotClear(off: real, fs: real)
    requires 150000.0 <= off <= MaxFrac * fs && 7.0 * fs <= 3737500.0
    ensures Clearance(off, fs) <= 0.0
  {
    if Abs(24.0 * off - 7.0 * fs) <= 137500.0 {
      HitsChannel(off, fs, 7, -7);
    } else if Abs(20.0 * off - 6.0 * fs) <= 117500.0 {
      HitsChannel(off, fs, 6, -6);
    } else if Abs(16.0 * off - 5.0 * fs) <= 97500.0 {
      HitsChannel(off, fs, 5, -5);
    } else if Abs(12.0 * off - 4.0 * fs) <= 77500.0 {
      HitsChannel(off, fs, 4, -4);
    } else {
      HitsChannel(off, fs, 6, -7);
    }
  }

  lemma HitsChannel(off: real, fs: real, i: nat, m: int)
    requires fs > 0.0 && i < Products && Abs(Alias(ProductHz(off, i), fs, m)) <= ChanHalfHz + Extent(i)
    ensures Clearance(off, fs) <= 0.0
  {
    WrapIsDistance(ProductHz(off, i), fs);
    var least := ClearanceIsLeast(off, fs);
    assert Clearance(off, fs) <= ProductClear(off, fs, i);
  }

  /** The search returns a clip-safe offset at exactly the rates above 3 737 500 / 7 Hz,
      about 534 kS/s: below, every offset the tuner could take puts a clipping product
      in the channel. */
  lemma PickIsClipSafeExactly(fs: real, best: real)
    requires IsPick(fs, best)
    ensures fs > 0.0 && best != 0.0 && ClipSafe(best, fs) <==> 7.0 * fs > 3737500.0
  {
    if fs > 0.0 && MaxFrac * fs >= MinHz {
      var i: nat :| best == GridHz(i) && IsBestUpTo(fs, i, MaxFrac * fs);
      PositiveClearanceIsClipSafe(best, fs);
      if 7.0 * fs > 3737500.0 {
        RatesClear(fs);
        var j: nat :| GridHz(j) <= MaxFrac * fs && Clearance(GridHz(j), fs) > 0.0;
      } else {
        LowestRatesNotClear(best, fs);
      }
    }
  }

  lemma RatesClear(fs: real)
    requires 7.0 * fs > 3737500.0
    ensures SomeClear(fs)
  {
    if fs >= 1435000.0 {
      HighRatesClear(fs);
    } else if fs >= 730000.0 {
      MiddleRatesClear(fs);
    } else {
      LowRatesClear(fs);
    }
  }

  /** At no rate does the search return a quarter of it. */
  lemma PickIsNotQuarter(fs: real, best: real)
    requires IsPick(fs, best) && fs > 0.0
    ensures best != fs / 4.0
  {
    PickIsClipSafeExactly(fs, best);
    if 7.0 * fs > 3737500.0 {
      PositiveClearanceIsClipSafe(best, fs);
      QuarterIsWorst(best, fs);
    }
  }
}
