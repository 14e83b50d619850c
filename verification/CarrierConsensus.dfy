/** carrierOffsetConsensus, cmd/gophertrunk/capture_carrier.go: the per-window
    offset estimates are accepted only when they corroborate each other around
    their median. The single-window estimator is a parameter: a window comes with
    its length and with the estimate it yields, if any. */
module CarrierConsensus {
  import opened Wrappers

  /** carrierConsensusToleranceHz. */
  const TOLERANCE_HZ := 1000.0
  const MIN_WINDOW := 1024

  datatype Window = Window(length: nat, estimate: Option<real>)

  datatype Consensus = Consensus(offsetHz: real, maxAbsHz: real, agree: nat, est: nat, usable: nat, ok: bool)

  function Abs(x: real): real {
    if x < 0.0 then -x else x
  }

  // -------------------------------------------------------------- specification

  function Usable(ws: seq<Window>): nat {
    if ws == [] then 0 else Usable(ws[..|ws| - 1]) + if ws[|ws| - 1].length < MIN_WINDOW then 0 else 1
  }

  /** The estimates of the usable windows, in window order. */
  function Estimates(ws: seq<Window>): seq<real> {
    if ws == [] then []
    else
      var w := ws[|ws| - 1];
      Estimates(ws[..|ws| - 1]) + if w.length >= MIN_WINDOW && w.estimate.Some? then [w.estimate.value] else []
  }

  function MaxAbs(s: seq<real>): real {
    if s == [] then 0.0
    else
      var m, a := MaxAbs(s[..|s| - 1]), Abs(s[|s| - 1]);
      if a > m then a else m
  }

  function Insert(x: real, s: seq<real>): seq<real> {
    if s == [] || x <= s[0] then [x] + s else [s[0]] + Insert(x, s[1..])
  }

  /** sort.Float64s. */
  function Sorted(s: seq<real>): seq<real> {
    if s == [] then [] else Insert(s[|s| - 1], Sorted(s[..|s| - 1]))
  }

  ghost predicate IsSorted(s: seq<real>) {
    forall i, j | 0 <= i < j < |s| :: s[i] <= s[j]
  }

  predicate Agrees(e: real, median: real) {
    Abs(e - median) <= TOLERANCE_HZ
  }

  function Agreeing(s: seq<real>, median: real): seq<real> {
    if s == [] then []
    else Agreeing(s[..|s| - 1], median) + if Agrees(s[|s| - 1], median) then [s[|s| - 1]] else []
  }

  function Sum(s: seq<real>): real {
    if s == [] then 0.0 else Sum(s[..|s| - 1]) + s[|s| - 1]
  }

  function Median(ests: seq<real>): real
    requires ests != []
  {
    SortedIsPermutation(ests);
    Sorted(ests)[|ests| / 2]
  }

  /** How many elements lie in [lo, hi]. */
  function CountIn(s: seq<real>, lo: real, hi: real): nat {
    if s == [] then 0 else CountIn(s[..|s| - 1], lo, hi) + if lo <= s[|s| - 1] <= hi then 1 else 0
  }

  // ------------------------------------------------------------------- sorting

  lemma {:induction false} InsertKeeps(x: real, s: seq<real>)
    ensures multiset(Insert(x, s)) == multiset(s) + multiset{x}
    ensures |Insert(x, s)| == |s| + 1
  {
    if s != [] && x > s[0] {
      InsertKeeps(x, s[1..]);
      assert s == [s[0]] + s[1..];
    }
  }

  lemma {:induction false} InsertSorts(x: real, s: seq<real>)
    requires IsSorted(s)
    ensures IsSorted(Insert(x, s))
  {
    if s != [] && x > s[0] {
      InsertSorts(x, s[1..]);
      var t := Insert(x, s[1..]);
      InsertKeeps(x, s[1..]);
      forall j | 0 <= j < |t|
        ensures s[0] <= t[j]
      {
        assert t[j] in multiset(t);
      }
    }
  }

  lemma {:induction false} SortedIsPermutation(s: seq<real>)
    ensures multiset(Sorted(s)) == multiset(s) && |Sorted(s)| == |s| && IsSorted(Sorted(s))
  {
    if s != [] {
      SortedIsPermutation(s[..|s| - 1]);
      InsertKeeps(s[|s| - 1], Sorted(s[..|s| - 1]));
      InsertSorts(s[|s| - 1], Sorted(s[..|s| - 1]));
      assert s == s[..|s| - 1] + [s[|s| - 1]];
    }
  }

  lemma LeastFirst(s: seq<real>, t: seq<real>)
    requires IsSorted(s) && IsSorted(t) && multiset(s) == multiset(t) && s != [] && t != []
    ensures s[0] <= t[0]
  {
    assert t[0] in multiset(s);
    var i :| 0 <= i < |s| && s[i] == t[0];
  }

  lemma TailMultiset(s: seq<real>)
    requires s != []
    ensures multiset(s[1..]) == multiset(s) - multiset{s[0]}
  {
    assert s == [s[0]] + s[1..];
  }

  lemma SameLeast(s: seq<real>, t: seq<real>)
    requires IsSorted(s) && IsSorted(t) && multiset(s) == multiset(t) && s != []
    ensures |t| == |s| && t[0] == s[0] && multiset(s[1..]) == multiset(t[1..])
  {
    assert |multiset(s)| == |s| && |multiset(t)| == |t|;
    LeastFirst(s, t);
    LeastFirst(t, s);
    TailMultiset(s);
    TailMultiset(t);
  }

  /** A multiset has one sorted arrangement, so any correct sort gives this one. */
  lemma {:induction false} SortedUnique(s: seq<real>, t: seq<real>)
    requires IsSorted(s) && IsSorted(t) && multiset(s) == multiset(t)
    ensures s == t
  {
    if s == [] {
      assert |multiset(t)| == |t|;
    } else {
      SameLeast(s, t);
      SortedUnique(s[1..], t[1..]);
    }
  }

  // ------------------------------------------------------------------ the code

  function Outcome(ws: seq<Window>): Consensus {
    FromEstimates(Estimates(ws), Usable(ws))
  }

  function FromEstimates(ests: seq<real>, usable: nat): Consensus {
    var none := Consensus(0.0, MaxAbs(ests), 0, |ests|, usable, false);
    if ests == [] then none
    else
      var agreeing := Agreeing(ests, Median(ests));
      var c := none.(agree := |agreeing|);
      if usable > 1 && (|agreeing| < 2 || 2 * |agreeing| < |ests|) then c
      else
        MedianAgrees(ests);
        c.(offsetHz := Sum(agreeing) / |agreeing| as real, ok := true)
  }

  method CollectEstimates(windows: seq<Window>) returns (ests: seq<real>, usable: nat, maxAbs: real)
    ensures ests == Estimates(windows) && usable == Usable(windows) && maxAbs == MaxAbs(ests)
  {
    ests, usable, maxAbs := [], 0, 0.0;
    for i := 0 to |windows|
      invariant ests == Estimates(windows[..i]) && usable == Usable(windows[..i]) && maxAbs == MaxAbs(ests)
    {
      assert windows[..i + 1][..i] == windows[..i];
      var w := windows[i];
      if w.length < MIN_WINDOW {
        continue;
      }
      usable := usable + 1;
      if w.estimate.Some? {
        var off := w.estimate.value;
        assert (ests + [off])[..|ests|] == ests;
        ests := ests + [off];
        var a := Abs(off);
        if a > maxAbs {
          maxAbs := a;
        }
      }
    }
    assert windows[..|windows|] == windows;
  }

  method CollectAgreeing(ests: seq<real>, median: real) returns (agreeing: seq<real>)
    ensures agreeing == Agreeing(ests, median)
  {
    agreeing := [];
    for i := 0 to |ests|
      invariant agreeing == Agreeing(ests[..i], median)
    {
      assert ests[..i + 1][..i] == ests[..i];
      if Abs(ests[i] - median) <= TOLERANCE_HZ {
        agreeing := agreeing + [ests[i]];
      }
    }
    assert ests[..|ests|] == ests;
  }

  method Total(s: seq<real>) returns (sum: real)
    ensures sum == Sum(s)
  {
    sum := 0.0;
    for i := 0 to |s|
      invariant sum == Sum(s[..i])
    {
      assert s[..i + 1][..i] == s[..i];
      sum := sum + s[i];
    }
    assert s[..|s|] == s;
  }

  method CarrierOffsetConsensus(windows: seq<Window>) returns (c: Consensus)
    ensures c == Outcome(windows)
  {
    var ests, usable, maxAbs := CollectEstimates(windows);
    c := Consensus(0.0, maxAbs, 0, |ests|, usable, false);
    if c.est == 0 {
      return;
    }
    var sorted := Sorted(ests);
    SortedIsPermutation(ests);
    var median := sorted[|sorted| / 2];
    var agreeing := CollectAgreeing(ests, median);
    c := c.(agree := |agreeing|);
    if c.usable > 1 && (c.agree < 2 || 2 * c.agree < c.est) {
      return;
    }
    MedianAgrees(ests);
    var sum := Total(agreeing);
    c := c.(offsetHz := sum / |agreeing| as real, ok := true);
  }

  // ------------------------------------------------------------ main results

  lemma {:induction false} CountInConcat(a: seq<real>, b: seq<real>, lo: real, hi: real)
    ensures CountIn(a + b, lo, hi) == CountIn(a, lo, hi) + CountIn(b, lo, hi)
  {
    if b == [] {
      assert a + b == a;
    } else {
      assert (a + b)[..|a + b| - 1] == a + b[..|b| - 1];
      CountInConcat(a, b[..|b| - 1], lo, hi);
    }
  }

  lemma {:induction false} InsertCount(x: real, s: seq<real>, lo: real, hi: real)
    ensures CountIn(Insert(x, s), lo, hi) == CountIn(s, lo, hi) + if lo <= x <= hi then 1 else 0
  {
    if s == [] || x <= s[0] {
      CountInConcat([x], s, lo, hi);
      assert [x][..0] == [];
    } else {
      InsertCount(x, s[1..], lo, hi);
      CountInConcat([s[0]], Insert(x, s[1..]), lo, hi);
      CountInConcat([s[0]], s[1..], lo, hi);
      assert s == [s[0]] + s[1..];
    }
  }

  lemma {:induction false} SortedCount(s: seq<real>, lo: real, hi: real)
    ensures CountIn(Sorted(s), lo, hi) == CountIn(s, lo, hi)
  {
    if s != [] {
      SortedCount(s[..|s| - 1], lo, hi);
      InsertCount(s[|s| - 1], Sorted(s[..|s| - 1]), lo, hi);
    }
  }

  lemma {:induction false} CountInBounds(s: seq<real>, lo: real, hi: real)
    ensures CountIn(s, lo, hi) <= |s|
    ensures (forall i | 0 <= i < |s| :: s[i] < lo || s[i] > hi) ==> CountIn(s, lo, hi) == 0
  {
    if s != [] {
      CountInBounds(s[..|s| - 1], lo, hi);
    }
  }

  lemma OutsidePrefix(s: seq<real>, m: nat, lo: real, hi: real)
    requires m <= |s| && forall i | 0 <= i < m :: s[i] < lo
    ensures CountIn(s, lo, hi) <= |s| - m
  {
    assert s == s[..m] + s[m..];
    CountInConcat(s[..m], s[m..], lo, hi);
    CountInBounds(s[..m], lo, hi);
    CountInBounds(s[m..], lo, hi);
  }

  lemma OutsideSuffix(s: seq<real>, m: nat, lo: real, hi: real)
    requires m <= |s| && forall i | m <= i < |s| :: s[i] > hi
    ensures CountIn(s, lo, hi) <= m
  {
    assert s == s[..m] + s[m..];
    CountInConcat(s[..m], s[m..], lo, hi);
    CountInBounds(s[..m], lo, hi);
    CountInBounds(s[m..], lo, hi);
  }

  lemma MiddleInside(s: seq<real>, lo: real, hi: real)
    requires s != [] && IsSorted(s) && 2 * CountIn(s, lo, hi) > |s|
    ensures lo <= s[|s| / 2] <= hi
  {
    var m := |s| / 2;
    if s[m] < lo {
      assert forall i | 0 <= i < m :: s[i] <= s[m];
      OutsidePrefix(s, m + 1, lo, hi);
    } else if s[m] > hi {
      OutsideSuffix(s, m, lo, hi);
    }
  }

  /** A strict majority inside an interval pulls the median inside it, whatever
      the other estimates are. */
  lemma MajorityHoldsMedian(ests: seq<real>, lo: real, hi: real)
    requires ests != [] && 2 * CountIn(ests, lo, hi) > |ests|
    ensures lo <= Median(ests) <= hi
  {
    SortedIsPermutation(ests);
    SortedCount(ests, lo, hi);
    MiddleInside(Sorted(ests), lo, hi);
  }

  lemma {:induction false} AgreeingCoversInterval(ests: seq<real>, median: real, lo: real, hi: real)
    requires lo <= median <= hi && hi - lo <= TOLERANCE_HZ
    ensures |Agreeing(ests, median)| >= CountIn(ests, lo, hi)
  {
    if ests != [] {
      AgreeingCoversInterval(ests[..|ests| - 1], median, lo, hi);
    }
  }

  lemma {:induction false} AgreeingHolds(s: seq<real>, median: real, x: real)
    requires x in s && Agrees(x, median)
    ensures x in Agreeing(s, median)
  {
    if s[|s| - 1] != x {
      AgreeingHolds(s[..|s| - 1], median, x);
    }
  }

  lemma MedianAgrees(ests: seq<real>)
    requires ests != []
    ensures |Agreeing(ests, Median(ests))| >= 1
  {
    SortedIsPermutation(ests);
    assert Median(ests) in multiset(Sorted(ests));
    AgreeingHolds(ests, Median(ests), Median(ests));
  }

  lemma {:induction false} AgreeingWithin(s: seq<real>, median: real)
    ensures forall i | 0 <= i < |Agreeing(s, median)| :: Agrees(Agreeing(s, median)[i], median)
  {
    if s != [] {
      AgreeingWithin(s[..|s| - 1], median);
    }
  }

  lemma {:induction false} SumWithin(s: seq<real>, lo: real, hi: real)
    requires forall i | 0 <= i < |s| :: lo <= s[i] <= hi
    ensures lo * |s| as real <= Sum(s) <= hi * |s| as real
  {
    if s != [] {
      SumWithin(s[..|s| - 1], lo, hi);
      Distribute(lo, (|s| - 1) as real);
      Distribute(hi, (|s| - 1) as real);
    }
  }

  lemma Distribute(x: real, n: real)
    ensures x * (n + 1.0) == x * n + x
  {
  }

  lemma MulOrder(x: real, y: real, n: real)
    requires n > 0.0 && x * n <= y * n
    ensures x <= y
  {
    var d := x - y;
    assert d * n == x * n - y * n;
  }

  lemma MeanWithin(s: seq<real>, lo: real, hi: real)
    requires s != [] && forall i | 0 <= i < |s| :: lo <= s[i] <= hi
    ensures lo <= Sum(s) / |s| as real <= hi
  {
    SumWithin(s, lo, hi);
    var n := |s| as real;
    DivMul(Sum(s), n);
    MulOrder(lo, Sum(s) / n, n);
    MulOrder(Sum(s) / n, hi, n);
  }

  lemma DivMul(x: real, n: real)
    requires n > 0.0
    ensures x / n * n == x
  {
  }

  /** An accepted offset is never further than the tolerance from the median. */
  lemma OffsetNearMedian(ws: seq<Window>)
    requires Outcome(ws).ok
    ensures Estimates(ws) != [] && Abs(Outcome(ws).offsetHz - Median(Estimates(ws))) <= TOLERANCE_HZ
  {
    var ests := Estimates(ws);
    var m := Median(ests);
    AgreeingWithin(ests, m);
    MedianAgrees(ests);
    MeanWithin(Agreeing(ests, m), m - TOLERANCE_HZ, m + TOLERANCE_HZ);
  }

  /** Robustness. With at least two estimates, a strict majority of them within
      an interval no wider than the tolerance decides: the median lies in the
      interval, the consensus is accepted and stays within the tolerance of the
      interval, whatever the outliers are. */
  lemma MajorityDecides(ws: seq<Window>, lo: real, hi: real)
    requires |Estimates(ws)| >= 2 && hi - lo <= TOLERANCE_HZ
    requires 2 * CountIn(Estimates(ws), lo, hi) > |Estimates(ws)|
    ensures lo <= Median(Estimates(ws)) <= hi
    ensures Outcome(ws).ok && lo - TOLERANCE_HZ <= Outcome(ws).offsetHz <= hi + TOLERANCE_HZ
  {
    var ests := Estimates(ws);
    MajorityHoldsMedian(ests, lo, hi);
    AgreeingCoversInterval(ests, Median(ests), lo, hi);
    OffsetNearMedian(ws);
  }

  ghost predicate Within(s: seq<real>, i: int, lo: real, hi: real) {
    0 <= i < |s| && lo <= s[i] <= hi
  }

  /** CountIn counts positions. */
  lemma {:induction false} CountInIsCardinality(s: seq<real>, lo: real, hi: real)
    ensures CountIn(s, lo, hi) == |set i | 0 <= i < |s| && Within(s, i, lo, hi)|
  {
    if s != [] {
      var n, s' := |s| - 1, s[..|s| - 1];
      CountInIsCardinality(s', lo, hi);
      var before := set i | 0 <= i < n && Within(s', i, lo, hi);
      var all := set i | 0 <= i < |s| && Within(s, i, lo, hi);
      assert all == before + if lo <= s[n] <= hi then {n} else {};
    }
  }

  ghost predicate Near(s: seq<real>, i: int, median: real) {
    0 <= i < |s| && median - 1000.0 <= s[i] <= median + 1000.0
  }

  /** How many estimates lie within 1000 Hz of the median. */
  ghost function NearMedian(ests: seq<real>): nat
    requires ests != []
  {
    var m := Median(ests);
    |set i | 0 <= i < |ests| && Near(ests, i, m)|
  }

  /** The median is the upper one of any sorted arrangement. */
  lemma MedianIsUpper(ests: seq<real>, t: seq<real>)
    requires ests != [] && IsSorted(t) && multiset(t) == multiset(ests)
    ensures |t| == |ests| && Median(ests) == t[|t| / 2]
  {
    assert |multiset(t)| == |t| && |multiset(ests)| == |ests|;
    SortedIsPermutation(ests);
    SortedUnique(Sorted(ests), t);
  }

  // ------------------------------------------------------- what is counted

  ghost predicate LongEnough(ws: seq<Window>, i: int) {
    0 <= i < |ws| && ws[i].length >= 1024
  }

  /** The usable windows are those of at least 1024 samples, whether or not one gave
      an estimate. */
  lemma {:induction false} UsableCounts(ws: seq<Window>)
    ensures Usable(ws) == |set i | 0 <= i < |ws| && LongEnough(ws, i)|
  {
    if ws != [] {
      var n, ws' := |ws| - 1, ws[..|ws| - 1];
      UsableCounts(ws');
      var before := set i | 0 <= i < n && LongEnough(ws', i);
      var all := set i | 0 <= i < |ws| && LongEnough(ws, i);
      assert all == before + if ws[n].length >= 1024 then {n} else {};
    }
  }

  ghost predicate Yields(ws: seq<Window>, i: int, x: real) {
    LongEnough(ws, i) && ws[i].estimate == Some(x)
  }

  lemma YieldsStep(ws: seq<Window>, x: real)
    requires ws != []
    ensures var n, ws' := |ws| - 1, ws[..|ws| - 1];
            |set i | 0 <= i < |ws| && Yields(ws, i, x)|
            == |set i | 0 <= i < n && Yields(ws', i, x)| + if Yields(ws, n, x) then 1 else 0
  {
    var n, ws' := |ws| - 1, ws[..|ws| - 1];
    var before := set i | 0 <= i < n && Yields(ws', i, x);
    var all := set i | 0 <= i < |ws| && Yields(ws, i, x);
    assert all == before + if Yields(ws, n, x) then {n} else {};
  }

  lemma EstimatesStep(ws: seq<Window>, x: real)
    requires ws != []
    ensures multiset(Estimates(ws))[x]
         == multiset(Estimates(ws[..|ws| - 1]))[x] + if Yields(ws, |ws| - 1, x) then 1 else 0
  {
  }

  /** An estimate is held as often as a usable window yields it. */
  lemma {:induction false} EstimatesCount(ws: seq<Window>, x: real)
    ensures multiset(Estimates(ws))[x] == |set i | 0 <= i < |ws| && Yields(ws, i, x)|
  {
    if ws != [] {
      var n, ws' := |ws| - 1, ws[..|ws| - 1];
      EstimatesCount(ws', x);
      YieldsStep(ws, x);
      EstimatesStep(ws, x);
    }
  }

  /** The greatest magnitude. */
  lemma {:induction false} MaxAbsIsGreatest(s: seq<real>)
    ensures forall e | e in s :: -MaxAbs(s) <= e <= MaxAbs(s)
    ensures s != [] ==> MaxAbs(s) in s || -MaxAbs(s) in s
  {
    if s != [] {
      var n, s' := |s| - 1, s[..|s| - 1];
      MaxAbsIsGreatest(s');
      MaxAbsNonNegative(s');
      assert s == s' + [s[n]];
    }
  }

  /** How far, in all, the estimates within 1000 Hz of the median lie above x. */
  function Deviation(s: seq<real>, median: real, x: real): real {
    if s == [] then 0.0
    else
      var e := s[|s| - 1];
      Deviation(s[..|s| - 1], median, x) + if median - 1000.0 <= e <= median + 1000.0 then e - x else 0.0
  }

  function Above(a: seq<real>, x: real): real {
    if a == [] then 0.0 else Above(a[..|a| - 1], x) + (a[|a| - 1] - x)
  }

  lemma AboveAppend(a: seq<real>, e: real, x: real)
    ensures Above(a + [e], x) == Above(a, x) + (e - x)
  {
    assert (a + [e])[..|a|] == a;
  }

  lemma {:induction false} DeviationOfAgreeing(s: seq<real>, median: real, x: real)
    ensures Deviation(s, median, x) == Above(Agreeing(s, median), x)
  {
    if s != [] {
      var s', e := s[..|s| - 1], s[|s| - 1];
      DeviationOfAgreeing(s', median, x);
      if Agrees(e, median) {
        AboveAppend(Agreeing(s', median), e, x);
      } else {
        assert Agreeing(s, median) == Agreeing(s', median);
      }
    }
  }

  lemma {:induction false} AboveIsSum(a: seq<real>, x: real)
    ensures Above(a, x) == Sum(a) - Times(x, |a|)
  {
    if a != [] {
      AboveIsSum(a[..|a| - 1], x);
      Distribute(x, (|a| - 1) as real);
    }
  }

  function Times(x: real, n: nat): real {
    x * n as real
  }

  /** The counts the result carries. */
  lemma ReportedCounts(ws: seq<Window>)
    ensures var c, ests := Outcome(ws), Estimates(ws);
            && c.usable == |set i | 0 <= i < |ws| && LongEnough(ws, i)|
            && c.est == |ests| && c.maxAbsHz == MaxAbs(ests)
            && c.agree == if ests == [] then 0 else NearMedian(ests)
  {
    UsableCounts(ws);
    AgreeIsNear(ws);
  }

  lemma AgreeIsNear(ws: seq<Window>)
    ensures var c, ests := Outcome(ws), Estimates(ws);
            c.agree == if ests == [] then 0 else NearMedian(ests)
  {
    var ests := Estimates(ws);
    if ests != [] {
      NearIsAgreeing(ests);
    }
  }

  lemma NearIsAgreeing(ests: seq<real>)
    requires ests != []
    ensures NearMedian(ests) == |Agreeing(ests, Median(ests))|
  {
    var m := Median(ests);
    var lo, hi := m - 1000.0, m + 1000.0;
    AgreeingIsCount(ests, m);
    CountInIsCardinality(ests, lo, hi);
    assert (set i | 0 <= i < |ests| && Near(ests, i, m)) == set i | 0 <= i < |ests| && Within(ests, i, lo, hi);
  }

  /** An accepted offset balances the estimates near the median: it is their mean. */
  lemma AcceptedOffsetBalances(ws: seq<Window>)
    requires Outcome(ws).ok
    ensures Estimates(ws) != []
    ensures Deviation(Estimates(ws), Median(Estimates(ws)), Outcome(ws).offsetHz) == 0.0
  {
    MeanBalances(Estimates(ws), Usable(ws));
  }

  lemma MeanBalances(ests: seq<real>, usable: nat)
    requires FromEstimates(ests, usable).ok
    ensures ests != [] && Deviation(ests, Median(ests), FromEstimates(ests, usable).offsetHz) == 0.0
  {
    var x, a := FromEstimates(ests, usable).offsetHz, Agreeing(ests, Median(ests));
    MedianAgrees(ests);
    DeviationOfAgreeing(ests, Median(ests), x);
    MeanIsBalanced(a);
  }

  lemma MeanIsBalanced(a: seq<real>)
    requires a != []
    ensures Above(a, Sum(a) / |a| as real) == 0.0
  {
    AboveIsSum(a, Sum(a) / |a| as real);
    DivMul(Sum(a), |a| as real);
  }

  lemma {:induction false} NoneUsable(ws: seq<Window>)
    requires forall j | 0 <= j < |ws| :: ws[j].length < 1024
    ensures Usable(ws) == 0 && Estimates(ws) == []
  {
    if ws != [] {
      NoneUsable(ws[..|ws| - 1]);
    }
  }

  lemma {:induction false} OneUsable(ws: seq<Window>, i: nat)
    requires LongEnough(ws, i) && forall j | 0 <= j < |ws| && j != i :: ws[j].length < 1024
    ensures Usable(ws) == 1
    ensures Estimates(ws) == if ws[i].estimate.Some? then [ws[i].estimate.value] else []
  {
    var ws' := ws[..|ws| - 1];
    if i == |ws| - 1 {
      NoneUsable(ws');
    } else {
      OneUsable(ws', i);
    }
  }

  lemma LoneMedian(x: real)
    ensures Median([x]) == x && Agreeing([x], x) == [x] && Sum([x]) == x
  {
    MedianOfSorted([x]);
    assert [x][..0] == [];
  }

  /** A lone usable window is taken at its word. */
  lemma LoneWindowDecides(ws: seq<Window>, i: nat)
    requires LongEnough(ws, i) && forall j | 0 <= j < |ws| && j != i :: ws[j].length < 1024
    ensures Outcome(ws).ok <==> ws[i].estimate.Some?
    ensures Outcome(ws).ok ==> ws[i].estimate == Some(Outcome(ws).offsetHz)
  {
    OneUsable(ws, i);
    if ws[i].estimate.Some? {
      LoneMedian(ws[i].estimate.value);
    }
  }

  lemma {:induction false} SomeUsable(ws: seq<Window>, i: nat)
    requires LongEnough(ws, i)
    ensures Usable(ws) >= 1
  {
    if i < |ws| - 1 {
      SomeUsable(ws[..|ws| - 1], i);
    }
  }

  lemma {:induction false} TwoUsable(ws: seq<Window>, i: nat, j: nat)
    requires i < j && LongEnough(ws, i) && LongEnough(ws, j)
    ensures Usable(ws) >= 2
  {
    if j < |ws| - 1 {
      TwoUsable(ws[..|ws| - 1], i, j);
    } else {
      SomeUsable(ws[..|ws| - 1], i);
    }
  }

  lemma {:induction false} AgreeingIsCount(s: seq<real>, median: real)
    ensures |Agreeing(s, median)| == CountIn(s, median - TOLERANCE_HZ, median + TOLERANCE_HZ)
  {
    if s != [] {
      AgreeingIsCount(s[..|s| - 1], median);
    }
  }

  /** With two windows of 1024 samples the code accepts exactly when at least two of the
      estimates, and at least half of them, lie within 1000 Hz of their median. */
  lemma AcceptsExactly(ws: seq<Window>, i: nat, j: nat)
    requires i < j && LongEnough(ws, i) && LongEnough(ws, j)
    ensures Outcome(ws).ok <==>
              var ests := Estimates(ws);
              ests != [] && NearMedian(ests) >= 2 && 2 * NearMedian(ests) >= |ests|
  {
    TwoUsable(ws, i, j);
    if Estimates(ws) != [] {
      NearIsAgreeing(Estimates(ws));
    }
  }

  /** What the comment above the function asks for: two near the median, and a majority. */
  ghost predicate Corroborated(ests: seq<real>) {
    ests != [] && NearMedian(ests) >= 2 && 2 * NearMedian(ests) > |ests|
  }

  /** The code does what the comment says exactly unless two or more estimates near the
      median are precisely half of all; those it accepts too. */
  lemma AcceptedWithoutMajority(ws: seq<Window>, i: nat, j: nat)
    requires i < j && LongEnough(ws, i) && LongEnough(ws, j)
    ensures var ests := Estimates(ws);
            var half := ests != [] && NearMedian(ests) >= 2 && 2 * NearMedian(ests) == |ests|;
            && ((Outcome(ws).ok <==> Corroborated(ests)) <==> !half)
            && (half ==> Outcome(ws).ok && !Corroborated(ests))
  {
    AcceptsExactly(ws, i, j);
  }

  /** The windows of a capture in which every window is usable and gives an estimate. */
  function FullWindows(ests: seq<real>): seq<Window> {
    seq(|ests|, i requires 0 <= i < |ests| => Window(MIN_WINDOW, Some(ests[i])))
  }

  lemma {:induction false} FullWindowsEstimates(ests: seq<real>)
    ensures Estimates(FullWindows(ests)) == ests && Usable(FullWindows(ests)) == |ests|
  {
    if ests != [] {
      var n := |ests| - 1;
      assert FullWindows(ests)[..n] == FullWindows(ests[..n]);
      FullWindowsEstimates(ests[..n]);
    }
  }

  lemma HalfAgrees(e: seq<real>)
    requires e == [0.0, 5000.0, 5000.0, 10000.0]
    ensures |Agreeing(e, 5000.0)| == 2
  {
    assert e[..3][..2][..1][..0] == [];
    assert Agreeing(e[..3][..2][..1], 5000.0) == [];
    assert Agreeing(e[..3][..2], 5000.0) == [5000.0];
    assert Agreeing(e[..3], 5000.0) == [5000.0, 5000.0];
  }

  lemma MedianOfSorted(e: seq<real>)
    requires e != [] && IsSorted(e)
    ensures Median(e) == e[|e| / 2]
  {
    SortedIsPermutation(e);
    SortedUnique(Sorted(e), e);
  }

  lemma HalfIsAccepted()
    ensures var c := Outcome(FullWindows([0.0, 5000.0, 5000.0, 10000.0]));
            c.ok && c.agree == 2 && c.est == 4
  {
    var e := [0.0, 5000.0, 5000.0, 10000.0];
    FullWindowsEstimates(e);
    assert IsSorted(e);
    MedianOfSorted(e);
    HalfAgrees(e);
    assert FromEstimates(e, 4).agree == |Agreeing(e, Median(e))|;
  }

  // -------------------------------------------------- the windows' order

  lemma {:induction false} AgreeingConcat(a: seq<real>, b: seq<real>, median: real)
    ensures Agreeing(a + b, median) == Agreeing(a, median) + Agreeing(b, median)
  {
    if b == [] {
      assert a + b == a;
    } else {
      assert (a + b)[..|a + b| - 1] == a + b[..|b| - 1];
      AgreeingConcat(a, b[..|b| - 1], median);
    }
  }

  lemma {:induction false} SumConcat(a: seq<real>, b: seq<real>)
    ensures Sum(a + b) == Sum(a) + Sum(b)
  {
    if b == [] {
      assert a + b == a;
    } else {
      assert (a + b)[..|a + b| - 1] == a + b[..|b| - 1];
      SumConcat(a, b[..|b| - 1]);
    }
  }

  lemma {:induction false} MaxAbsConcat(a: seq<real>, b: seq<real>)
    ensures MaxAbs(a + b) == if MaxAbs(a) >= MaxAbs(b) then MaxAbs(a) else MaxAbs(b)
    ensures MaxAbs(a) >= 0.0
  {
    if b == [] {
      assert a + b == a;
      MaxAbsNonNegative(a);
    } else {
      assert (a + b)[..|a + b| - 1] == a + b[..|b| - 1];
      MaxAbsConcat(a, b[..|b| - 1]);
      MaxAbsNonNegative(b[..|b| - 1]);
    }
  }

  lemma {:induction false} MaxAbsNonNegative(a: seq<real>)
    ensures MaxAbs(a) >= 0.0
  {
    if a != [] {
      MaxAbsNonNegative(a[..|a| - 1]);
    }
  }

  /** What the decision reads off the estimates besides the median. */
  ghost predicate SameSummary(s: seq<real>, t: seq<real>, median: real) {
    && |Agreeing(s, median)| == |Agreeing(t, median)|
    && Sum(Agreeing(s, median)) == Sum(Agreeing(t, median))
    && MaxAbs(s) == MaxAbs(t)
  }

  lemma SwapParts(a: seq<real>, x: real, b: seq<real>, median: real)
    ensures SameSummary(a + [x] + b, a + b + [x], median)
  {
    AgreeingConcat(a + [x], b, median);
    AgreeingConcat(a, [x], median);
    AgreeingConcat(a + b, [x], median);
    AgreeingConcat(a, b, median);
    var fa, fx, fb := Agreeing(a, median), Agreeing([x], median), Agreeing(b, median);
    SumConcat(fa + fx, fb);
    SumConcat(fa, fx);
    SumConcat(fa + fb, fx);
    SumConcat(fa, fb);
    MaxAbsConcat(a + [x], b);
    MaxAbsConcat(a, [x]);
    MaxAbsConcat(a + b, [x]);
    MaxAbsConcat(a, b);
  }

  /** The last element of one arrangement, taken out of another. */
  lemma TakeOut(s: seq<real>, t: seq<real>) returns (a: seq<real>, b: seq<real>)
    requires multiset(s) == multiset(t) && t != []
    ensures s == a + [t[|t| - 1]] + b && multiset(a + b) == multiset(t[..|t| - 1])
  {
    var x, t' := t[|t| - 1], t[..|t| - 1];
    assert t == t' + [x];
    assert x in multiset(s);
    var j :| 0 <= j < |s| && s[j] == x;
    a, b := s[..j], s[j + 1..];
    assert s == a + [x] + b;
    assert multiset(a + b) == multiset(s) - multiset{x} == multiset(t');
  }

  lemma {:induction false} PermutationKeepsSummary(s: seq<real>, t: seq<real>, median: real)
    requires multiset(s) == multiset(t)
    ensures SameSummary(s, t, median)
    decreases |t|
  {
    if t == [] {
      assert |multiset(s)| == |s|;
    } else {
      var a, b := TakeOut(s, t);
      var x, t' := t[|t| - 1], t[..|t| - 1];
      assert t == t' + [x];
      PermutationKeepsSummary(a + b, t', median);
      SwapParts(a, x, b, median);
      AppendKeepsSummary(a + b, t', x, median);
      SummaryTransitive(s, a + b + [x], t, median);
    }
  }

  lemma SummaryTransitive(s: seq<real>, t: seq<real>, u: seq<real>, median: real)
    requires SameSummary(s, t, median) && SameSummary(t, u, median)
    ensures SameSummary(s, u, median)
  {
  }

  lemma AppendKeepsSummary(s: seq<real>, t: seq<real>, x: real, median: real)
    requires SameSummary(s, t, median)
    ensures SameSummary(s + [x], t + [x], median)
  {
    AgreeingConcat(s, [x], median);
    AgreeingConcat(t, [x], median);
    SumConcat(Agreeing(s, median), Agreeing([x], median));
    SumConcat(Agreeing(t, median), Agreeing([x], median));
    MaxAbsConcat(s, [x]);
    MaxAbsConcat(t, [x]);
  }

  /** The verdict is a function of the estimates as a bag: which window gave
      which estimate does not matter. */
  lemma OrderIrrelevant(s: seq<real>, t: seq<real>, usable: nat)
    requires multiset(s) == multiset(t)
    ensures FromEstimates(s, usable) == FromEstimates(t, usable)
  {
    assert |multiset(s)| == |s| && |multiset(t)| == |t|;
    SortedIsPermutation(s);
    SortedIsPermutation(t);
    SortedUnique(Sorted(s), Sorted(t));
    if s != [] {
      PermutationKeepsSummary(s, t, Median(s));
    }
  }
}
