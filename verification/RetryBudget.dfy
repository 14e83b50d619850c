/** The restart budget of an IQ stream, cmd/gophertrunk/daemon.go:
    runCCDecoderWithRetry and runWidebandWithRetry share one attempt counter that
    is credited by how long the run that just died had lasted. */
module RetryBudget {
  /** ccDecoderRetryBackoffs, in milliseconds like every duration here. */
  const BACKOFFS: seq<nat> := [1000, 2000, 5000, 10000]

  /** ccDecoderHealthyRunDuration. */
  const HEALTHY := 60000

  /** ccDecoderHealthyProgressDuration. */
  const PROGRESS := 10000

  /** How the wait and the rebuild after a death went. */
  datatype Aftermath = CancelledInBackoff | RebuildFailed | Rebuilt

  /** How one Run ended: cleanly or cancelled, with another error, or with the
      stream dying after `ran` milliseconds. */
  datatype RunEnd = Stopped | OtherError | StreamDied(ran: nat, after: Aftermath)

  datatype Outcome = Running | ReturnedStopped | ReturnedError | ReturnedCancelled | RebuildFatal | Exhausted

  // -------------------------------------------------------------- specification

  /** The index of the last run of at least HEALTHY, or of the first death. */
  function Base(deaths: seq<nat>): nat {
    if |deaths| <= 1 then 0
    else if deaths[|deaths| - 1] >= HEALTHY then |deaths| - 1
    else Base(deaths[..|deaths| - 1])
  }

  function CountShort(deaths: seq<nat>): nat {
    if deaths == [] then 0
    else CountShort(deaths[..|deaths| - 1]) + if deaths[|deaths| - 1] < PROGRESS then 1 else 0
  }

  lemma {:induction false} BaseInRange(deaths: seq<nat>)
    requires deaths != []
    ensures Base(deaths) < |deaths|
    ensures Base(deaths) == 0 || deaths[Base(deaths)] >= HEALTHY
    ensures forall i | Base(deaths) < i < |deaths| :: deaths[i] < HEALTHY
  {
    if |deaths| > 1 && deaths[|deaths| - 1] < HEALTHY {
      BaseInRange(deaths[..|deaths| - 1]);
    }
  }

  /** Runs shorter than PROGRESS that died after the later of the first death and
      the last healthy run. */
  function ShortsSince(deaths: seq<nat>): nat
    requires deaths != []
  {
    BaseInRange(deaths);
    CountShort(deaths[Base(deaths) + 1..])
  }

  /** ShortsSince one death at a time. */
  lemma ShortsSinceStep(deaths: seq<nat>)
    requires |deaths| >= 2
    ensures var last := deaths[|deaths| - 1];
            ShortsSince(deaths) == if last >= HEALTHY then 0
                                   else ShortsSince(deaths[..|deaths| - 1]) + if last < PROGRESS then 1 else 0
  {
    var n := |deaths| - 1;
    BaseInRange(deaths);
    if deaths[n] < HEALTHY {
      var b := Base(deaths[..n]);
      BaseInRange(deaths[..n]);
      assert deaths[b + 1..][..n - b - 1] == deaths[..n][b + 1..];
    }
  }

  // ------------------------------------------------------------------ the code

  /** The credit for the run that just ended. */
  function Credit(attempt: nat, ran: nat): nat {
    if ran >= HEALTHY then 0
    else if ran >= PROGRESS && attempt > 0 then attempt - 1
    else attempt
  }

  /** The deaths so far were within the budget and slept the scheduled back-offs:
      the schedule advances with the short runs alone. */
  ghost predicate OnSchedule(deaths: seq<nat>, waits: seq<nat>) {
    |waits| <= |deaths| && forall m | 0 < m <= |waits| :: Scheduled(deaths, waits, m)
  }

  ghost predicate Scheduled(deaths: seq<nat>, waits: seq<nat>, m: nat)
    requires 0 < m <= |waits| <= |deaths|
  {
    ShortsSince(deaths[..m]) < 4 && waits[m - 1] == BACKOFFS[ShortsSince(deaths[..m])]
  }

  lemma OnScheduleExtends(deaths: seq<nat>, waits: seq<nat>, ran: nat)
    requires OnSchedule(deaths, waits)
    ensures OnSchedule(deaths + [ran], waits)
    ensures |waits| == |deaths| && ShortsSince(deaths + [ran]) < 4 ==>
              OnSchedule(deaths + [ran], waits + [BACKOFFS[ShortsSince(deaths + [ran])]])
  {
    var deaths' := deaths + [ran];
    forall m | 0 < m <= |waits|
      ensures Scheduled(deaths', waits, m)
    {
      assert Scheduled(deaths, waits, m) && deaths'[..m] == deaths[..m];
    }
    if |waits| == |deaths| && ShortsSince(deaths') < 4 {
      var waits' := waits + [BACKOFFS[ShortsSince(deaths')]];
      assert deaths'[..|deaths'|] == deaths';
      forall m | 0 < m <= |waits'|
        ensures Scheduled(deaths', waits', m)
      {
        if m <= |waits| {
          assert Scheduled(deaths', waits, m);
        }
      }
    }
  }

  /** The counter after the credit is the number of short runs since the base. */
  lemma CreditIsShortsSince(deaths: seq<nat>, ran: nat)
    ensures ShortsSince(deaths + [ran]) == Credit(if deaths == [] then 0 else 1 + ShortsSince(deaths), ran)
  {
    if deaths != [] {
      assert (deaths + [ran])[..|deaths|] == deaths;
      ShortsSinceStep(deaths + [ran]);
    }
  }

  /** The script's first endings are the deaths handled, each rebuilt but maybe the last. */
  ghost predicate Handled(script: seq<RunEnd>, deaths: seq<nat>) {
    && |deaths| <= |script|
    && (forall i | 0 <= i < |deaths| :: script[i].StreamDied? && script[i].ran == deaths[i])
    && forall i | 0 <= i < |deaths| - 1 :: script[i].after == Rebuilt
  }

  ghost predicate AllRebuilt(script: seq<RunEnd>, deaths: seq<nat>)
    requires Handled(script, deaths)
  {
    deaths != [] ==> script[|deaths| - 1].after == Rebuilt
  }

  /** How the retry loop ends after handling the deaths and sleeping the back-offs. */
  ghost predicate EndsAs(script: seq<RunEnd>, deaths: seq<nat>, outcome: Outcome, waits: seq<nat>) {
    && Handled(script, deaths) && OnSchedule(deaths, waits)
    && |waits| == (if outcome == Exhausted then |deaths| - 1 else |deaths|)
    // Escalation, exactly: at the fourth short run since the base, and not before.
    && (outcome == Exhausted <==> deaths != [] && ShortsSince(deaths) == 4)
    // Every other ending is the script's.
    && match outcome
       case Exhausted => true
       case Running => |deaths| == |script| && AllRebuilt(script, deaths)
       case ReturnedStopped => |deaths| < |script| && script[|deaths|] == Stopped && AllRebuilt(script, deaths)
       case ReturnedError => |deaths| < |script| && script[|deaths|] == OtherError && AllRebuilt(script, deaths)
       case ReturnedCancelled => deaths != [] && script[|deaths| - 1].after == CancelledInBackoff
       case RebuildFatal => deaths != [] && script[|deaths| - 1].after == RebuildFailed
  }

  /** The account at the top of the loop. */
  ghost predicate Accounted(script: seq<RunEnd>, deaths: seq<nat>, waits: seq<nat>, attempt: nat) {
    && Handled(script, deaths) && AllRebuilt(script, deaths) && OnSchedule(deaths, waits)
    && |waits| == |deaths|
    && attempt == (if deaths == [] then 0 else 1 + ShortsSince(deaths)) <= 4
  }

  lemma NothingAccounted(script: seq<RunEnd>)
    ensures Accounted(script, [], [], 0)
  {
  }

  /** A run that ends otherwise than by a death ends the loop. */
  lemma ScriptEnds(script: seq<RunEnd>, deaths: seq<nat>, waits: seq<nat>, attempt: nat)
    requires Accounted(script, deaths, waits, attempt)
    ensures |deaths| == |script| ==> EndsAs(script, deaths, Running, waits)
    ensures |deaths| < |script| && script[|deaths|].Stopped? ==> EndsAs(script, deaths, ReturnedStopped, waits)
    ensures |deaths| < |script| && script[|deaths|].OtherError? ==> EndsAs(script, deaths, ReturnedError, waits)
  {
  }

  /** One more death: it exhausts the budget, or the back-off of the credited attempt is slept. */
  lemma DeathHandled(script: seq<RunEnd>, deaths: seq<nat>, waits: seq<nat>, attempt: nat, credited: nat)
    requires Accounted(script, deaths, waits, attempt) && |deaths| < |script| && script[|deaths|].StreamDied?
    requires credited == Credit(attempt, script[|deaths|].ran)
    ensures var deaths' := deaths + [script[|deaths|].ran];
            && credited == ShortsSince(deaths') <= 4
            && Handled(script, deaths') && OnSchedule(deaths', waits)
            && (credited == 4 ==> EndsAs(script, deaths', Exhausted, waits))
            && (credited < 4 ==> OnSchedule(deaths', waits + [BACKOFFS[credited]]))
  {
    CreditIsShortsSince(deaths, script[|deaths|].ran);
    OnScheduleExtends(deaths, waits, script[|deaths|].ran);
  }

  /** How it goes on after the back-off. */
  lemma AftermathHandled(script: seq<RunEnd>, deaths: seq<nat>, waits: seq<nat>)
    requires Handled(script, deaths) && deaths != [] && OnSchedule(deaths, waits) && |waits| == |deaths|
    requires ShortsSince(deaths) < 4
    ensures match script[|deaths| - 1].after
            case CancelledInBackoff => EndsAs(script, deaths, ReturnedCancelled, waits)
            case RebuildFailed => EndsAs(script, deaths, RebuildFatal, waits)
            case Rebuilt => Accounted(script, deaths, waits, 1 + ShortsSince(deaths))
  {
  }

  /** The retry loop over a script of run endings; Running when the script ends
      first. `waits` are the back-offs slept. */
  method RunWithRetry(script: seq<RunEnd>) returns (outcome: Outcome, waits: seq<nat>)
    ensures exists deaths :: EndsAs(script, deaths, outcome, waits)
  {
    ghost var deaths: seq<nat>;
    var attempt: nat := 0;
    waits, deaths := [], [];
    NothingAccounted(script);
    var i := 0;
    while i < |script|
      invariant 0 <= i == |deaths| <= |script| && Accounted(script, deaths, waits, attempt)
    {
      ScriptEnds(script, deaths, waits, attempt);
      match script[i]
      case Stopped =>
        return ReturnedStopped, waits;
      case OtherError =>
        return ReturnedError, waits;
      case StreamDied(ran, after) =>
        DeathHandled(script, deaths, waits, attempt, Credit(attempt, ran));
        if ran >= HEALTHY {
          attempt := 0;
        } else if ran >= PROGRESS && attempt > 0 {
          attempt := attempt - 1;
        }
        deaths := deaths + [ran];
        if attempt >= |BACKOFFS| {
          return Exhausted, waits;
        }
        waits := waits + [BACKOFFS[attempt]];
        AftermathHandled(script, deaths, waits);
        attempt := attempt + 1;
        match after
        case CancelledInBackoff =>
          return ReturnedCancelled, waits;
        case RebuildFailed =>
          return RebuildFatal, waits;
        case Rebuilt =>
          i := i + 1;
    }
    ScriptEnds(script, deaths, waits, attempt);
    return Running, waits;
  }

  /** The script leaves one ending only. */
  lemma EndingIsUnique(script: seq<RunEnd>, d1: seq<nat>, o1: Outcome, w1: seq<nat>, d2: seq<nat>, o2: Outcome,
                       w2: seq<nat>)
    requires EndsAs(script, d1, o1, w1) && EndsAs(script, d2, o2, w2)
    ensures d1 == d2 && o1 == o2 && w1 == w2
  {
    NoEarlierEnding(script, d1, o1, w1, d2, o2, w2);
    NoEarlierEnding(script, d2, o2, w2, d1, o1, w1);
    assert d1 == d2;
    SameWaits(d1, w1, w2);
  }

  lemma SameWaits(deaths: seq<nat>, w1: seq<nat>, w2: seq<nat>)
    requires OnSchedule(deaths, w1) && OnSchedule(deaths, w2) && |w1| == |w2|
    ensures w1 == w2
  {
    forall i: nat | i < |w1|
      ensures w1[i] == w2[i]
    {
      assert Scheduled(deaths, w1, i + 1) && Scheduled(deaths, w2, i + 1);
    }
  }

  lemma NoEarlierEnding(script: seq<RunEnd>, d1: seq<nat>, o1: Outcome, w1: seq<nat>, d2: seq<nat>, o2: Outcome,
                        w2: seq<nat>)
    requires EndsAs(script, d1, o1, w1) && EndsAs(script, d2, o2, w2)
    ensures |d1| >= |d2|
  {
    var k := if |d1| < |d2| then |d1| else |d2|;
    assert d2[..k] == d1[..k];
    assert d1[..|d1|] == d1;
    assert 0 < k <= |w2| ==> Scheduled(d2, w2, k);
  }

  // --------------------------------------------------------------- main results

  lemma {:induction false} ShortsAfterFirst(deaths: seq<nat>)
    requires deaths != [] && forall i | 1 <= i < |deaths| :: deaths[i] < 10000
    ensures ShortsSince(deaths) == |deaths| - 1
  {
    if |deaths| > 1 {
      ShortsAfterFirst(deaths[..|deaths| - 1]);
      ShortsSinceStep(deaths);
    }
  }

  /** A stream that keeps dying within ten seconds is given up at its fifth death, after
      waits of 1, 2, 5 and 10 seconds, whatever its first run was worth. */
  lemma ShortRunsExhaust(script: seq<RunEnd>, deaths: seq<nat>)
    requires |deaths| == 5 && Handled(script, deaths) && forall i | 1 <= i < 5 :: deaths[i] < 10000
    ensures EndsAs(script, deaths, Exhausted, [1000, 2000, 5000, 10000])
  {
    var waits: seq<nat> := [1000, 2000, 5000, 10000];
    forall m | 0 < m <= 4
      ensures Scheduled(deaths, waits, m)
    {
      ShortsAfterFirst(deaths[..m]);
    }
    ShortsAfterFirst(deaths);
  }

  /** A stream whose runs all make progress never escalates, however often it dies. */
  lemma {:induction false} ProgressNeverEscalates(deaths: seq<nat>)
    requires deaths != [] && forall i | 0 <= i < |deaths| :: deaths[i] >= 10000
    ensures ShortsSince(deaths) == 0
  {
    if |deaths| > 1 {
      ProgressNeverEscalates(deaths[..|deaths| - 1]);
      ShortsSinceStep(deaths);
    }
  }

  /** The comments speak of a run of 10 to 60 s decaying the counter, but the death
      that ends it raises the counter again. Its net effect is nil: put anywhere
      after the first death it changes neither the escalation nor any back-off. */
  lemma {:induction false} MediumRunsForgiveNothing(a: seq<nat>, medium: nat, b: seq<nat>)
    requires a != [] && 10000 <= medium < 60000
    ensures ShortsSince(a + [medium] + b) == ShortsSince(a + b)
  {
    if b == [] {
      assert a + b == a && a + [medium] + b == a + [medium];
      assert (a + [medium])[..|a|] == a;
      ShortsSinceStep(a + [medium]);
    } else {
      var b' := b[..|b| - 1];
      MediumRunsForgiveNothing(a, medium, b');
      assert (a + b)[..|a + b| - 1] == a + b';
      assert (a + [medium] + b)[..|a + [medium] + b| - 1] == a + [medium] + b';
      ShortsSinceStep(a + b);
      ShortsSinceStep(a + [medium] + b);
    }
  }

  /** A run of at least a minute does restore the whole budget: what came before
      it no longer matters. */
  lemma {:induction false} HealthyRunForgivesAll(a: seq<nat>, healthy: nat, b: seq<nat>)
    requires healthy >= 60000
    ensures ShortsSince(a + [healthy] + b) == ShortsSince([healthy] + b)
  {
    if b == [] {
      assert [healthy] + b == [healthy] && a + [healthy] + b == a + [healthy];
      if a != [] {
        ShortsSinceStep(a + [healthy]);
      } else {
        assert a + [healthy] == [healthy];
      }
    } else {
      var b' := b[..|b| - 1];
      HealthyRunForgivesAll(a, healthy, b');
      assert ([healthy] + b)[..|b|] == [healthy] + b';
      assert (a + [healthy] + b)[..|a + b|] == a + [healthy] + b';
      ShortsSinceStep([healthy] + b);
      ShortsSinceStep(a + [healthy] + b);
    }
  }
}
