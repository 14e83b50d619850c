/** The event-driven IQ auto-recorder, cmd/gophertrunk/iqautorecord.go: the
    trigger throttle, the map of recently granted calls, the trigger reasons and
    the reservation of capture paths. Times are in milliseconds. */
module AutoRecorder {
  import opened Wrappers
  import opened Text

  /** autoRecordConcurrencyWindow. */
  const WINDOW := 4000

  /** autoRecordMaxInFlight. */
  const MAX_IN_FLIGHT := 2

  /** What identifies a logical call: trunking.Grant's System, GroupID and Timeslot. */
  datatype Call = Call(system: string, group: nat, slot: nat)

  datatype Grant = Grant(call: Call, emergency: bool, encrypted: bool)

  datatype Settings = Settings(onEmergency: bool, onEncrypted: bool, onConcurrentCalls: int, onVoiceGrant: bool)

  datatype Reason = Emergency | Encrypted | Concurrent | VoiceGrant

  // --------------------------------------------------- the calls seen recently

  function ObservedKey(c: Call): string {
    c.system + "|" + Itoa(c.group) + "|" + Itoa(c.slot)
  }

  /** The key tells calls apart even when a system name contains the separator. */
  lemma ObservedKeyInjective(c: Call, d: Call)
    requires ObservedKey(c) == ObservedKey(d)
    ensures c == d
  {
    var a, b := c.system + "|" + Itoa(c.group), d.system + "|" + Itoa(d.group);
    SplitAtLast(a, Itoa(c.slot), b, Itoa(d.slot), '|');
    SplitAtLast(c.system, Itoa(c.group), d.system, Itoa(d.group), '|');
    ItoaInjective(c.slot, d.slot);
    ItoaInjective(c.group, d.group);
  }

  datatype Stamped = Stamped(call: Call, at: int)

  ghost predicate Nondecreasing(h: seq<Stamped>) {
    forall i, j | 0 <= i < j < |h| :: h[i].at <= h[j].at
  }

  /** The distinct calls granted in the four seconds up to `now`. */
  ghost function ActiveCalls(h: seq<Stamped>, now: int): set<Call> {
    set i | 0 <= i < |h| && h[i].at >= now - 4000 :: h[i].call
  }

  /** Every entry is the time of a grant of that call within the window. */
  ghost predicate SeenSound(seen: map<string, int>, h: seq<Stamped>, now: int) {
    forall k | k in seen :: exists i | 0 <= i < |h| :: ObservedKey(h[i].call) == k && h[i].at == seen[k] >= now - WINDOW
  }

  /** Every grant within the window has an entry at least as recent. */
  ghost predicate SeenComplete(seen: map<string, int>, h: seq<Stamped>, now: int) {
    forall i | 0 <= i < |h| && h[i].at >= now - WINDOW ::
      ObservedKey(h[i].call) in seen && seen[ObservedKey(h[i].call)] >= h[i].at
  }

  /** The map agrees with the whole history as far as the window goes back. */
  ghost predicate SeenIs(seen: map<string, int>, h: seq<Stamped>) {
    if h == [] then seen == map[]
    else SeenSound(seen, h, h[|h| - 1].at) && SeenComplete(seen, h, h[|h| - 1].at)
  }

  function Pruned(seen: map<string, int>, cutoff: int): map<string, int> {
    map k | k in seen && seen[k] >= cutoff :: seen[k]
  }

  lemma PrunedSound(seen: map<string, int>, h: seq<Stamped>, c: Call, before: int, now: int)
    requires SeenSound(seen, h, before)
    ensures SeenSound(Pruned(seen[ObservedKey(c) := now], now - WINDOW), h + [Stamped(c, now)], now)
  {
    var h' := h + [Stamped(c, now)];
    var seen' := Pruned(seen[ObservedKey(c) := now], now - WINDOW);
    forall k | k in seen'
      ensures exists i | 0 <= i < |h'| :: ObservedKey(h'[i].call) == k && h'[i].at == seen'[k] >= now - WINDOW
    {
      if k == ObservedKey(c) {
        assert h'[|h|].call == c;
      } else {
        var i :| 0 <= i < |h| && ObservedKey(h[i].call) == k && h[i].at == seen[k];
        assert h'[i] == h[i];
      }
    }
  }

  lemma PrunedComplete(seen: map<string, int>, h: seq<Stamped>, c: Call, before: int, now: int)
    requires SeenComplete(seen, h, before) && before <= now && forall i | 0 <= i < |h| :: h[i].at <= now
    ensures SeenComplete(Pruned(seen[ObservedKey(c) := now], now - WINDOW), h + [Stamped(c, now)], now)
  {
    var h' := h + [Stamped(c, now)];
    var seen' := Pruned(seen[ObservedKey(c) := now], now - WINDOW);
    forall i | 0 <= i < |h'| && h'[i].at >= now - WINDOW
      ensures ObservedKey(h'[i].call) in seen' && seen'[ObservedKey(h'[i].call)] >= h'[i].at
    {
      if i < |h| && ObservedKey(h[i].call) != ObservedKey(c) {
        assert h[i].at >= before - WINDOW;
        assert seen[ObservedKey(h[i].call)] >= h[i].at;
      }
    }
  }

  lemma NondecreasingExtends(h: seq<Stamped>, c: Call, now: int)
    requires Nondecreasing(h) && (h != [] ==> h[|h| - 1].at <= now)
    ensures Nondecreasing(h + [Stamped(c, now)])
    ensures forall i | 0 <= i < |h| :: h[i].at <= now
  {
    forall i | 0 <= i < |h|
      ensures h[i].at <= now
    {
      if i < |h| - 1 {
        assert h[i].at <= h[|h| - 1].at;
      }
    }
  }

  lemma PrunedFollowsHistory(seen: map<string, int>, h: seq<Stamped>, c: Call, now: int)
    requires SeenIs(seen, h) && Nondecreasing(h) && (h != [] ==> h[|h| - 1].at <= now)
    ensures SeenIs(Pruned(seen[ObservedKey(c) := now], now - WINDOW), h + [Stamped(c, now)])
    ensures Nondecreasing(h + [Stamped(c, now)])
  {
    var before := if h == [] then now else h[|h| - 1].at;
    NondecreasingExtends(h, c, now);
    PrunedSound(seen, h, c, before, now);
    PrunedComplete(seen, h, c, before, now);
  }

  lemma {:induction false} KeysCount(calls: set<Call>, keys: set<string>)
    requires keys == set c | c in calls :: ObservedKey(c)
    ensures |keys| == |calls|
    decreases calls
  {
    if calls == {} {
      assert keys == {};
    } else {
      var c :| c in calls;
      var calls', keys' := calls - {c}, keys - {ObservedKey(c)};
      forall d | d in calls'
        ensures ObservedKey(d) != ObservedKey(c)
      {
        if ObservedKey(d) == ObservedKey(c) {
          ObservedKeyInjective(c, d);
        }
      }
      assert keys' == set d | d in calls' :: ObservedKey(d);
      KeysCount(calls', keys');
    }
  }

  /** The incrementally pruned map counts exactly the distinct calls of the full
      history that were granted within the window. */
  lemma SeenCountsActiveCalls(seen: map<string, int>, h: seq<Stamped>)
    requires SeenIs(seen, h) && h != []
    ensures |seen| == |ActiveCalls(h, h[|h| - 1].at)|
  {
    var active := ActiveCalls(h, h[|h| - 1].at);
    var keys := set c | c in active :: ObservedKey(c);
    forall k | k in seen
      ensures k in keys
    {
      var i :| 0 <= i < |h| && ObservedKey(h[i].call) == k && h[i].at == seen[k];
      assert h[i].call in active;
    }
    assert keys == seen.Keys;
    KeysCount(active, keys);
  }

  /** classify: emergency and encryption take precedence over concurrency. */
  function Classify(cfg: Settings, g: Grant, concurrent: int): Option<Reason> {
    if cfg.onEmergency && g.emergency then Some(Emergency)
    else if cfg.onEncrypted && g.encrypted then Some(Encrypted)
    else if cfg.onConcurrentCalls > 0 && concurrent >= cfg.onConcurrentCalls then Some(Concurrent)
    else if cfg.onVoiceGrant then Some(VoiceGrant)
    else None
  }

  /** Each reason is given exactly when its own condition holds and none before it does. */
  lemma ReasonsExactly(cfg: Settings, g: Grant, n: int)
    ensures var r := Classify(cfg, g, n);
            var emergency, encrypted := cfg.onEmergency && g.emergency, cfg.onEncrypted && g.encrypted;
            var crowded := 0 < cfg.onConcurrentCalls <= n;
            && (r == Some(Emergency) <==> emergency)
            && (r == Some(Encrypted) <==> !emergency && encrypted)
            && (r == Some(Concurrent) <==> !emergency && !encrypted && crowded)
            && (r == Some(VoiceGrant) <==> !emergency && !encrypted && !crowded && cfg.onVoiceGrant)
  {
  }

  // ---------------------------------------------------------------- the trigger

  /** lastAuto is None until the first automatic capture: the zero time, from
      which every cooldown has passed. */
  datatype Throttle = Throttle(lastAuto: Option<int>, inFlight: int)

  predicate Fires(cooldown: int, t: Throttle, now: int, manual: bool) {
    && (manual || t.lastAuto.None? || now - t.lastAuto.value >= cooldown)
    && t.inFlight < MAX_IN_FLIGHT
  }

  function Fire(cooldown: int, t: Throttle, now: int, manual: bool): Throttle {
    if !Fires(cooldown, t, now, manual) then t
    else Throttle(if manual then t.lastAuto else Some(now), t.inFlight + 1)
  }

  /** A manual trigger fires whenever fewer than two captures are running, cooldown or
      not, and leaves the cooldown as it was; an automatic one also waits for it. */
  lemma FiresExactly(cooldown: int, t: Throttle, now: int)
    ensures Fires(cooldown, t, now, true) <==> t.inFlight <= 1
    ensures Fires(cooldown, t, now, false) <==>
              t.inFlight <= 1 && (t.lastAuto.Some? ==> t.lastAuto.value + cooldown <= now)
    ensures Fire(cooldown, t, now, true).lastAuto == t.lastAuto
    ensures t.inFlight <= 1 ==> Fire(cooldown, t, now, true).inFlight == t.inFlight + 1
  {
  }

  // -------------------------------------------------------------- capture paths

  /** filepath.Ext: from the last dot of the last path element. */
  function ExtFrom(name: string, i: nat): string
    requires i <= |name|
  {
    if i == 0 || name[i - 1] == '/' then ""
    else if name[i - 1] == '.' then name[i - 1..]
    else ExtFrom(name, i - 1)
  }

  lemma {:induction false} ExtIsSuffix(name: string, i: nat)
    requires i <= |name|
    ensures |ExtFrom(name, i)| <= |name| && name[|name| - |ExtFrom(name, i)|..] == ExtFrom(name, i)
  {
    if i > 0 && name[i - 1] != '/' && name[i - 1] != '.' {
      ExtIsSuffix(name, i - 1);
    }
  }

  function Stem(name: string): string {
    ExtIsSuffix(name, |name|);
    name[..|name| - |ExtFrom(name, |name|)|]
  }

  /** The n-th path tried for a capture name. */
  function Candidate(dir: string, name: string, n: nat): string {
    dir + "/" + if n > 1 then Stem(name) + "-" + Itoa(n) + ExtFrom(name, |name|) else name
  }

  /** No dot and no slash. */
  predicate NoSplit(s: string) {
    forall i | 0 <= i < |s| :: s[i] != '.' && s[i] != '/'
  }

  lemma {:induction false} ExtAfterLastDot(name: string, i: nat, d: nat)
    requires d < i <= |name| && name[d] == '.' && forall k | d < k < i :: name[k] != '.' && name[k] != '/'
    ensures ExtFrom(name, i) == name[d..]
  {
    if d < i - 1 {
      ExtAfterLastDot(name, i - 1, d);
    }
  }

  /** The counter goes before the extension, whatever dots come earlier in the name. */
  lemma CounterBeforeExtension(dir: string, a: string, e: string, n: nat)
    requires n >= 2 && NoSplit(e)
    ensures Candidate(dir, a + "." + e, n) == dir + "/" + a + "-" + Itoa(n) + "." + e
    ensures Candidate(dir, a + "." + e, 1) == dir + "/" + a + "." + e
  {
    var name := a + "." + e;
    forall k | |a| < k < |name|
      ensures name[k] != '.' && name[k] != '/'
    {
      assert name[k] == e[k - |a| - 1];
    }
    assert name[|a|] == '.';
    ExtAfterLastDot(name, |name|, |a|);
    assert name[|a|..] == "." + e && Stem(name) == a;
    var c := Itoa(n);
    assert dir + "/" + (a + "-" + c + ("." + e)) == dir + "/" + a + "-" + c + "." + e;
    assert dir + "/" + (a + "." + e) == dir + "/" + a + "." + e;
  }

  lemma CandidateInjective(dir: string, name: string, m: nat, n: nat)
    requires 1 <= m && 1 <= n && Candidate(dir, name, m) == Candidate(dir, name, n)
    ensures m == n
  {
    ExtIsSuffix(name, |name|);
    var stem, ext := Stem(name), ExtFrom(name, |name|);
    var a := if m > 1 then stem + "-" + Itoa(m) + ext else name;
    var b := if n > 1 then stem + "-" + Itoa(n) + ext else name;
    assert Candidate(dir, name, m)[|dir| + 1..] == a && Candidate(dir, name, n)[|dir| + 1..] == b;
    assert |name| == |stem| + |ext|;
    if m > 1 && n > 1 {
      assert |Itoa(m)| == |Itoa(n)|;
      assert a[|stem| + 1..|a| - |ext|] == Itoa(m);
      assert b[|stem| + 1..|b| - |ext|] == Itoa(n);
      ItoaInjective(m, n);
    }
  }

  /** The first free number from n on; a candidate once passed cannot come back. */
  function FirstFree(dir: string, name: string, taken: set<string>, n: nat): nat
    decreases |taken|
  {
    var path := Candidate(dir, name, n);
    if path in taken then FirstFree(dir, name, taken - {path}, n + 1) else n
  }

  lemma {:induction false} FirstFreeIsLeast(dir: string, name: string, taken: set<string>, n: nat)
    requires n >= 1
    ensures var k := FirstFree(dir, name, taken, n);
            && k >= n && Candidate(dir, name, k) !in taken
            && forall j | n <= j < k :: Candidate(dir, name, j) in taken
    decreases |taken|
  {
    var path := Candidate(dir, name, n);
    if path in taken {
      FirstFreeIsLeast(dir, name, taken - {path}, n + 1);
      var k := FirstFree(dir, name, taken, n);
      if Candidate(dir, name, k) == path {
        CandidateInjective(dir, name, n, k);
      }
    }
  }

  // ------------------------------------------------------------------ the class

  class IqAutoRecorder {
    const cfg: Settings
    const cooldown: int
    const dir: string
    var seen: map<string, int>
    var lastAuto: Option<int>
    var inFlight: int
    var reserved: set<string>
    /** Every grant seen, with its time. */
    ghost var history: seq<Stamped>

    ghost predicate Valid()
      reads this
    {
      Nondecreasing(history) && SeenIs(seen, history) && 0 <= inFlight <= MAX_IN_FLIGHT
    }

    ghost function State(): Throttle
      reads this
    {
      Throttle(lastAuto, inFlight)
    }

    constructor (cfg: Settings, cooldown: int, dir: string)
      ensures Valid() && history == [] && reserved == {} && State() == Throttle(None, 0)
      ensures this.cfg == cfg && this.cooldown == cooldown && this.dir == dir
    {
      this.cfg, this.cooldown, this.dir := cfg, cooldown, dir;
      seen, lastAuto, inFlight, reserved, history := map[], None, 0, {}, [];
    }

    /** trackConcurrency: the number of distinct calls granted in the last four seconds. */
    method TrackConcurrency(c: Call, now: int) returns (n: nat)
      requires Valid() && (history != [] ==> history[|history| - 1].at <= now)
      modifies `seen, `history
      ensures Valid() && history == old(history) + [Stamped(c, now)]
      ensures n == |ActiveCalls(history, now)|
    {
      PrunedFollowsHistory(seen, history, c, now);
      seen := seen[ObservedKey(c) := now];
      Prune(now - WINDOW);
      history := history + [Stamped(c, now)];
      SeenCountsActiveCalls(seen, history);
      n := |seen|;
    }

    /** The loop of trackConcurrency that deletes aged-out entries. */
    method Prune(cutoff: int)
      modifies `seen
      ensures seen == Pruned(old(seen), cutoff)
    {
      ghost var all := seen;
      var keys := seen.Keys;
      while keys != {}
        invariant keys <= all.Keys
        invariant seen == map k | k in all && (k in keys || all[k] >= cutoff) :: all[k]
        decreases keys
      {
        var k :| k in keys;
        if seen[k] < cutoff {
          seen := seen - {k};
        }
        keys := keys - {k};
      }
    }

    /** maybeFire, up to launching the capture goroutine. */
    method MaybeFire(now: int, manual: bool) returns (fired: bool)
      requires Valid()
      modifies `lastAuto, `inFlight
      ensures Valid()
      ensures fired <==>
                old(inFlight) < 2 && (manual || old(lastAuto) == None || old(lastAuto).value + cooldown <= now)
      ensures lastAuto == if fired && !manual then Some(now) else old(lastAuto)
      ensures inFlight == old(inFlight) + if fired then 1 else 0
      ensures State() == Fire(cooldown, old(State()), now, manual)
    {
      if !manual && lastAuto.Some? && now - lastAuto.value < cooldown {
        return false;
      }
      if inFlight >= MAX_IN_FLIGHT {
        return false;
      }
      if !manual {
        lastAuto := Some(now);
      }
      inFlight := inFlight + 1;
      return true;
    }

    /** The deferred decrement at the end of runCapture. */
    method CaptureFinished()
      requires Valid() && inFlight > 0
      modifies `inFlight
      ensures Valid() && State() == Throttle(old(lastAuto), old(inFlight) - 1)
    {
      inFlight := inFlight - 1;
    }

    /** onGrant: the concurrency trigger counts real, distinct, recent calls. The clock is
        read once for the count and once more, as `later`, for the cooldown. */
    method OnGrant(g: Grant, now: int, later: int) returns (reason: Option<Reason>, fired: bool)
      requires Valid() && (history != [] ==> history[|history| - 1].at <= now)
      modifies `seen, `history, `lastAuto, `inFlight
      ensures Valid() && history == old(history) + [Stamped(g.call, now)]
      ensures reason == Classify(cfg, g, |ActiveCalls(history, now)|)
      ensures fired <==> reason.Some? && Fires(cooldown, old(State()), later, false)
      ensures State() == if reason.Some? then Fire(cooldown, old(State()), later, false) else old(State())
    {
      var concurrent := TrackConcurrency(g.call, now);
      reason := Classify(cfg, g, concurrent);
      fired := false;
      if reason.Some? {
        fired := MaybeFire(later, false);
      }
    }

    /** reserveCapturePath, with the files present on disk at the call. */
    method ReserveCapturePath(name: string, onDisk: set<string>) returns (path: string)
      requires Valid()
      modifies `reserved
      ensures Valid()
      ensures path == Candidate(dir, name, FirstFree(dir, name, old(reserved) + onDisk, 1))
      ensures path !in old(reserved) && path !in onDisk
      ensures reserved == old(reserved) + {path}
    {
      ghost var taken := reserved + onDisk;
      FirstFreeIsLeast(dir, name, taken, 1);
      ghost var first := FirstFree(dir, name, taken, 1);
      var n := 1;
      while true
        invariant 1 <= n <= first && reserved == old(reserved)
        decreases first - n
      {
        path := Candidate(dir, name, n);
        if path !in reserved && path !in onDisk {
          assert n == first;
          reserved := reserved + {path};
          return;
        }
        n := n + 1;
      }
    }
  }

  // --------------------------------------------------------- over all the runs

  datatype FireRecord = FireRecord(now: int, manual: bool)

  /** The throttle with the captures running and the captures fired so far. */
  datatype Run = Run(t: Throttle, running: set<nat>, fires: seq<FireRecord>)

  datatype Event = Trigger(now: int, manual: bool) | CaptureDone(id: nat)

  function RunStep(cooldown: int, r: Run, ev: Event): Option<Run> {
    match ev
    case Trigger(now, manual) =>
      var t' := Fire(cooldown, r.t, now, manual);
      if Fires(cooldown, r.t, now, manual)
      then Some(Run(t', r.running + {|r.fires|}, r.fires + [FireRecord(now, manual)]))
      else Some(r.(t := t'))
    case CaptureDone(id) =>
      if id in r.running then Some(r.(t := r.t.(inFlight := r.t.inFlight - 1), running := r.running - {id})) else None
  }

  ghost predicate IsRun(cooldown: int, trace: seq<Run>, evs: seq<Event>) {
    && |trace| == |evs| + 1
    && trace[0] == Run(Throttle(None, 0), {}, [])
    && forall k {:trigger evs[k]} | 0 <= k < |evs| :: RunStep(cooldown, trace[k], evs[k]) == Some(trace[k + 1])
  }

  /** The times of the automatic captures, in the order they fired. */
  function Autos(fires: seq<FireRecord>): seq<int> {
    if fires == [] then []
    else
      var f := fires[|fires| - 1];
      Autos(fires[..|fires| - 1]) + if f.manual then [] else [f.now]
  }

  ghost predicate RunInv(cooldown: int, r: Run) {
    && r.t.inFlight == |r.running| <= MAX_IN_FLIGHT
    && (forall id | id in r.running :: id < |r.fires|)
    && (r.t.lastAuto == if Autos(r.fires) == [] then None else Some(Autos(r.fires)[|Autos(r.fires)| - 1]))
    && forall k | 0 <= k < |Autos(r.fires)| - 1 :: Autos(r.fires)[k + 1] - Autos(r.fires)[k] >= cooldown
  }

  lemma StepKeepsInv(cooldown: int, r: Run, ev: Event, r': Run)
    requires RunInv(cooldown, r) && RunStep(cooldown, r, ev) == Some(r')
    ensures RunInv(cooldown, r')
  {
    if ev.Trigger? && Fires(cooldown, r.t, ev.now, ev.manual) {
      FiringKeepsInv(cooldown, r, ev.now, ev.manual);
    }
  }

  lemma AutosAppend(fires: seq<FireRecord>, f: FireRecord)
    ensures Autos(fires + [f]) == Autos(fires) + if f.manual then [] else [f.now]
  {
    assert (fires + [f])[..|fires|] == fires;
  }

  lemma FiringKeepsInv(cooldown: int, r: Run, now: int, manual: bool)
    requires RunInv(cooldown, r) && Fires(cooldown, r.t, now, manual)
    ensures RunInv(cooldown, Run(Fire(cooldown, r.t, now, manual), r.running + {|r.fires|},
                                 r.fires + [FireRecord(now, manual)]))
  {
    AutosAppend(r.fires, FireRecord(now, manual));
  }

  lemma {:induction false} RunKeepsInv(cooldown: int, trace: seq<Run>, evs: seq<Event>, k: nat)
    requires IsRun(cooldown, trace, evs) && k <= |evs|
    ensures RunInv(cooldown, trace[k])
  {
    if k > 0 {
      RunKeepsInv(cooldown, trace, evs, k - 1);
      StepKeepsInv(cooldown, trace[k - 1], evs[k - 1], trace[k]);
    }
  }

  /** Over every interleaving of triggers and completions the in-flight count is
      the number of captures running and never exceeds two. */
  lemma InFlightIsRunning(cooldown: int, trace: seq<Run>, evs: seq<Event>, r: Run)
    requires IsRun(cooldown, trace, evs) && r == trace[|evs|]
    ensures 0 <= r.t.inFlight == |r.running| <= MAX_IN_FLIGHT
  {
    RunKeepsInv(cooldown, trace, evs, |evs|);
  }

  lemma {:induction false} SpacedApart(cooldown: int, autos: seq<int>, i: nat, j: nat)
    requires i <= j < |autos| && forall k | 0 <= k < |autos| - 1 :: autos[k + 1] - autos[k] >= cooldown
    ensures autos[j] - autos[i] >= (j - i) * cooldown
  {
    if i < j {
      SpacedApart(cooldown, autos, i, j - 1);
      assert autos[(j - 1) + 1] - autos[j - 1] >= cooldown;
      assert (j - i) * cooldown == (j - 1 - i) * cooldown + cooldown;
    }
  }

  /** Automatic captures are at least a cooldown apart, so j - i of them take at
      least j - i cooldowns; manual captures in between leave that intact, and it
      needs no assumption on the clock. */
  lemma AutomaticCapturesSpaced(cooldown: int, trace: seq<Run>, evs: seq<Event>, r: Run, i: nat, j: nat)
    requires IsRun(cooldown, trace, evs) && r == trace[|evs|] && i <= j < |Autos(r.fires)|
    ensures Autos(r.fires)[j] - Autos(r.fires)[i] >= (j - i) * cooldown
  {
    RunKeepsInv(cooldown, trace, evs, |evs|);
    SpacedApart(cooldown, Autos(r.fires), i, j);
  }

  /** One call of reserveCapturePath. */
  datatype Request = Request(name: string, onDisk: set<string>)

  function Handed(dir: string, reqs: seq<Request>): seq<string> {
    if reqs == [] then []
    else
      var before, q := Handed(dir, reqs[..|reqs| - 1]), reqs[|reqs| - 1];
      var taken := (set i | 0 <= i < |before| :: before[i]) + q.onDisk;
      before + [Candidate(dir, q.name, FirstFree(dir, q.name, taken, 1))]
  }

  /** No path is ever handed out twice, or while a file of that name is on disk. */
  lemma {:induction false} PathsNeverCollide(dir: string, reqs: seq<Request>)
    ensures |Handed(dir, reqs)| == |reqs|
    ensures forall i, j | 0 <= i < j < |reqs| :: Handed(dir, reqs)[i] != Handed(dir, reqs)[j]
    ensures forall i | 0 <= i < |reqs| :: Handed(dir, reqs)[i] !in reqs[i].onDisk
  {
    if reqs != [] {
      PathsNeverCollide(dir, reqs[..|reqs| - 1]);
      var before, q := Handed(dir, reqs[..|reqs| - 1]), reqs[|reqs| - 1];
      var taken := (set i | 0 <= i < |before| :: before[i]) + q.onDisk;
      FirstFreeIsLeast(dir, q.name, taken, 1);
      forall i | 0 <= i < |before|
        ensures before[i] in taken
      {
      }
    }
  }
}
