/** The lock-free IQ drop reporter, cmd/gophertrunk/daemon.go
    installIQDropObserver: any number of driver goroutines count a drop, read the
    clock, load the time of the last log line and race a compare-and-swap for the
    log slot. Every atomic operation is one event; the clock may return anything. */
module DropObserver {
  import opened Wrappers

  /** time.Second in nanoseconds. */
  const SECOND := 1000000000

  /** Where one call of the observer is. */
  datatype Phase = Called | Counted | Clocked(now: int) | Loaded(now: int, prev: int) | WonSlot | Done

  datatype Call = Call(serial: string, phase: Phase)

  /** dropState plus the history of the device: the drops counted, the counts
      reported and the times of the log slots won, oldest first. */
  datatype Device = Device(lastLog: int, sinceLog: nat, drops: nat, reports: seq<nat>, slots: seq<int>)

  datatype State = State(devices: map<string, Device>, calls: seq<Call>)

  datatype Event =
    | DropSeen(serial: string)      // a backend discards a chunk and calls the observer
    | Count(t: nat)                 // LoadOrStore and sinceLog.Add(1)
    | ReadClock(t: nat, now: int)
    | LoadLast(t: nat)
    | TrySlot(t: nat)               // the one-second test and the compare-and-swap
    | Report(t: nat)                // sinceLog.Swap(0) and the log line

  /** LoadOrStore. */
  function Get(s: State, serial: string): Device {
    if serial in s.devices then s.devices[serial] else Device(0, 0, 0, [], [])
  }

  function At(s: State, t: nat, phase: Phase): State
    requires t < |s.calls|
  {
    s.(calls := s.calls[t := s.calls[t].(phase := phase)])
  }

  function Put(s: State, serial: string, d: Device): State {
    s.(devices := s.devices[serial := d])
  }

  function Step(s: State, ev: Event): Option<State> {
    match ev
    case DropSeen(serial) => Some(s.(calls := s.calls + [Call(serial, Called)]))
    case Count(t) =>
      if t < |s.calls| && s.calls[t].phase.Called? then
        var serial := s.calls[t].serial;
        var d := Get(s, serial);
        Some(Put(At(s, t, Counted), serial, d.(sinceLog := d.sinceLog + 1, drops := d.drops + 1)))
      else None
    case ReadClock(t, now) =>
      if t < |s.calls| && s.calls[t].phase.Counted? then Some(At(s, t, Clocked(now))) else None
    case LoadLast(t) =>
      if t < |s.calls| && s.calls[t].phase.Clocked?
      then Some(At(s, t, Loaded(s.calls[t].phase.now, Get(s, s.calls[t].serial).lastLog))) else None
    case TrySlot(t) =>
      if t < |s.calls| && s.calls[t].phase.Loaded? then
        var Loaded(now, prev) := s.calls[t].phase;
        var serial := s.calls[t].serial;
        var d := Get(s, serial);
        if now - prev < SECOND || d.lastLog != prev then Some(At(s, t, Done))
        else Some(Put(At(s, t, WonSlot), serial, d.(lastLog := now, slots := d.slots + [now])))
      else None
    case Report(t) =>
      if t < |s.calls| && s.calls[t].phase.WonSlot? then
        var serial := s.calls[t].serial;
        var d := Get(s, serial);
        Some(Put(At(s, t, Done), serial, d.(sinceLog := 0, reports := d.reports + [d.sinceLog])))
      else None
  }

  ghost predicate IsRun(trace: seq<State>, evs: seq<Event>) {
    && |trace| == |evs| + 1
    && trace[0] == State(map[], [])
    && forall k {:trigger evs[k]} | 0 <= k < |evs| :: Step(trace[k], evs[k]) == Some(trace[k + 1])
  }

  function Sum(s: seq<nat>): nat {
    if s == [] then 0 else Sum(s[..|s| - 1]) + s[|s| - 1]
  }

  /** Calls that hold a log slot for the device and have not reported yet. */
  function Winners(calls: seq<Call>, serial: string): nat {
    if calls == [] then 0
    else Winners(calls[..|calls| - 1], serial) +
         if calls[|calls| - 1].serial == serial && calls[|calls| - 1].phase.WonSlot? then 1 else 0
  }

  /** Calls for the device that have counted their drop. */
  function Counts(calls: seq<Call>, serial: string): nat {
    if calls == [] then 0
    else Counts(calls[..|calls| - 1], serial) +
         if calls[|calls| - 1].serial == serial && !calls[|calls| - 1].phase.Called? then 1 else 0
  }

  lemma {:induction false} CallUpdated(calls: seq<Call>, t: nat, c: Call, serial: string)
    requires t < |calls| && c.serial == calls[t].serial
    ensures Winners(calls[t := c], serial) + (if c.serial == serial && calls[t].phase.WonSlot? then 1 else 0) ==
            Winners(calls, serial) + (if c.serial == serial && c.phase.WonSlot? then 1 else 0)
    ensures Counts(calls[t := c], serial) + (if c.serial == serial && !calls[t].phase.Called? then 1 else 0) ==
            Counts(calls, serial) + (if c.serial == serial && !c.phase.Called? then 1 else 0)
  {
    var n := |calls| - 1;
    if t == n {
      assert calls[t := c][..n] == calls[..n];
    } else {
      assert calls[t := c][..n] == calls[..n][t := c];
      CallUpdated(calls[..n], t, c, serial);
    }
  }

  ghost predicate Spaced(slots: seq<int>) {
    && (slots != [] ==> slots[0] >= SECOND)
    && forall k | 0 <= k < |slots| - 1 :: slots[k + 1] - slots[k] >= SECOND
  }

  ghost predicate DeviceInv(s: State, serial: string) {
    var d := Get(s, serial);
    && d.drops == Counts(s.calls, serial)
    && d.drops == Sum(d.reports) + d.sinceLog
    && |d.slots| == |d.reports| + Winners(s.calls, serial)
    && d.lastLog == (if d.slots == [] then 0 else d.slots[|d.slots| - 1])
    && Spaced(d.slots)
  }

  lemma SumAppend(s: seq<nat>, x: nat)
    ensures Sum(s + [x]) == Sum(s) + x
  {
    assert (s + [x])[..|s|] == s;
  }

  /** The device of an event other than DropSeen, and its record after the event. */
  lemma StepTouches(s: State, ev: Event, s': State, serial: string)
    requires Step(s, ev) == Some(s') && !ev.DropSeen?
    ensures ev.t < |s.calls| && s'.calls == s.calls[ev.t := s'.calls[ev.t]]
            && s'.calls[ev.t].serial == s.calls[ev.t].serial
    ensures s.calls[ev.t].serial != serial ==> Get(s', serial) == Get(s, serial)
  {
  }

  lemma SlotKeepsInv(s: State, t: nat, s': State, serial: string)
    requires DeviceInv(s, serial) && Step(s, TrySlot(t)) == Some(s') && s.calls[t].serial == serial
    ensures DeviceInv(s', serial)
  {
    CallUpdated(s.calls, t, s'.calls[t], serial);
    var d, now := Get(s, serial), s.calls[t].phase.now;
    if s'.calls[t].phase.WonSlot? {
      assert Get(s', serial) == d.(lastLog := now, slots := d.slots + [now]);
      assert now - d.lastLog >= SECOND;
    } else {
      assert Get(s', serial) == d;
    }
  }

  lemma ReportKeepsInv(s: State, t: nat, s': State, serial: string)
    requires DeviceInv(s, serial) && Step(s, Report(t)) == Some(s') && s.calls[t].serial == serial
    ensures DeviceInv(s', serial)
  {
    CallUpdated(s.calls, t, s'.calls[t], serial);
    var d := Get(s, serial);
    SumAppend(d.reports, d.sinceLog);
    assert Get(s', serial) == d.(sinceLog := 0, reports := d.reports + [d.sinceLog]);
  }

  lemma CountKeepsInv(s: State, t: nat, s': State, serial: string)
    requires DeviceInv(s, serial) && Step(s, Count(t)) == Some(s') && s.calls[t].serial == serial
    ensures DeviceInv(s', serial)
  {
    CallUpdated(s.calls, t, s'.calls[t], serial);
    var d := Get(s, serial);
    assert Get(s', serial) == d.(sinceLog := d.sinceLog + 1, drops := d.drops + 1);
  }

  lemma OwnStepKeepsInv(s: State, ev: Event, s': State, serial: string)
    requires DeviceInv(s, serial) && Step(s, ev) == Some(s')
    requires !ev.DropSeen? && s.calls[ev.t].serial == serial
    ensures DeviceInv(s', serial)
  {
    if ev.TrySlot? {
      SlotKeepsInv(s, ev.t, s', serial);
    } else if ev.Report? {
      ReportKeepsInv(s, ev.t, s', serial);
    } else if ev.Count? {
      CountKeepsInv(s, ev.t, s', serial);
    } else {
      CallUpdated(s.calls, ev.t, s'.calls[ev.t], serial);
      assert s'.devices == s.devices;
    }
  }

  lemma StepKeepsInv(s: State, ev: Event, s': State, serial: string)
    requires DeviceInv(s, serial) && Step(s, ev) == Some(s')
    ensures DeviceInv(s', serial)
  {
    if ev.DropSeen? {
      assert s'.calls[..|s.calls|] == s.calls;
    } else {
      StepTouches(s, ev, s', serial);
      if s.calls[ev.t].serial == serial {
        OwnStepKeepsInv(s, ev, s', serial);
      } else {
        CallUpdated(s.calls, ev.t, s'.calls[ev.t], serial);
      }
    }
  }

  lemma {:induction false} RunInv(trace: seq<State>, evs: seq<Event>, k: nat, serial: string)
    requires IsRun(trace, evs) && k <= |evs|
    ensures DeviceInv(trace[k], serial)
  {
    if k > 0 {
      RunInv(trace, evs, k - 1, serial);
      StepKeepsInv(trace[k - 1], evs[k - 1], trace[k], serial);
    }
  }

  // --------------------------------------------------------------- main results

  /** A call wins its slot exactly when the last log line it saw is a second old and still
      the last one. */
  lemma SlotIsWonExactly(s: State, t: nat)
    requires t < |s.calls| && s.calls[t].phase.Loaded?
    ensures var serial, s' := s.calls[t].serial, Step(s, TrySlot(t));
            && s'.Some? && t < |s'.value.calls|
            && (s'.value.calls[t].phase.WonSlot? <==>
                  s.calls[t].phase.now >= Get(s, serial).lastLog + 1000000000
                  && s.calls[t].phase.prev == Get(s, serial).lastLog)
  {
  }

  function Steps(s: State, evs: seq<Event>): Option<State>
    decreases |evs|
  {
    if evs == [] then Some(s)
    else match Step(s, evs[0])
      case None => None
      case Some(s') => Steps(s', evs[1..])
  }

  /** The steps of call t without those of any other call in between. */
  function Alone(serial: string, t: nat, now: int): seq<Event> {
    [DropSeen(serial), Count(t), ReadClock(t, now), LoadLast(t), TrySlot(t), Report(t)]
  }

  /** Where call t is, and its device's record. */
  ghost predicate CallIs(s: Option<State>, t: nat, serial: string, phase: Phase, d: Device) {
    s.Some? && t < |s.value.calls| && s.value.calls[t] == Call(serial, phase) && Get(s.value, serial) == d
  }

  lemma Starts(s: State, serial: string)
    ensures CallIs(Step(s, DropSeen(serial)), |s.calls|, serial, Called, Get(s, serial))
  {
  }

  lemma Counting(s: State, t: nat, serial: string, d: Device)
    requires CallIs(Some(s), t, serial, Called, d)
    ensures CallIs(Step(s, Count(t)), t, serial, Counted, d.(sinceLog := d.sinceLog + 1, drops := d.drops + 1))
  {
  }

  lemma Looking(s: State, t: nat, serial: string, d: Device, now: int)
    requires CallIs(Some(s), t, serial, Counted, d)
    ensures var s' := Step(s, ReadClock(t, now));
            s'.Some? && CallIs(Step(s'.value, LoadLast(t)), t, serial, Loaded(now, d.lastLog), d)
  {
  }

  lemma Winning(s: State, t: nat, serial: string, d: Device, now: int)
    requires CallIs(Some(s), t, serial, Loaded(now, d.lastLog), d) && now - d.lastLog >= SECOND
    ensures CallIs(Step(s, TrySlot(t)), t, serial, WonSlot, d.(lastLog := now, slots := d.slots + [now]))
  {
  }

  lemma Reporting(s: State, t: nat, serial: string, d: Device)
    requires CallIs(Some(s), t, serial, WonSlot, d)
    ensures CallIs(Step(s, Report(t)), t, serial, Done, d.(sinceLog := 0, reports := d.reports + [d.sinceLog]))
  {
  }

  lemma NextStep(s: State, evs: seq<Event>)
    requires evs != [] && Step(s, evs[0]).Some?
    ensures Steps(s, evs) == Steps(Step(s, evs[0]).value, evs[1..])
  {
  }

  lemma SixSteps(s: State, e: seq<Event>, s1: State, s2: State, s3: State, s4: State, s5: State, s6: State)
    requires |e| == 6 && Step(s, e[0]) == Some(s1) && Step(s1, e[1]) == Some(s2) && Step(s2, e[2]) == Some(s3)
    requires Step(s3, e[3]) == Some(s4) && Step(s4, e[4]) == Some(s5) && Step(s5, e[5]) == Some(s6)
    ensures Steps(s, e) == Some(s6)
  {
    NextStep(s, e);
    NextStep(s1, e[1..]);
    assert e[1..][1..] == e[2..] && e[2..][1..] == e[3..] && e[3..][1..] == e[4..] && e[4..][1..] == e[5..];
    NextStep(s2, e[2..]);
    NextStep(s3, e[3..]);
    NextStep(s4, e[4..]);
    NextStep(s5, e[5..]);
  }

  /** A drop seen a second or more after the device's last log line, with no other call
      in between, is reported with all that were pending. */
  lemma QuietDropIsReported(s: State, serial: string, now: int)
    requires now - Get(s, serial).lastLog >= 1000000000
    ensures var d, s' := Get(s, serial), Steps(s, Alone(serial, |s.calls|, now));
            && s'.Some?
            && Get(s'.value, serial) == Device(now, 0, d.drops + 1, d.reports + [d.sinceLog + 1], d.slots + [now])
  {
    var t, d := |s.calls|, Get(s, serial);
    Starts(s, serial);
    var s1 := Step(s, DropSeen(serial)).value;
    Counting(s1, t, serial, d);
    var s2, d2 := Step(s1, Count(t)).value, d.(sinceLog := d.sinceLog + 1, drops := d.drops + 1);
    Looking(s2, t, serial, d2, now);
    var s3 := Step(s2, ReadClock(t, now)).value;
    var s4 := Step(s3, LoadLast(t)).value;
    Winning(s4, t, serial, d2, now);
    var s5, d5 := Step(s4, TrySlot(t)).value, d2.(lastLog := now, slots := d.slots + [now]);
    Reporting(s5, t, serial, d5);
    var s6 := Step(s5, Report(t)).value;
    SixSteps(s, Alone(serial, t, now), s1, s2, s3, s4, s5, s6);
  }

  /** Conservation, over every interleaving: every drop a call has counted is in
      exactly one report or still pending, and a log slot is reported exactly once. */
  lemma DropsConserved(trace: seq<State>, evs: seq<Event>, s: State, serial: string)
    requires IsRun(trace, evs) && s == trace[|evs|]
    ensures Counts(s.calls, serial) == Sum(Get(s, serial).reports) + Get(s, serial).sinceLog
    ensures |Get(s, serial).slots| == |Get(s, serial).reports| + Winners(s.calls, serial)
  {
    RunInv(trace, evs, |evs|, serial);
  }

  lemma {:induction false} SpacedApart(slots: seq<int>, i: nat, j: nat)
    requires Spaced(slots) && i <= j < |slots|
    ensures slots[j] - slots[i] >= (j - i) * SECOND
  {
    if i < j {
      SpacedApart(slots, i, j - 1);
      assert slots[(j - 1) + 1] - slots[j - 1] >= SECOND;
    }
  }

  /** Rate limit: whatever order goroutines read the clock in, the log slots of a
      device are at least a second apart, so j - i slots span at least j - i seconds. */
  lemma SlotsSpaced(trace: seq<State>, evs: seq<Event>, s: State, serial: string, i: nat, j: nat)
    requires IsRun(trace, evs) && s == trace[|evs|] && i <= j < |Get(s, serial).slots|
    ensures Get(s, serial).slots[j] - Get(s, serial).slots[i] >= (j - i) * SECOND
  {
    RunInv(trace, evs, |evs|, serial);
    SpacedApart(Get(s, serial).slots, i, j);
  }
}
