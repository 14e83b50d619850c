/** planConvScanGroups, cmd/gophertrunk/conv_multi.go: the scan list is split into
    one scanner per radio. Channels that name a voice radio run on it; all others
    share one radio, whose group comes last. */
module ScanPlan {
  import opened Wrappers
  import opened Text

  datatype Role = Voice | OtherRole

  /** sdr.PoolEntry as far as the plan looks at it. */
  datatype PoolEntry = PoolEntry(serial: string, role: Role)

  /** convScanGroup. */
  datatype Group = Group(entry: PoolEntry, channels: seq<nat>, dedicated: bool)

  type Lookup = string -> Option<PoolEntry>

  /** convDeviceEntry. */
  function DeviceEntry(find: Lookup, device: string): Option<PoolEntry> {
    var serial := TrimSpace(device);
    if serial == "" then None
    else match find(serial)
      case None => None
      case Some(e) => if e.role.Voice? then Some(e) else None
  }

  /** The serial of the voice radio a channel's device resolves to. */
  function Pin(find: Lookup, device: string): Option<string> {
    match DeviceEntry(find, TrimSpace(device))
    case None => None
    case Some(e) => Some(e.serial)
  }

  /** The radios the channels are pinned to; everything below is about these. */
  function Pins(find: Lookup, devices: seq<string>): (pins: seq<Option<string>>)
    ensures |pins| == |devices|
  {
    seq(|devices|, i requires 0 <= i < |devices| => Pin(find, devices[i]))
  }

  ghost predicate Increasing(s: seq<nat>) {
    forall i, j | 0 <= i < j < |s| :: s[i] < s[j]
  }

  // ------------------------------------------------------------ the merge step

  function Merge(a: seq<nat>, b: seq<nat>): seq<nat> {
    if a == [] then b
    else if b == [] then a
    else if a[0] < b[0] then [a[0]] + Merge(a[1..], b)
    else [b[0]] + Merge(a, b[1..])
  }

  method MergeSortedInts(a: seq<nat>, b: seq<nat>) returns (out: seq<nat>)
    ensures out == Merge(a, b)
  {
    out := [];
    var i, j := 0, 0;
    while i < |a| && j < |b|
      invariant 0 <= i <= |a| && 0 <= j <= |b|
      invariant Merge(a, b) == out + Merge(a[i..], b[j..])
      decreases |a| - i + |b| - j
    {
      if a[i] < b[j] {
        out := out + [a[i]];
        i := i + 1;
      } else {
        out := out + [b[j]];
        j := j + 1;
      }
    }
    out := out + a[i..];
    out := out + b[j..];
  }

  lemma PrependIncreasing(x: nat, s: seq<nat>)
    requires Increasing(s) && forall y | y in s :: x < y
    ensures Increasing([x] + s)
  {
    forall k | 0 <= k < |s|
      ensures x < s[k]
    {
      assert s[k] in s;
    }
  }

  /** Merging two increasing lists without common elements gives their increasing union. */
  lemma {:induction false} MergeFacts(a: seq<nat>, b: seq<nat>)
    requires Increasing(a) && Increasing(b) && forall x | x in a :: x !in b
    ensures Increasing(Merge(a, b))
    ensures forall x :: x in Merge(a, b) <==> x in a || x in b
  {
    if a != [] && b != [] {
      assert a == [a[0]] + a[1..] && b == [b[0]] + b[1..];
      assert a[0] in a && b[0] in b;
      if a[0] < b[0] {
        MergeFacts(a[1..], b);
        PrependIncreasing(a[0], Merge(a[1..], b));
      } else {
        MergeFacts(a, b[1..]);
        PrependIncreasing(b[0], Merge(a, b[1..]));
      }
    }
  }

  // ------------------------------------------------- which channels go where

  /** The channels below n pinned to a radio, in list order. */
  function PinnedTo(pins: seq<Option<string>>, n: nat, serial: string): seq<nat>
    requires n <= |pins|
  {
    if n == 0 then []
    else PinnedTo(pins, n - 1, serial) + if pins[n - 1] == Some(serial) then [n - 1] else []
  }

  /** The channels below n that no radio is named for, in list order. */
  function Unpinned(pins: seq<Option<string>>, n: nat): seq<nat>
    requires n <= |pins|
  {
    if n == 0 then []
    else Unpinned(pins, n - 1) + if pins[n - 1] == None then [n - 1] else []
  }

  lemma {:induction false} PinnedToFacts(pins: seq<Option<string>>, n: nat, serial: string)
    requires n <= |pins|
    ensures Increasing(PinnedTo(pins, n, serial))
    ensures forall i: nat :: i in PinnedTo(pins, n, serial) <==> i < n && pins[i] == Some(serial)
  {
    if n > 0 {
      PinnedToFacts(pins, n - 1, serial);
      AppendIncreasing(PinnedTo(pins, n - 1, serial), n - 1);
    }
  }

  lemma {:induction false} UnpinnedFacts(pins: seq<Option<string>>, n: nat)
    requires n <= |pins|
    ensures Increasing(Unpinned(pins, n))
    ensures forall i: nat :: i in Unpinned(pins, n) <==> i < n && pins[i] == None
  {
    if n > 0 {
      UnpinnedFacts(pins, n - 1);
      AppendIncreasing(Unpinned(pins, n - 1), n - 1);
    }
  }

  lemma AppendIncreasing(s: seq<nat>, x: nat)
    requires Increasing(s) && forall y | y in s :: y < x
    ensures Increasing(s + [x])
  {
    forall k | 0 <= k < |s|
      ensures s[k] < x
    {
      assert s[k] in s;
    }
  }

  // --------------------------------------------------------------- the code

  /** The map from serials to groups is exact, so no two groups share a radio. */
  ghost predicate Indexed(groups: seq<Group>, bySerial: map<string, nat>) {
    && (forall s | s in bySerial :: bySerial[s] < |groups| && groups[bySerial[s]].entry.serial == s)
    && forall g | 0 <= g < |groups| :: groups[g].entry.serial in bySerial && bySerial[groups[g].entry.serial] == g
  }

  ghost predicate Dedicated(pins: seq<Option<string>>, n: nat, g: Group)
    requires n <= |pins|
  {
    g.dedicated && g.channels != [] && g.channels == PinnedTo(pins, n, g.entry.serial)
  }

  /** Groups come in the order of their first channels. */
  ghost predicate FirstOrder(groups: seq<Group>) {
    forall g, h | 0 <= g < h < |groups| :: StartsBefore(groups[g], groups[h])
  }

  predicate StartsBefore(g: Group, h: Group) {
    g.channels != [] && h.channels != [] && g.channels[0] < h.channels[0]
  }

  ghost predicate ClaimedBelow(pins: seq<Option<string>>, n: nat, serial: string)
    requires n <= |pins|
  {
    exists i | 0 <= i < n :: pins[i] == Some(serial)
  }

  /** What the pass over the first n channels leaves behind. */
  ghost predicate SplitDone(pins: seq<Option<string>>, n: nat, groups: seq<Group>, bySerial: map<string, nat>)
    requires n <= |pins|
  {
    && Indexed(groups, bySerial) && FirstOrder(groups)
    && (forall g | 0 <= g < |groups| :: Dedicated(pins, n, groups[g]))
    && forall s :: s in bySerial <==> ClaimedBelow(pins, n, s)
  }

  /** The pass over the scan list. */
  method Split(devices: seq<string>, find: Lookup)
    returns (groups: seq<Group>, bySerial: map<string, nat>, shared: seq<nat>)
    ensures SplitDone(Pins(find, devices), |devices|, groups, bySerial)
    ensures shared == Unpinned(Pins(find, devices), |devices|)
  {
    ghost var pins := Pins(find, devices);
    groups, bySerial, shared := [], map[], [];
    NothingSplit(pins);
    for i := 0 to |devices|
      invariant SplitDone(pins, i, groups, bySerial)
      invariant shared == Unpinned(pins, i)
    {
      groups, bySerial, shared := SplitStep(groups, bySerial, shared, find, devices, i);
    }
  }

  lemma NothingSplit(pins: seq<Option<string>>)
    ensures SplitDone(pins, 0, [], map[]) && Unpinned(pins, 0) == []
  {
  }

  /** The loop body. */
  method SplitStep(groups: seq<Group>, bySerial: map<string, nat>, shared: seq<nat>, find: Lookup,
                   devices: seq<string>, i: nat)
    returns (groups': seq<Group>, bySerial': map<string, nat>, shared': seq<nat>)
    requires i < |devices|
    requires SplitDone(Pins(find, devices), i, groups, bySerial) && shared == Unpinned(Pins(find, devices), i)
    ensures SplitDone(Pins(find, devices), i + 1, groups', bySerial') && shared' == Unpinned(Pins(find, devices), i + 1)
  {
    var e := Resolve(find, devices[i]);
    groups', bySerial', shared' := Place(groups, bySerial, shared, e, i, Pins(find, devices));
  }

  /** The loop body once the channel's device is resolved. */
  method Place(groups: seq<Group>, bySerial: map<string, nat>, shared: seq<nat>, e: Option<PoolEntry>, i: nat,
               ghost pins: seq<Option<string>>)
    returns (groups': seq<Group>, bySerial': map<string, nat>, shared': seq<nat>)
    requires i < |pins| && pins[i] == if e.Some? then Some(e.value.serial) else None
    requires SplitDone(pins, i, groups, bySerial) && shared == Unpinned(pins, i)
    ensures SplitDone(pins, i + 1, groups', bySerial') && shared' == Unpinned(pins, i + 1)
  {
    groups', bySerial', shared' := groups, bySerial, shared;
    if e.None? {
      SkipPinned(pins, i, groups, bySerial);
      shared' := shared + [i];
      return;
    }
    groups', bySerial' := AddPinned(groups, bySerial, e.value, i, pins);
  }

  /** The loop body's look at a channel's device; None sends it to the shared radio. */
  method Resolve(find: Lookup, device: string) returns (e: Option<PoolEntry>)
    ensures Pin(find, device) == if e.Some? then Some(e.value.serial) else None
  {
    var dev := TrimSpace(device);
    if dev == "" {
      return None;
    }
    e := DeviceEntry(find, dev);
  }

  lemma SkipPinned(pins: seq<Option<string>>, i: nat, groups: seq<Group>, bySerial: map<string, nat>)
    requires i < |pins| && pins[i] == None && SplitDone(pins, i, groups, bySerial)
    ensures SplitDone(pins, i + 1, groups, bySerial)
  {
    ClaimedStep(pins, i);
  }

  /** The tail of the loop body: channel i joins its radio's group, a new one if need be. */
  method AddPinned(groups: seq<Group>, bySerial: map<string, nat>, e: PoolEntry, i: nat,
                   ghost pins: seq<Option<string>>)
    returns (groups': seq<Group>, bySerial': map<string, nat>)
    requires i < |pins| && pins[i] == Some(e.serial)
    requires SplitDone(pins, i, groups, bySerial)
    ensures SplitDone(pins, i + 1, groups', bySerial')
  {
    groups', bySerial' := groups, bySerial;
    if e.serial !in bySerial {
      bySerial' := bySerial[e.serial := |groups|];
      groups' := groups + [Group(e, [], true)];
    }
    var g := bySerial'[e.serial];
    groups' := groups'[g := groups'[g].(channels := groups'[g].channels + [i])];
    assert [] + [i] == [i];
    assert e.serial !in bySerial ==> groups' == groups + [Group(e, [i], true)];
    PinnedIndexed(groups, bySerial, e, i, groups', bySerial');
    PinnedOrder(pins, groups, bySerial, e, i, groups');
    PinnedDedicated(pins, groups, bySerial, e, i, groups');
    ClaimedStep(pins, i);
  }

  /** The groups after channel i joined radio e's group. */
  predicate Joined(groups: seq<Group>, bySerial: map<string, nat>, e: PoolEntry, i: nat, groups': seq<Group>) {
    if e.serial in bySerial then
      var g := bySerial[e.serial];
      g < |groups| && groups' == groups[g := groups[g].(channels := groups[g].channels + [i])]
    else groups' == groups + [Group(e, [i], true)]
  }

  lemma PinnedIndexed(groups: seq<Group>, bySerial: map<string, nat>, e: PoolEntry, i: nat,
                      groups': seq<Group>, bySerial': map<string, nat>)
    requires Indexed(groups, bySerial) && Joined(groups, bySerial, e, i, groups')
    requires bySerial' == if e.serial in bySerial then bySerial else bySerial[e.serial := |groups|]
    ensures Indexed(groups', bySerial')
  {
  }

  lemma DedicatedBelow(pins: seq<Option<string>>, n: nat, g: Group)
    requires n <= |pins| && Dedicated(pins, n, g)
    ensures g.channels != [] && g.channels[0] < n
  {
    PinnedToFacts(pins, n, g.entry.serial);
    assert g.channels[0] in g.channels;
  }

  lemma PinnedOrder(pins: seq<Option<string>>, groups: seq<Group>, bySerial: map<string, nat>, e: PoolEntry, i: nat,
                    groups': seq<Group>)
    requires i < |pins| && SplitDone(pins, i, groups, bySerial) && Joined(groups, bySerial, e, i, groups')
    ensures FirstOrder(groups')
  {
    forall g | 0 <= g < |groups|
      ensures groups'[g].channels != [] && groups'[g].channels[0] == groups[g].channels[0] < i
    {
      assert Dedicated(pins, i, groups[g]);
      DedicatedBelow(pins, i, groups[g]);
    }
  }

  lemma PinnedDedicated(pins: seq<Option<string>>, groups: seq<Group>, bySerial: map<string, nat>, e: PoolEntry, i: nat,
                        groups': seq<Group>)
    requires i < |pins| && pins[i] == Some(e.serial) && SplitDone(pins, i, groups, bySerial)
    requires Joined(groups, bySerial, e, i, groups')
    ensures forall h | 0 <= h < |groups'| :: Dedicated(pins, i + 1, groups'[h])
  {
    forall h | 0 <= h < |groups'|
      ensures Dedicated(pins, i + 1, groups'[h])
    {
      if h < |groups| {
        KeptOrGrown(pins, i, e, groups[h]);
      } else {
        FirstOfRadio(pins, i, e);
      }
    }
  }

  lemma KeptOrGrown(pins: seq<Option<string>>, i: nat, e: PoolEntry, g: Group)
    requires i < |pins| && pins[i] == Some(e.serial) && Dedicated(pins, i, g)
    ensures if g.entry.serial == e.serial then Dedicated(pins, i + 1, g.(channels := g.channels + [i]))
            else Dedicated(pins, i + 1, g)
  {
  }

  lemma FirstOfRadio(pins: seq<Option<string>>, i: nat, e: PoolEntry)
    requires i < |pins| && pins[i] == Some(e.serial) && !ClaimedBelow(pins, i, e.serial)
    ensures Dedicated(pins, i + 1, Group(e, [i], true))
  {
    PinnedMeansClaimed(pins, i, e.serial);
  }

  lemma PinnedMeansClaimed(pins: seq<Option<string>>, n: nat, serial: string)
    requires n <= |pins|
    ensures PinnedTo(pins, n, serial) != [] ==> ClaimedBelow(pins, n, serial)
  {
    PinnedToFacts(pins, n, serial);
    var mine := PinnedTo(pins, n, serial);
    assert mine != [] ==> mine[0] in mine;
  }

  lemma ClaimedStep(pins: seq<Option<string>>, i: nat)
    requires i < |pins|
    ensures forall s :: ClaimedBelow(pins, i + 1, s) <==> ClaimedBelow(pins, i, s) || pins[i] == Some(s)
  {
  }

  /** planConvScanGroups; `devices` are the channels' device names in list order. */
  method PlanConvScanGroups(devices: seq<string>, voices: seq<PoolEntry>, find: Lookup, wantShared: bool)
    returns (groups: seq<Group>)
    ensures voices == [] ==> groups == []
    ensures voices != [] ==> IsPlan(Pins(find, devices), voices, wantShared, groups)
  {
    if voices == [] {
      return [];
    }
    ghost var pins := Pins(find, devices);
    var bySerial, shared;
    groups, bySerial, shared := Split(devices, find);
    if shared == [] && !wantShared {
      PlanWithoutShared(pins, voices, groups, bySerial);
      return;
    }
    var v := LastUnclaimed(voices, bySerial);
    if v < 0 {
      ghost var before := groups;
      var g := bySerial[voices[|voices| - 1].serial];
      groups := JoinGroup(groups, g, shared);
      PlanWithMerge(pins, voices, before, bySerial, g, groups, wantShared);
      return;
    }
    PlanWithSharedRadio(pins, voices, groups, bySerial, v, wantShared);
    groups := groups + [Group(voices[v], shared, false)];
  }

  /** The last voice radio no channel claimed, or -1. */
  method LastUnclaimed(voices: seq<PoolEntry>, bySerial: map<string, nat>) returns (v: int)
    ensures -1 <= v < |voices|
    ensures v >= 0 ==> voices[v].serial !in bySerial
    ensures forall w | v < w < |voices| :: voices[w].serial in bySerial
  {
    v := |voices| - 1;
    while v >= 0
      invariant -1 <= v < |voices|
      invariant forall w | v < w < |voices| :: voices[w].serial in bySerial
    {
      if voices[v].serial !in bySerial {
        return;
      }
      v := v - 1;
    }
  }

  /** Group g takes the shared channels too and moves to the end. */
  method JoinGroup(groups: seq<Group>, g: nat, shared: seq<nat>) returns (groups': seq<Group>)
    requires g < |groups|
    ensures groups' == groups[..g] + groups[g + 1..] + [groups[g].(channels := Merge(groups[g].channels, shared))]
  {
    var merged := MergeSortedInts(groups[g].channels, shared);
    groups' := groups[g := groups[g].(channels := merged)];
    groups' := groups'[..g] + groups'[g + 1..] + [groups'[g]];
  }

  // ------------------------------------------------------ what the plan promises

  ghost predicate DistinctRadios(groups: seq<Group>) {
    forall g, h | 0 <= g < h < |groups| :: groups[g].entry.serial != groups[h].entry.serial
  }

  ghost predicate Claimed(pins: seq<Option<string>>, serial: string) {
    ClaimedBelow(pins, |pins|, serial)
  }

  /** The shared group's radio: the last voice radio that no channel names, or the
      last voice radio when a channel names every one. */
  ghost predicate IsSharedRadio(pins: seq<Option<string>>, voices: seq<PoolEntry>, serial: string) {
    || (exists v | 0 <= v < |voices| ::
          && voices[v].serial == serial && !Claimed(pins, serial)
          && forall w | v < w < |voices| :: Claimed(pins, voices[w].serial))
    || (voices != [] && voices[|voices| - 1].serial == serial
        && forall w | 0 <= w < |voices| :: Claimed(pins, voices[w].serial))
  }

  /** The radio channel i runs on when the shared group has radio `shared`. */
  function Owner(pins: seq<Option<string>>, shared: string, i: nat): string
    requires i < |pins|
  {
    match pins[i]
    case Some(serial) => serial
    case None => shared
  }

  /** Group g lists, in order, exactly the channels that run on its radio. */
  ghost predicate ListsItsOwn(pins: seq<Option<string>>, shared: string, g: Group) {
    && Increasing(g.channels)
    && forall i: nat :: i in g.channels <==> i < |pins| && Owner(pins, shared, i) == g.entry.serial
  }

  ghost predicate HasRadio(groups: seq<Group>, serial: string) {
    exists g | 0 <= g < |groups| :: groups[g].entry.serial == serial
  }

  ghost predicate NeedsShared(pins: seq<Option<string>>, wantShared: bool) {
    wantShared || exists i | 0 <= i < |pins| :: pins[i] == None
  }

  ghost predicate IsPlanWith(pins: seq<Option<string>>, shared: string, groups: seq<Group>) {
    && DistinctRadios(groups)
    && (forall g | 0 <= g < |groups| ::
          && ListsItsOwn(pins, shared, groups[g])
          && (groups[g].dedicated <==> Claimed(pins, groups[g].entry.serial)))
    && forall i | 0 <= i < |pins| :: HasRadio(groups, Owner(pins, shared, i))
  }

  /** The plan: one group per radio, each listing its own channels, in the order of their
      first channels; when there are unpinned or manual-tune channels, the group that
      takes them comes last. */
  ghost predicate IsPlan(pins: seq<Option<string>>, voices: seq<PoolEntry>, wantShared: bool, groups: seq<Group>) {
    exists shared ::
      && IsPlanWith(pins, shared, groups)
      && (if NeedsShared(pins, wantShared)
          then IsSharedRadio(pins, voices, shared) && groups != [] && groups[|groups| - 1].entry.serial == shared
               && FirstOrder(groups[..|groups| - 1])
          else FirstOrder(groups))
  }

  // --------------------------------------------------------- the plan is one

  lemma ClaimedHasRadio(pins: seq<Option<string>>, groups: seq<Group>, bySerial: map<string, nat>, i: nat)
    requires SplitDone(pins, |pins|, groups, bySerial) && i < |pins| && pins[i].Some?
    ensures HasRadio(groups, pins[i].value)
  {
    assert ClaimedBelow(pins, |pins|, pins[i].value);
  }

  /** A dedicated group lists its own channels as long as the shared radio is another. */
  lemma DedicatedListsItsOwn(pins: seq<Option<string>>, shared: string, g: Group)
    requires Dedicated(pins, |pins|, g)
    requires g.entry.serial != shared || Unpinned(pins, |pins|) == []
    ensures ListsItsOwn(pins, shared, g) && Claimed(pins, g.entry.serial)
  {
    PinnedToFacts(pins, |pins|, g.entry.serial);
    UnpinnedFacts(pins, |pins|);
    assert g.channels[0] in g.channels;
  }

  lemma DedicatedGroups(pins: seq<Option<string>>, shared: string, groups: seq<Group>, bySerial: map<string, nat>)
    requires SplitDone(pins, |pins|, groups, bySerial) && (shared !in bySerial || Unpinned(pins, |pins|) == [])
    ensures DistinctRadios(groups)
    ensures forall g | 0 <= g < |groups| ::
              groups[g].dedicated && ListsItsOwn(pins, shared, groups[g]) && Claimed(pins, groups[g].entry.serial)
  {
    forall g | 0 <= g < |groups|
      ensures groups[g].dedicated && ListsItsOwn(pins, shared, groups[g]) && Claimed(pins, groups[g].entry.serial)
    {
      assert Dedicated(pins, |pins|, groups[g]);
      DedicatedListsItsOwn(pins, shared, groups[g]);
    }
  }

  lemma PlanWithoutShared(pins: seq<Option<string>>, voices: seq<PoolEntry>, groups: seq<Group>,
                          bySerial: map<string, nat>)
    requires SplitDone(pins, |pins|, groups, bySerial) && Unpinned(pins, |pins|) == []
    ensures IsPlan(pins, voices, false, groups)
  {
    UnpinnedFacts(pins, |pins|);
    DedicatedGroups(pins, "", groups, bySerial);
    assert forall i: nat | i < |pins| :: i !in Unpinned(pins, |pins|);
    forall i | 0 <= i < |pins|
      ensures HasRadio(groups, Owner(pins, "", i))
    {
      ClaimedHasRadio(pins, groups, bySerial, i);
    }
    assert IsPlanWith(pins, "", groups);
  }

  lemma SharedIsNeeded(pins: seq<Option<string>>, wantShared: bool)
    ensures NeedsShared(pins, wantShared) <==> wantShared || Unpinned(pins, |pins|) != []
  {
    UnpinnedFacts(pins, |pins|);
    var u := Unpinned(pins, |pins|);
    assert u != [] ==> u[0] in u;
  }

  lemma SharedGroupsArePlan(pins: seq<Option<string>>, voices: seq<PoolEntry>, wantShared: bool, shared: string,
                            groups: seq<Group>)
    requires wantShared || Unpinned(pins, |pins|) != []
    requires IsPlanWith(pins, shared, groups) && IsSharedRadio(pins, voices, shared)
    requires groups != [] && groups[|groups| - 1].entry.serial == shared && FirstOrder(groups[..|groups| - 1])
    ensures IsPlan(pins, voices, wantShared, groups)
  {
    SharedIsNeeded(pins, wantShared);
  }

  lemma PlanWithSharedRadio(pins: seq<Option<string>>, voices: seq<PoolEntry>, groups: seq<Group>,
                            bySerial: map<string, nat>, v: int, wantShared: bool)
    requires SplitDone(pins, |pins|, groups, bySerial) && (wantShared || Unpinned(pins, |pins|) != [])
    requires 0 <= v < |voices| && voices[v].serial !in bySerial
    requires forall w | v < w < |voices| :: voices[w].serial in bySerial
    ensures IsPlan(pins, voices, wantShared, groups + [Group(voices[v], Unpinned(pins, |pins|), false)])
  {
    var shared := voices[v].serial;
    var last := Group(voices[v], Unpinned(pins, |pins|), false);
    PlanAppendsShared(pins, groups, bySerial, last);
    LastUnclaimedIsShared(pins, voices, groups, bySerial, v);
    assert (groups + [last])[..|groups|] == groups;
    SharedGroupsArePlan(pins, voices, wantShared, shared, groups + [last]);
  }

  lemma LastUnclaimedIsShared(pins: seq<Option<string>>, voices: seq<PoolEntry>, groups: seq<Group>,
                              bySerial: map<string, nat>, v: int)
    requires SplitDone(pins, |pins|, groups, bySerial)
    requires 0 <= v < |voices| && voices[v].serial !in bySerial
    requires forall w | v < w < |voices| :: voices[w].serial in bySerial
    ensures IsSharedRadio(pins, voices, voices[v].serial)
  {
    SplitIsClaimed(pins, groups, bySerial);
  }

  lemma SplitIsClaimed(pins: seq<Option<string>>, groups: seq<Group>, bySerial: map<string, nat>)
    requires SplitDone(pins, |pins|, groups, bySerial)
    ensures forall s :: s in bySerial <==> Claimed(pins, s)
  {
  }

  lemma PlanAppendsShared(pins: seq<Option<string>>, groups: seq<Group>, bySerial: map<string, nat>, last: Group)
    requires SplitDone(pins, |pins|, groups, bySerial)
    requires last.entry.serial !in bySerial && last.channels == Unpinned(pins, |pins|) && !last.dedicated
    ensures IsPlanWith(pins, last.entry.serial, groups + [last])
  {
    var shared := last.entry.serial;
    DedicatedGroups(pins, shared, groups, bySerial);
    SplitIsClaimed(pins, groups, bySerial);
    SharedListsItsOwn(pins, last);
    forall i | 0 <= i < |pins|
      ensures HasRadio(groups + [last], Owner(pins, shared, i))
    {
      OwnerHasRadio(pins, groups, bySerial, last, i);
    }
    assert forall g | 0 <= g < |groups| :: groups[g].entry.serial in bySerial;
  }

  lemma OwnerHasRadio(pins: seq<Option<string>>, groups: seq<Group>, bySerial: map<string, nat>, last: Group, i: nat)
    requires SplitDone(pins, |pins|, groups, bySerial) && i < |pins|
    ensures HasRadio(groups + [last], Owner(pins, last.entry.serial, i))
  {
    if pins[i].Some? {
      ClaimedHasRadio(pins, groups, bySerial, i);
    }
    RadiosAppend(groups, last, Owner(pins, last.entry.serial, i));
  }

  lemma SharedListsItsOwn(pins: seq<Option<string>>, g: Group)
    requires g.channels == Unpinned(pins, |pins|) && !Claimed(pins, g.entry.serial)
    ensures ListsItsOwn(pins, g.entry.serial, g)
  {
    UnpinnedFacts(pins, |pins|);
  }

  lemma RadiosAppend(groups: seq<Group>, last: Group, serial: string)
    requires HasRadio(groups, serial) || serial == last.entry.serial
    ensures HasRadio(groups + [last], serial)
  {
    var groups' := groups + [last];
    if HasRadio(groups, serial) {
      var g :| 0 <= g < |groups| && groups[g].entry.serial == serial;
      assert groups'[g].entry.serial == serial;
    } else {
      assert groups'[|groups|].entry.serial == serial;
    }
  }

  /** The merged group lists the shared radio's own channels and all unpinned ones. */
  lemma MergedListsItsOwn(pins: seq<Option<string>>, g: Group)
    requires Dedicated(pins, |pins|, g)
    ensures ListsItsOwn(pins, g.entry.serial, g.(channels := Merge(g.channels, Unpinned(pins, |pins|))))
    ensures Claimed(pins, g.entry.serial)
  {
    PinnedToFacts(pins, |pins|, g.entry.serial);
    UnpinnedFacts(pins, |pins|);
    MergeFacts(g.channels, Unpinned(pins, |pins|));
    assert g.channels[0] in g.channels;
  }

  lemma PlanWithMerge(pins: seq<Option<string>>, voices: seq<PoolEntry>, before: seq<Group>,
                      bySerial: map<string, nat>, g: nat, groups: seq<Group>, wantShared: bool)
    requires SplitDone(pins, |pins|, before, bySerial) && voices != [] && (wantShared || Unpinned(pins, |pins|) != [])
    requires forall w | 0 <= w < |voices| :: voices[w].serial in bySerial
    requires g < |before| && before[g].entry.serial == voices[|voices| - 1].serial
    requires groups == before[..g] + before[g + 1..] +
                       [before[g].(channels := Merge(before[g].channels, Unpinned(pins, |pins|)))]
    ensures IsPlan(pins, voices, wantShared, groups)
  {
    MergeIsPlanWith(pins, before, bySerial, g, groups);
    SplitIsClaimed(pins, before, bySerial);
    assert groups[..|groups| - 1] == before[..g] + before[g + 1..];
    OrderWithout(before, g);
    SharedGroupsArePlan(pins, voices, wantShared, before[g].entry.serial, groups);
  }

  lemma OrderWithout(before: seq<Group>, g: nat)
    requires FirstOrder(before) && g < |before|
    ensures FirstOrder(before[..g] + before[g + 1..])
  {
    var rest := before[..g] + before[g + 1..];
    forall h, k | 0 <= h < k < |rest|
      ensures StartsBefore(rest[h], rest[k])
    {
      var h' := if h < g then h else h + 1;
      var k' := if k < g then k else k + 1;
      assert rest[h] == before[h'] && rest[k] == before[k'];
    }
  }

  lemma MergeIsPlanWith(pins: seq<Option<string>>, before: seq<Group>, bySerial: map<string, nat>, g: nat,
                        groups: seq<Group>)
    requires SplitDone(pins, |pins|, before, bySerial) && g < |before|
    requires groups == before[..g] + before[g + 1..] +
                       [before[g].(channels := Merge(before[g].channels, Unpinned(pins, |pins|)))]
    ensures IsPlanWith(pins, before[g].entry.serial, groups)
  {
    var shared := before[g].entry.serial;
    MergedListsItsOwn(pins, before[g]);
    forall h | 0 <= h < |groups|
      ensures ListsItsOwn(pins, shared, groups[h])
      ensures groups[h].dedicated && Claimed(pins, groups[h].entry.serial)
    {
      if h < |groups| - 1 {
        var h' := if h < g then h else h + 1;
        assert groups[h] == before[h'];
        DedicatedListsItsOwn(pins, shared, before[h']);
      }
    }
    MovedLast(before, g, groups, bySerial);
    forall i | 0 <= i < |pins|
      ensures HasRadio(groups, Owner(pins, shared, i))
    {
      if pins[i].Some? {
        ClaimedHasRadio(pins, before, bySerial, i);
      }
    }
  }

  /** Moving one group to the end keeps the set of radios. */
  lemma MovedLast(before: seq<Group>, g: nat, groups: seq<Group>, bySerial: map<string, nat>)
    requires Indexed(before, bySerial) && g < |before| == |groups|
    requires groups[..|before| - 1] == before[..g] + before[g + 1..]
    requires groups[|before| - 1].entry == before[g].entry
    ensures DistinctRadios(groups)
    ensures forall s :: HasRadio(before, s) ==> HasRadio(groups, s)
    ensures HasRadio(groups, before[g].entry.serial)
  {
    var n := |before|;
    forall h | 0 <= h < n
      ensures groups[h].entry == before[if h == n - 1 then g else if h < g then h else h + 1].entry
    {
      if h < n - 1 {
        assert groups[h] == groups[..n - 1][h];
      }
    }
    forall s | HasRadio(before, s)
      ensures HasRadio(groups, s)
    {
      var h :| 0 <= h < n && before[h].entry.serial == s;
      var h' := if h == g then n - 1 else if h < g then h else h - 1;
      assert groups[h'].entry.serial == s;
    }
    assert groups[n - 1].entry.serial == before[g].entry.serial;
  }

  /** The plan is a partition: every channel of the scan list is in exactly one
      group, a channel that names a voice radio runs on that radio, no two groups
      share a radio and the unpinned channels are all in the last group. */
  lemma PlanIsPartition(pins: seq<Option<string>>, voices: seq<PoolEntry>, wantShared: bool, groups: seq<Group>)
    requires IsPlan(pins, voices, wantShared, groups)
    ensures DistinctRadios(groups)
    ensures forall g | 0 <= g < |groups| :: Increasing(groups[g].channels)
    ensures forall g, i: nat | 0 <= g < |groups| && i in groups[g].channels :: i < |pins|
    ensures forall g, h, i: nat | 0 <= g < h < |groups| :: !(i in groups[g].channels && i in groups[h].channels)
    ensures forall i | 0 <= i < |pins| :: InSomeGroup(groups, i)
    ensures forall g, i: nat | 0 <= g < |groups| && i in groups[g].channels && pins[i].Some? ::
              groups[g].entry.serial == pins[i].value
    ensures forall i: nat | i < |pins| && pins[i] == None ::
              groups != [] && i in groups[|groups| - 1].channels
  {
    var shared :| && IsPlanWith(pins, shared, groups)
                  && (NeedsShared(pins, wantShared) ==>
                        groups != [] && groups[|groups| - 1].entry.serial == shared);
    forall i | 0 <= i < |pins|
      ensures InSomeGroup(groups, i)
    {
      assert HasRadio(groups, Owner(pins, shared, i));
      var g :| 0 <= g < |groups| && groups[g].entry.serial == Owner(pins, shared, i);
      assert ListsItsOwn(pins, shared, groups[g]);
    }
    forall g | 0 <= g < |groups|
      ensures ListsItsOwn(pins, shared, groups[g])
    {
    }
  }

  /** A device names a voice radio: its trimmed text is a serial the pool knows as one. */
  ghost predicate NamesVoice(find: Lookup, device: string, serial: string) {
    var text := TrimSpace(device);
    text != "" && find(text).Some? && find(text).value.role == Voice && find(text).value.serial == serial
  }

  lemma PinExactly(find: Lookup, device: string)
    ensures forall serial :: Pin(find, device) == Some(serial) <==> NamesVoice(find, device, serial)
  {
    TrimSpaceTrims(device);
    TrimSpaceTrims(TrimSpace(device));
  }

  /** In terms of the scan list: a channel runs on the voice radio its device names;
      a channel with no device, an unknown one or one of another role is in the last group. */
  lemma ChannelRunsWhereNamed(devices: seq<string>, find: Lookup, voices: seq<PoolEntry>, wantShared: bool,
                              groups: seq<Group>, i: nat)
    requires IsPlan(Pins(find, devices), voices, wantShared, groups) && i < |devices|
    ensures forall serial, g | NamesVoice(find, devices[i], serial) && 0 <= g < |groups| && i in groups[g].channels ::
              groups[g].entry.serial == serial
    ensures (forall serial :: !NamesVoice(find, devices[i], serial)) ==>
              groups != [] && i in groups[|groups| - 1].channels
  {
    var pins := Pins(find, devices);
    PinExactly(find, devices[i]);
    PlanIsPartition(pins, voices, wantShared, groups);
    if pins[i].Some? {
      assert NamesVoice(find, devices[i], pins[i].value);
    }
  }

  ghost predicate InSomeGroup(groups: seq<Group>, i: nat) {
    exists g | 0 <= g < |groups| :: i in groups[g].channels
  }
}
