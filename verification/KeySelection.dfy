/** ekcKeys, cmd/gophertrunk/daemon_keyfiles.go, and the "LOADED AS" column of
    writeEKCListing, cmd/gophertrunk/ekc_cmd.go: which keys of a key container the
    receiver loads, and which the listing says it loads. */
module KeySelection {
  import opened Wrappers

  newtype Byte = x: int | 0 <= x < 256

  datatype Algorithm = Des | Tdes | Aes | Rc4

  /** ekc.Key; `algID` and `keyID` are whatever the container says. */
  datatype Key = Key(keysetID: int, active: bool, keyID: int, algID: int, kek: bool, material: seq<Byte>)

  /** config.EncryptionKeyConfig. */
  datatype Entry = Entry(keyID: int, alg: Algorithm, material: seq<Byte>)

  /** ekcAlgorithm. */
  function AlgorithmOf(algID: int): Option<Algorithm> {
    match algID
    case 0x81 => Some(Des)
    case 0x83 | 0x86 => Some(Tdes)
    case 0x84 | 0x85 | 0x89 => Some(Aes)
    case 0xAA => Some(Rc4)
    case _ => None
  }

  /** The key lengths EncryptionKeyConfig.Validate accepts. */
  predicate LengthAccepted(alg: Algorithm, n: nat) {
    match alg
    case Des => n == 8
    case Tdes => n == 16 || n == 24
    case Aes => n == 16 || n == 32
    case Rc4 => 1 <= n <= 32
  }

  /** Why a key is left out, in the order the loader asks. */
  datatype Verdict = IsKek | OtherKeyset | BadID | UnknownAlgorithm | BadLength | Eligible

  function Judge(k: Key, keyset: int): Verdict {
    if k.kek then IsKek
    else if keyset != 0 && k.keysetID != keyset then OtherKeyset
    else if k.keyID < 0 || k.keyID > 0xFFFF then BadID
    else match AlgorithmOf(k.algID)
      case None => UnknownAlgorithm
      case Some(alg) => if LengthAccepted(alg, |k.material|) then Eligible else BadLength
  }

  function EntryOf(k: Key): Entry
    requires AlgorithmOf(k.algID).Some?
  {
    Entry(k.keyID, AlgorithmOf(k.algID).value, k.material)
  }

  /** The algorithm IDs with a decoder. */
  ghost predicate Decodes(algID: int, alg: Algorithm) {
    || (alg == Des && algID == 0x81)
    || (alg == Tdes && algID in {0x83, 0x86})
    || (alg == Aes && algID in {0x84, 0x85, 0x89})
    || (alg == Rc4 && algID == 0xAA)
  }

  /** The key lengths, in bytes. */
  ghost predicate Fits(n: nat, alg: Algorithm) {
    || (alg == Des && n == 8)
    || (alg == Tdes && n in {16, 24})
    || (alg == Aes && n in {16, 32})
    || (alg == Rc4 && 1 <= n <= 32)
  }

  /** A key is eligible exactly when it is a traffic key of the keyset asked for with a
      16-bit ID, an algorithm with a decoder and a length that algorithm takes. */
  lemma EligibleExactly(k: Key, keyset: int)
    ensures Judge(k, keyset) == Eligible <==>
              && !k.kek && (keyset == 0 || k.keysetID == keyset) && 0 <= k.keyID < 0x1_0000
              && exists alg :: Decodes(k.algID, alg) && Fits(|k.material|, alg)
  {
    DecodesExactly(k.algID);
    var alg := AlgorithmOf(k.algID);
    if alg.Some? {
      assert LengthAccepted(alg.value, |k.material|) <==> Fits(|k.material|, alg.value);
      assert Decodes(k.algID, alg.value);
    }
  }

  lemma DecodesExactly(algID: int)
    ensures forall alg :: AlgorithmOf(algID) == Some(alg) <==> Decodes(algID, alg)
  {
  }

  /** Of the reasons to leave a key out that apply, the first in this order is counted. */
  lemma VerdictsExactly(k: Key, keyset: int)
    ensures var v := Judge(k, keyset);
            var other, bad := keyset != 0 && k.keysetID != keyset, !(0 <= k.keyID < 0x1_0000);
            && (v == IsKek <==> k.kek)
            && (v == OtherKeyset <==> !k.kek && other)
            && (v == BadID <==> !k.kek && !other && bad)
            && (v == UnknownAlgorithm <==> !k.kek && !other && !bad && forall alg :: !Decodes(k.algID, alg))
  {
    DecodesExactly(k.algID);
    if AlgorithmOf(k.algID).Some? {
      assert Decodes(k.algID, AlgorithmOf(k.algID).value);
    }
  }

  /** The entry carries the key's ID and material under the name of its algorithm. */
  ghost predicate Carries(e: Entry, k: Key) {
    e.keyID == k.keyID && e.material == k.material && Decodes(k.algID, e.alg)
  }

  // ----------------------------------------------------- what should be loaded

  predicate EligibleAs(keys: seq<Key>, keyset: int, id: int, i: nat)
    requires i < |keys|
  {
    Judge(keys[i], keyset) == Eligible && keys[i].keyID == id
  }

  /** Key w is the one to load for an ID among the first n keys: the first eligible key
      of an active keyset or, when there is none, the first eligible key. */
  ghost predicate IsWinner(keys: seq<Key>, keyset: int, n: nat, id: int, w: nat)
    requires n <= |keys|
  {
    && w < n && EligibleAs(keys, keyset, id, w)
    && (forall i: nat | i < n && EligibleAs(keys, keyset, id, i) && keys[i].active :: keys[w].active && w <= i)
    && (keys[w].active || forall i: nat | i < n && EligibleAs(keys, keyset, id, i) :: w <= i)
  }

  /** The key held for an ID after the first n keys. */
  function Pick(keys: seq<Key>, keyset: int, n: nat, id: int): (p: Option<nat>)
    requires n <= |keys|
    ensures p.Some? ==> p.value < n && EligibleAs(keys, keyset, id, p.value)
  {
    if n == 0 then None
    else
      var p := Pick(keys, keyset, n - 1, id);
      if EligibleAs(keys, keyset, id, n - 1) && (p.None? || (!keys[p.value].active && keys[n - 1].active))
      then Some(n - 1) else p
  }

  lemma {:induction false} PickIsWinner(keys: seq<Key>, keyset: int, n: nat, id: int)
    requires n <= |keys|
    ensures forall w: nat :: Pick(keys, keyset, n, id) == Some(w) <==> IsWinner(keys, keyset, n, id, w)
    ensures Pick(keys, keyset, n, id) == None <==> forall i: nat | i < n :: !EligibleAs(keys, keyset, id, i)
  {
    if n > 0 {
      PickIsWinner(keys, keyset, n - 1, id);
      var p := Pick(keys, keyset, n - 1, id);
      if p.Some? {
        assert IsWinner(keys, keyset, n - 1, id, p.value);
      }
      var q := Pick(keys, keyset, n, id);
      if q.Some? {
        assert IsWinner(keys, keyset, n, id, q.value);
      }
    }
  }

  /** The key IDs in order of their first eligible key. */
  function FirstSeen(keys: seq<Key>, keyset: int, n: nat): seq<int>
    requires n <= |keys|
  {
    if n == 0 then []
    else
      FirstSeen(keys, keyset, n - 1) +
      if Judge(keys[n - 1], keyset) == Eligible && Pick(keys, keyset, n - 1, keys[n - 1].keyID).None?
      then [keys[n - 1].keyID] else []
  }

  lemma {:induction false} FirstSeenOnce(keys: seq<Key>, keyset: int, n: nat)
    requires n <= |keys|
    ensures forall id :: id in FirstSeen(keys, keyset, n) <==> Pick(keys, keyset, n, id).Some?
    ensures forall i, j | 0 <= i < j < |FirstSeen(keys, keyset, n)| ::
              FirstSeen(keys, keyset, n)[i] != FirstSeen(keys, keyset, n)[j]
  {
    if n > 0 {
      FirstSeenOnce(keys, keyset, n - 1);
      var before := FirstSeen(keys, keyset, n - 1);
      forall i | 0 <= i < |before|
        ensures before[i] in before
      {
      }
    }
  }

  function CountOf(keys: seq<Key>, keyset: int, n: nat, v: Verdict): nat
    requires n <= |keys|
  {
    if n == 0 then 0
    else CountOf(keys, keyset, n - 1, v) + if Judge(keys[n - 1], keyset) == v then 1 else 0
  }

  /** The keys whose algorithm has no decoder, by the low byte of the algorithm ID. */
  function CountUnknown(keys: seq<Key>, keyset: int, n: nat, byte: int): nat
    requires n <= |keys|
  {
    if n == 0 then 0
    else
      CountUnknown(keys, keyset, n - 1, byte) +
      if Judge(keys[n - 1], keyset) == UnknownAlgorithm && keys[n - 1].algID % 256 == byte then 1 else 0
  }

  // --------------------------------------------------------------- the loader

  /** ekcLoad; `unknown` is keyed by the ALGID byte its label is printed from. */
  datatype Load = Load(keys: seq<Entry>, kek: nat, keyset: nat, shadow: nat, badLen: nat, badID: nat,
                       unknown: map<int, nat>)

  ghost predicate UnknownsCounted(keys: seq<Key>, keyset: int, n: nat, unknown: map<int, nat>)
    requires n <= |keys|
  {
    forall b :: CountUnknown(keys, keyset, n, b) == Get(unknown, b)
  }

  ghost predicate Tallied(keys: seq<Key>, keyset: int, n: nat, load: Load)
    requires n <= |keys|
  {
    && load.kek == CountOf(keys, keyset, n, IsKek)
    && load.keyset == CountOf(keys, keyset, n, OtherKeyset)
    && load.badID == CountOf(keys, keyset, n, BadID)
    && load.badLen == CountOf(keys, keyset, n, BadLength)
    && UnknownsCounted(keys, keyset, n, load.unknown)
    && load.shadow == CountOf(keys, keyset, n, Eligible) - |FirstSeen(keys, keyset, n)|
  }

  function Get(m: map<int, nat>, b: int): nat {
    if b in m then m[b] else 0
  }

  /** The local type pick. */
  datatype Held = Held(entry: Entry, active: bool)

  ghost predicate HeldAre(keys: seq<Key>, keyset: int, n: nat, byID: map<int, Held>)
    requires n <= |keys|
  {
    forall id :: HeldIs(keys, keyset, n, byID, id)
  }

  ghost predicate HeldIs(keys: seq<Key>, keyset: int, n: nat, byID: map<int, Held>, id: int)
    requires n <= |keys|
  {
    match Pick(keys, keyset, n, id)
    case None => id !in byID
    case Some(p) => id in byID && byID[id] == Held(EntryOf(keys[p]), keys[p].active)
  }

  /** Entry i of the result is the winner for the i-th key ID. */
  ghost predicate Selected(keys: seq<Key>, keyset: int, entries: seq<Entry>) {
    var order := FirstSeen(keys, keyset, |keys|);
    && |entries| == |order|
    && forall i | 0 <= i < |order| ::
         entries[i].keyID == order[i]
         && exists w: nat :: IsWinner(keys, keyset, |keys|, order[i], w) && Carries(entries[i], keys[w])
  }

  /** ekcKeys. */
  method EkcKeys(keys: seq<Key>, keyset: int) returns (out: Load)
    ensures Selected(keys, keyset, out.keys)
    ensures Tallied(keys, keyset, |keys|, out)
  {
    out := Load([], 0, 0, 0, 0, 0, map[]);
    var byID: map<int, Held> := map[];
    var order: seq<int> := [];
    for i := 0 to |keys|
      invariant HeldAre(keys, keyset, i, byID)
      invariant order == FirstSeen(keys, keyset, i) && out.keys == []
      invariant Tallied(keys, keyset, i, out)
    {
      var k := keys[i];
      SkipTallied(keys, keyset, i, out);
      if Judge(k, keyset) == Eligible {
        EligibleTallied(keys, keyset, i, out);
        HoldEligible(keys, keyset, i, byID);
      } else {
        SkipHeld(keys, keyset, i, byID);
      }
      if k.kek {
        out := out.(kek := out.kek + 1);
        continue;
      } else if keyset != 0 && k.keysetID != keyset {
        out := out.(keyset := out.keyset + 1);
        continue;
      } else if k.keyID < 0 || k.keyID > 0xFFFF {
        out := out.(badID := out.badID + 1);
        continue;
      }
      var alg := AlgorithmOf(k.algID);
      if alg == None {
        var b := k.algID % 256;
        UnknownTallied(keys, keyset, i, out);
        out := out.(unknown := out.unknown[b := Get(out.unknown, b) + 1]);
        continue;
      }
      var cfg := Entry(k.keyID, alg.value, k.material);
      if !LengthAccepted(alg.value, |k.material|) {
        out := out.(badLen := out.badLen + 1);
        continue;
      }
      if cfg.keyID !in byID {
        order := order + [cfg.keyID];
      } else if byID[cfg.keyID].active || !k.active {
        out := out.(shadow := out.shadow + 1);
        continue;
      } else {
        out := out.(shadow := out.shadow + 1);
      }
      byID := byID[cfg.keyID := Held(cfg, k.active)];
    }
    FirstSeenOnce(keys, keyset, |keys|);
    var entries := Collect(keys, keyset, order, byID);
    out := out.(keys := entries);
  }

  /** What the loop body must do to the tallies for a key it leaves out. */
  lemma SkipTallied(keys: seq<Key>, keyset: int, i: nat, out: Load)
    requires i < |keys| && Tallied(keys, keyset, i, out)
    ensures match Judge(keys[i], keyset)
            case IsKek => Tallied(keys, keyset, i + 1, out.(kek := out.kek + 1))
            case OtherKeyset => Tallied(keys, keyset, i + 1, out.(keyset := out.keyset + 1))
            case BadID => Tallied(keys, keyset, i + 1, out.(badID := out.badID + 1))
            case BadLength => Tallied(keys, keyset, i + 1, out.(badLen := out.badLen + 1))
            case _ => true
  {
    if !Judge(keys[i], keyset).Eligible? && !Judge(keys[i], keyset).UnknownAlgorithm? {
      assert UnknownsCounted(keys, keyset, i + 1, out.unknown);
    }
  }

  lemma UnknownTallied(keys: seq<Key>, keyset: int, i: nat, out: Load)
    requires i < |keys| && Tallied(keys, keyset, i, out) && Judge(keys[i], keyset) == UnknownAlgorithm
    ensures var b := keys[i].algID % 256;
            Tallied(keys, keyset, i + 1, out.(unknown := out.unknown[b := Get(out.unknown, b) + 1]))
  {
    var b := keys[i].algID % 256;
    UnknownsStep(keys, keyset, i, out.unknown, out.unknown[b := Get(out.unknown, b) + 1]);
  }

  lemma UnknownsStep(keys: seq<Key>, keyset: int, i: nat, m: map<int, nat>, m': map<int, nat>)
    requires i < |keys| && UnknownsCounted(keys, keyset, i, m) && Judge(keys[i], keyset) == UnknownAlgorithm
    requires var b := keys[i].algID % 256; m' == m[b := Get(m, b) + 1]
    ensures UnknownsCounted(keys, keyset, i + 1, m')
  {
    forall b
      ensures CountUnknown(keys, keyset, i + 1, b) == Get(m', b)
    {
      assert CountUnknown(keys, keyset, i, b) == Get(m, b);
    }
  }

  lemma EligibleTallied(keys: seq<Key>, keyset: int, i: nat, out: Load)
    requires i < |keys| && Tallied(keys, keyset, i, out) && Judge(keys[i], keyset) == Eligible
    ensures Tallied(keys, keyset, i + 1,
                    if Pick(keys, keyset, i, keys[i].keyID).Some? then out.(shadow := out.shadow + 1) else out)
  {
    assert UnknownsCounted(keys, keyset, i + 1, out.unknown);
  }

  lemma SkipHeld(keys: seq<Key>, keyset: int, i: nat, byID: map<int, Held>)
    requires i < |keys| && HeldAre(keys, keyset, i, byID) && Judge(keys[i], keyset) != Eligible
    ensures HeldAre(keys, keyset, i + 1, byID)
  {
    var n := i + 1;
    forall id
      ensures HeldIs(keys, keyset, n, byID, id)
    {
      assert HeldIs(keys, keyset, i, byID, id);
    }
  }

  lemma HoldEligible(keys: seq<Key>, keyset: int, i: nat, byID: map<int, Held>)
    requires i < |keys| && HeldAre(keys, keyset, i, byID) && Judge(keys[i], keyset) == Eligible
    ensures var id := keys[i].keyID;
            HeldAre(keys, keyset, i + 1,
                    if id in byID && (byID[id].active || !keys[i].active) then byID
                    else byID[id := Held(EntryOf(keys[i]), keys[i].active)])
    ensures keys[i].keyID in byID <==> Pick(keys, keyset, i, keys[i].keyID).Some?
  {
    var mine := keys[i].keyID;
    var byID' := if mine in byID && (byID[mine].active || !keys[i].active) then byID
                 else byID[mine := Held(EntryOf(keys[i]), keys[i].active)];
    assert HeldIs(keys, keyset, i, byID, mine);
    var n := i + 1;
    forall id
      ensures HeldIs(keys, keyset, n, byID', id)
    {
      assert HeldIs(keys, keyset, i, byID, id);
    }
  }

  /** The final loop: the held entries in order. */
  method Collect(keys: seq<Key>, keyset: int, order: seq<int>, byID: map<int, Held>) returns (entries: seq<Entry>)
    requires HeldAre(keys, keyset, |keys|, byID) && order == FirstSeen(keys, keyset, |keys|)
    requires forall id :: id in order <==> Pick(keys, keyset, |keys|, id).Some?
    ensures Selected(keys, keyset, entries)
  {
    entries := [];
    for i := 0 to |order|
      invariant |entries| == i
      invariant forall j | 0 <= j < i ::
                  entries[j].keyID == order[j]
                  && exists w: nat :: IsWinner(keys, keyset, |keys|, order[j], w) && Carries(entries[j], keys[w])
    {
      assert order[i] in order;
      assert HeldIs(keys, keyset, |keys|, byID, order[i]);
      PickIsWinner(keys, keyset, |keys|, order[i]);
      var w := Pick(keys, keyset, |keys|, order[i]).value;
      assert IsWinner(keys, keyset, |keys|, order[i], w);
      entries := entries + [byID[order[i]].entry];
    }
  }

  // ------------------------------------------------------------- conservation

  function SumUnknown(m: map<int, nat>, upTo: nat): nat {
    if upTo == 0 then 0 else SumUnknown(m, upTo - 1) + Get(m, upTo - 1)
  }

  /** The keys of unknown algorithm with a low byte below `upTo`. */
  function UnknownBelow(keys: seq<Key>, keyset: int, n: nat, upTo: nat): nat
    requires n <= |keys|
  {
    if upTo == 0 then 0 else UnknownBelow(keys, keyset, n, upTo - 1) + CountUnknown(keys, keyset, n, upTo - 1)
  }

  lemma {:induction false} SumIsUnknownBelow(keys: seq<Key>, keyset: int, m: map<int, nat>, upTo: nat)
    requires UnknownsCounted(keys, keyset, |keys|, m)
    ensures SumUnknown(m, upTo) == UnknownBelow(keys, keyset, |keys|, upTo)
  {
    if upTo > 0 {
      SumIsUnknownBelow(keys, keyset, m, upTo - 1);
      assert CountUnknown(keys, keyset, |keys|, upTo - 1) == Get(m, upTo - 1);
    }
  }

  lemma {:induction false} UnknownBelowStep(keys: seq<Key>, keyset: int, n: nat, upTo: nat)
    requires n < |keys|
    ensures UnknownBelow(keys, keyset, n + 1, upTo) == UnknownBelow(keys, keyset, n, upTo) +
              if Judge(keys[n], keyset) == UnknownAlgorithm && keys[n].algID % 256 < upTo then 1 else 0
  {
    if upTo > 0 {
      UnknownBelowStep(keys, keyset, n, upTo - 1);
    }
  }

  lemma {:induction false} UnknownBelowNone(keys: seq<Key>, keyset: int, upTo: nat)
    ensures UnknownBelow(keys, keyset, 0, upTo) == 0
  {
    if upTo > 0 {
      UnknownBelowNone(keys, keyset, upTo - 1);
    }
  }

  lemma {:induction false} VerdictsPartition(keys: seq<Key>, keyset: int, n: nat)
    requires n <= |keys|
    ensures CountOf(keys, keyset, n, IsKek) + CountOf(keys, keyset, n, OtherKeyset) + CountOf(keys, keyset, n, BadID)
            + CountOf(keys, keyset, n, BadLength) + CountOf(keys, keyset, n, Eligible)
            + UnknownBelow(keys, keyset, n, 256) == n
  {
    if n == 0 {
      UnknownBelowNone(keys, keyset, 256);
    } else {
      VerdictsPartition(keys, keyset, n - 1);
      UnknownBelowStep(keys, keyset, n - 1, 256);
    }
  }

  /** Every key of the container is loaded or counted under exactly one reason. */
  lemma LoadConserves(keys: seq<Key>, keyset: int, out: Load)
    requires Selected(keys, keyset, out.keys) && Tallied(keys, keyset, |keys|, out)
    ensures |out.keys| + out.kek + out.keyset + out.badID + out.badLen + out.shadow
            + SumUnknown(out.unknown, 256) == |keys|
  {
    VerdictsPartition(keys, keyset, |keys|);
    SumIsUnknownBelow(keys, keyset, out.unknown, 256);
  }

  /** Each key ID with an eligible key is loaded exactly once. */
  lemma EachIDOnce(keys: seq<Key>, keyset: int, entries: seq<Entry>)
    requires Selected(keys, keyset, entries)
    ensures forall i, j | 0 <= i < j < |entries| :: entries[i].keyID != entries[j].keyID
    ensures forall k: nat | k < |keys| && Judge(keys[k], keyset) == Eligible ::
              exists i | 0 <= i < |entries| :: entries[i].keyID == keys[k].keyID
  {
    FirstSeenOnce(keys, keyset, |keys|);
    var order := FirstSeen(keys, keyset, |keys|);
    forall k: nat | k < |keys| && Judge(keys[k], keyset) == Eligible
      ensures exists i | 0 <= i < |entries| :: entries[i].keyID == keys[k].keyID
    {
      PickIsWinner(keys, keyset, |keys|, keys[k].keyID);
      assert EligibleAs(keys, keyset, keys[k].keyID, k);
      assert keys[k].keyID in order;
      var i :| 0 <= i < |order| && order[i] == keys[k].keyID;
      assert entries[i].keyID == keys[k].keyID;
    }
  }

  // -------------------------------------------------------------- the listing

  /** The listing's own notion of a key that could load: unlike the loader it asks
      neither for the key ID's range nor for the key's length. */
  predicate Listable(k: Key, keyset: int) {
    !k.kek && AlgorithmOf(k.algID).Some? && (keyset == 0 || k.keysetID == keyset)
  }

  /** uint16(k.KeyID). */
  function LowID(k: Key): int {
    k.keyID % 0x1_0000
  }

  ghost predicate HasActiveTwin(keys: seq<Key>, keyset: int, k: Key) {
    exists o | 0 <= o < |keys| :: keys[o].keyID == k.keyID && keys[o].active && Listable(keys[o], keyset)
  }

  /** activeTwin. */
  method ActiveTwin(keys: seq<Key>, k: Key, keyset: int) returns (found: bool)
    ensures found <==> HasActiveTwin(keys, keyset, k)
  {
    for i := 0 to |keys|
      invariant forall o | 0 <= o < i :: !(keys[o].keyID == k.keyID && keys[o].active && Listable(keys[o], keyset))
    {
      var o := keys[i];
      if o.keyID == k.keyID && o.active && !o.kek && AlgorithmOf(o.algID) != None
        && (keyset == 0 || o.keysetID == keyset) {
        return true;
      }
    }
    return false;
  }

  /** Row j would be marked if no earlier row had used up its key ID. */
  ghost predicate Admissible(keys: seq<Key>, keyset: int, j: nat)
    requires j < |keys|
  {
    var p := Pick(keys, keyset, |keys|, LowID(keys[j]));
    && p.Some? && Listable(keys[j], keyset)
    && AlgorithmOf(keys[j].algID) == AlgorithmOf(keys[p.value].algID)
    && (keys[j].active || !HasActiveTwin(keys, keyset, keys[j]))
  }

  ghost predicate Marked(keys: seq<Key>, keyset: int, j: nat)
    requires j < |keys|
  {
    && Admissible(keys, keyset, j)
    && forall i: nat | i < j && Admissible(keys, keyset, i) :: LowID(keys[i]) != LowID(keys[j])
  }

  ghost predicate LoadedAlgorithms(keys: seq<Key>, keyset: int, loaded: map<int, Algorithm>) {
    forall id :: match Pick(keys, keyset, |keys|, id)
                 case None => id !in loaded
                 case Some(p) => id in loaded && Some(loaded[id]) == AlgorithmOf(keys[p].algID)
  }

  lemma LoadedEntry(keys: seq<Key>, keyset: int, entries: seq<Entry>, i: nat)
    requires Selected(keys, keyset, entries) && i < |entries|
    ensures var id, e := FirstSeen(keys, keyset, |keys|)[i], entries[i];
            var p := Pick(keys, keyset, |keys|, id);
            e.keyID == id && p.Some? && Some(e.alg) == AlgorithmOf(keys[p.value].algID)
  {
    var id := FirstSeen(keys, keyset, |keys|)[i];
    var w: nat :| IsWinner(keys, keyset, |keys|, id, w) && Carries(entries[i], keys[w]);
    PickIsWinner(keys, keyset, |keys|, id);
    DecodesExactly(keys[w].algID);
  }

  /** The listing's first loop. */
  method LoadedBy(keys: seq<Key>, keyset: int) returns (loaded: map<int, Algorithm>)
    ensures LoadedAlgorithms(keys, keyset, loaded)
  {
    var load := EkcKeys(keys, keyset);
    ghost var order := FirstSeen(keys, keyset, |keys|);
    FirstSeenOnce(keys, keyset, |keys|);
    loaded := map[];
    for i := 0 to |load.keys|
      invariant forall id :: id in loaded <==> id in order[..i]
      invariant forall id | id in loaded ::
                  Pick(keys, keyset, |keys|, id).Some?
                  && Some(loaded[id]) == AlgorithmOf(keys[Pick(keys, keyset, |keys|, id).value].algID)
    {
      LoadedEntry(keys, keyset, load.keys, i);
      assert order[..i + 1] == order[..i] + [order[i]];
      loaded := loaded[load.keys[i].keyID := load.keys[i].alg];
    }
    assert order[..|order|] == order;
  }

  /** The decision in writeEKCListing: which rows say "LOADED AS <algorithm>". */
  method Listing(keys: seq<Key>, keyset: int) returns (marks: seq<bool>)
    ensures |marks| == |keys|
    ensures forall j: nat | j < |keys| :: marks[j] <==> Marked(keys, keyset, j)
  {
    var loaded := LoadedBy(keys, keyset);
    marks := [];
    var used: set<int> := {};
    for j := 0 to |keys|
      invariant |marks| == j
      invariant forall i: nat | i < j :: marks[i] <==> Marked(keys, keyset, i)
      invariant forall id :: id in used <==> UsedUp(keys, keyset, j, id)
    {
      var mark;
      mark, used := ListRow(keys, keyset, loaded, used, j);
      marks := marks + [mark];
    }
  }

  /** A row above row j is marked for the ID. */
  ghost predicate UsedUp(keys: seq<Key>, keyset: int, j: nat, id: int)
    requires j <= |keys|
  {
    exists i: nat | i < j :: Admissible(keys, keyset, i) && LowID(keys[i]) == id
  }

  /** The body of the listing's row loop. */
  method ListRow(keys: seq<Key>, keyset: int, loaded: map<int, Algorithm>, used: set<int>, j: nat)
    returns (mark: bool, used': set<int>)
    requires j < |keys| && LoadedAlgorithms(keys, keyset, loaded)
    requires forall id :: id in used <==> UsedUp(keys, keyset, j, id)
    ensures mark <==> Marked(keys, keyset, j)
    ensures forall id :: id in used' <==> UsedUp(keys, keyset, j + 1, id)
  {
    var k := keys[j];
    var twin := ActiveTwin(keys, k, keyset);
    mark := LowID(k) in loaded && !k.kek && LowID(k) !in used && Some(loaded[LowID(k)]) == AlgorithmOf(k.algID)
      && (keyset == 0 || k.keysetID == keyset) && (k.active || !twin);
    used' := if mark then used + {LowID(k)} else used;
    AdmissibleByLoaded(keys, keyset, loaded, j);
    UsedUpStep(keys, keyset, j);
  }

  lemma AdmissibleByLoaded(keys: seq<Key>, keyset: int, loaded: map<int, Algorithm>, j: nat)
    requires j < |keys| && LoadedAlgorithms(keys, keyset, loaded)
    ensures Admissible(keys, keyset, j) <==>
              var k := keys[j];
              LowID(k) in loaded && !k.kek && Some(loaded[LowID(k)]) == AlgorithmOf(k.algID)
              && (keyset == 0 || k.keysetID == keyset) && (k.active || !HasActiveTwin(keys, keyset, k))
  {
    assert LowID(keys[j]) in loaded <==> Pick(keys, keyset, |keys|, LowID(keys[j])).Some?;
  }

  lemma UsedUpStep(keys: seq<Key>, keyset: int, j: nat)
    requires j < |keys|
    ensures Marked(keys, keyset, j) <==> Admissible(keys, keyset, j) && !UsedUp(keys, keyset, j, LowID(keys[j]))
    ensures forall id :: UsedUp(keys, keyset, j + 1, id) <==>
                           UsedUp(keys, keyset, j, id) || (Admissible(keys, keyset, j) && LowID(keys[j]) == id)
  {
  }

  // ------------------------------------------------- where the two must agree

  /** The loader takes key j. */
  ghost predicate Wins(keys: seq<Key>, keyset: int, j: nat)
    requires j < |keys|
  {
    IsWinner(keys, keyset, |keys|, keys[j].keyID, j)
  }

  /** Key j, listable though the loader rejects it for its length or its ID, misleads
      the listing about the loaded key w: it is active where w is not and has its ID, or
      it comes first in the list and matches w in algorithm and low ID bits. */
  ghost predicate Decoy(keys: seq<Key>, keyset: int, j: nat, w: nat)
    requires j < |keys| && w < |keys|
  {
    && Listable(keys[j], keyset) && Judge(keys[j], keyset) != Eligible
    && ((keys[j].active && !keys[w].active && keys[j].keyID == keys[w].keyID)
        || (j < w && LowID(keys[j]) == keys[w].keyID && AlgorithmOf(keys[j].algID) == AlgorithmOf(keys[w].algID)
            && (keys[j].active || !HasActiveTwin(keys, keyset, keys[j]))))
  }

  ghost predicate NoDecoys(keys: seq<Key>, keyset: int) {
    forall j: nat, w: nat | j < |keys| && w < |keys| && Wins(keys, keyset, w) :: !Decoy(keys, keyset, j, w)
  }

  ghost predicate ListingAgrees(keys: seq<Key>, keyset: int) {
    forall j: nat | j < |keys| :: Marked(keys, keyset, j) <==> Wins(keys, keyset, j)
  }

  lemma WinnerIsPicked(keys: seq<Key>, keyset: int, w: nat)
    requires w < |keys| && Wins(keys, keyset, w)
    ensures 0 <= keys[w].keyID <= 0xFFFF && LowID(keys[w]) == keys[w].keyID && Listable(keys[w], keyset)
    ensures Pick(keys, keyset, |keys|, keys[w].keyID) == Some(w)
  {
    PickIsWinner(keys, keyset, |keys|, keys[w].keyID);
  }

  /** A loaded key's row is admissible unless an active decoy carries its ID. */
  lemma WinnerAdmissible(keys: seq<Key>, keyset: int, w: nat)
    requires w < |keys| && Wins(keys, keyset, w)
    requires forall j: nat | j < |keys| :: !Decoy(keys, keyset, j, w)
    ensures Admissible(keys, keyset, w)
  {
    WinnerIsPicked(keys, keyset, w);
    if !keys[w].active && HasActiveTwin(keys, keyset, keys[w]) {
      var o :| 0 <= o < |keys| && keys[o].keyID == keys[w].keyID && keys[o].active && Listable(keys[o], keyset);
      assert !Decoy(keys, keyset, o, w);
      assert EligibleAs(keys, keyset, keys[w].keyID, o);
    }
  }

  /** No admissible row comes before the loaded key's unless it is a decoy. */
  lemma NothingBeforeWinner(keys: seq<Key>, keyset: int, w: nat, j: nat)
    requires j < w < |keys| && Wins(keys, keyset, w) && !Decoy(keys, keyset, j, w)
    requires Admissible(keys, keyset, j)
    ensures LowID(keys[j]) != keys[w].keyID
  {
    WinnerIsPicked(keys, keyset, w);
    if LowID(keys[j]) == keys[w].keyID && Judge(keys[j], keyset) == Eligible {
      assert EligibleAs(keys, keyset, keys[w].keyID, j);
    }
  }

  lemma NoDecoysAgree(keys: seq<Key>, keyset: int)
    requires NoDecoys(keys, keyset)
    ensures ListingAgrees(keys, keyset)
  {
    forall j: nat | j < |keys| && Wins(keys, keyset, j)
      ensures Marked(keys, keyset, j)
    {
      WinnerIsMarked(keys, keyset, j);
    }
    forall j: nat | j < |keys| && Marked(keys, keyset, j)
      ensures Wins(keys, keyset, j)
    {
      var id := LowID(keys[j]);
      var w := Pick(keys, keyset, |keys|, id).value;
      PickIsWinner(keys, keyset, |keys|, id);
      assert Wins(keys, keyset, w);
      WinnerIsMarked(keys, keyset, w);
    }
  }

  lemma WinnerIsMarked(keys: seq<Key>, keyset: int, w: nat)
    requires NoDecoys(keys, keyset) && w < |keys| && Wins(keys, keyset, w)
    ensures Marked(keys, keyset, w) && LowID(keys[w]) == keys[w].keyID
  {
    WinnerIsPicked(keys, keyset, w);
    WinnerAdmissible(keys, keyset, w);
    forall j: nat | j < w && Admissible(keys, keyset, j)
      ensures LowID(keys[j]) != LowID(keys[w])
    {
      NothingBeforeWinner(keys, keyset, w, j);
    }
  }

  lemma DecoyDisagrees(keys: seq<Key>, keyset: int, j: nat, w: nat)
    requires j < |keys| && w < |keys| && Wins(keys, keyset, w) && Decoy(keys, keyset, j, w)
    ensures !Marked(keys, keyset, w)
  {
    WinnerIsPicked(keys, keyset, w);
    if keys[j].active && !keys[w].active && keys[j].keyID == keys[w].keyID {
      assert HasActiveTwin(keys, keyset, keys[w]);
    } else {
      assert Admissible(keys, keyset, j);
    }
  }

  /** The listing marks exactly the keys that load if and only if there are no decoys. */
  lemma ListingAgreesExactly(keys: seq<Key>, keyset: int)
    ensures ListingAgrees(keys, keyset) <==> NoDecoys(keys, keyset)
  {
    if NoDecoys(keys, keyset) {
      NoDecoysAgree(keys, keyset);
    } else {
      var j: nat, w: nat :| j < |keys| && w < |keys| && Wins(keys, keyset, w) && Decoy(keys, keyset, j, w);
      DecoyDisagrees(keys, keyset, j, w);
    }
  }

  /** In particular it does whenever every candidate has a valid length and an ID in range. */
  lemma ListingAgreesOnValidKeys(keys: seq<Key>, keyset: int)
    requires forall k | k in keys && Listable(k, keyset) ::
               0 <= k.keyID <= 0xFFFF && LengthAccepted(AlgorithmOf(k.algID).value, |k.material|)
    ensures ListingAgrees(keys, keyset)
  {
    forall j: nat, w: nat | j < |keys| && w < |keys|
      ensures !Decoy(keys, keyset, j, w)
    {
      assert keys[j] in keys;
    }
    NoDecoysAgree(keys, keyset);
  }

  /** An active key of bad length hides the key that loads: no row at all is marked. */
  lemma BadLengthHidesLoadedKey(good: seq<Byte>)
    requires |good| == 8
    ensures var keys := [Key(1, true, 7, 0x84, false, []), Key(2, false, 7, 0x81, false, good)];
            Wins(keys, 0, 1) && !Marked(keys, 0, 0) && !Marked(keys, 0, 1)
  {
    var keys := [Key(1, true, 7, 0x84, false, []), Key(2, false, 7, 0x81, false, good)];
    assert Judge(keys[0], 0) == BadLength;
    assert Wins(keys, 0, 1);
    assert Decoy(keys, 0, 0, 1);
    DecoyDisagrees(keys, 0, 0, 1);
    WinnerIsPicked(keys, 0, 1);
    assert HasActiveTwin(keys, 0, keys[1]);
  }

  /** A key whose ID does not fit 16 bits is listed as loaded in place of the one that is. */
  lemma OutOfRangeIDListedInstead(good: seq<Byte>)
    requires |good| == 8
    ensures var keys := [Key(1, true, 65543, 0x81, false, good), Key(1, true, 7, 0x81, false, good)];
            Wins(keys, 0, 1) && Marked(keys, 0, 0) && !Wins(keys, 0, 0) && !Marked(keys, 0, 1)
  {
    var keys := [Key(1, true, 65543, 0x81, false, good), Key(1, true, 7, 0x81, false, good)];
    assert Judge(keys[0], 0) == BadID;
    assert Wins(keys, 0, 1);
    assert Decoy(keys, 0, 0, 1);
    DecoyDisagrees(keys, 0, 0, 1);
    WinnerIsPicked(keys, 0, 1);
  }
}
