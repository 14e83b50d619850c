/** mergeIntoConfig, cmd/gophertrunk/import_writer.go: imported systems are merged into
    the configuration twice, once into the decoded structure and once into the YAML
    node tree that is written back. A document is a tree of nodes here. */
module ConfigMerge {
  import opened Wrappers
  import opened Text
  import opened NameCollapse

  type U32 = n: int | 0 <= n < 0x1_0000_0000

  /** yaml.Node, without comments, styles, anchors and null scalars. */
  datatype Node = Scalar(value: string) | Sequence(items: seq<Node>) | Mapping(content: seq<Pair>)

  datatype Pair = Pair(key: string, value: Node)

  /** config.SystemConfig; `rest` stands for all the fields an import does not set. */
  datatype System = System(name: string, protocol: string, channels: seq<U32>, file: string, rest: seq<Pair>)

  /** parsedSystem as far as the merge looks at it: the control channels are the ones
      collected from its sites, the file is the path of its talkgroup table. */
  datatype Import = Import(name: string, protocol: string, channels: seq<U32>, file: string)

  // ------------------------------------------------------ reading a node tree

  function FieldOf(pairs: seq<Pair>, key: string): Option<Node> {
    if pairs == [] then None
    else if pairs[0].key == key then Some(pairs[0].value)
    else FieldOf(pairs[1..], key)
  }

  predicate DistinctKeys(pairs: seq<Pair>) {
    forall i, j | 0 <= i < j < |pairs| :: pairs[i].key != pairs[j].key
  }

  predicate OwnKey(key: string) {
    key == "name" || key == "protocol" || key == "control_channels" || key == "talkgroup_file"
  }

  function Others(pairs: seq<Pair>): seq<Pair> {
    if pairs == [] then []
    else (if OwnKey(pairs[0].key) then [] else [pairs[0]]) + Others(pairs[1..])
  }

  function DecodeText(n: Option<Node>): Option<string> {
    match n
    case None => Some("")
    case Some(Scalar(v)) => Some(v)
    case Some(_) => None
  }

  function DecodeChannels(items: seq<Node>): Option<seq<U32>> {
    if items == [] then Some([])
    else
      var rest := DecodeChannels(items[1..]);
      if !items[0].Scalar? || rest.None? then None
      else match ParseUint(items[0].value)
        case Some(hz) => if hz < 0x1_0000_0000 then Some([hz as U32] + rest.value) else None
        case None => None
  }

  function DecodeChannelField(n: Option<Node>): Option<seq<U32>> {
    match n
    case None => Some([])
    case Some(Sequence(items)) => DecodeChannels(items)
    case Some(_) => None
  }

  /** yaml.Unmarshal of one trunking.systems entry. */
  function Decode(n: Node): Option<System> {
    if !n.Mapping? || !DistinctKeys(n.content) then None
    else
      var name := DecodeText(FieldOf(n.content, "name"));
      var protocol := DecodeText(FieldOf(n.content, "protocol"));
      var channels := DecodeChannelField(FieldOf(n.content, "control_channels"));
      var file := DecodeText(FieldOf(n.content, "talkgroup_file"));
      if name.None? || protocol.None? || channels.None? || file.None? then None
      else Some(System(name.value, protocol.value, channels.value, file.value, Others(n.content)))
  }

  /** mapStringValue(n, "name"). */
  function NodeName(n: Node): string {
    if !n.Mapping? then ""
    else match FieldOf(n.content, "name")
      case Some(Scalar(v)) => v
      case _ => ""
  }

  ghost predicate Decodes(nodes: seq<Node>, systems: seq<System>) {
    |nodes| == |systems| && forall i | 0 <= i < |nodes| :: Decode(nodes[i]) == Some(systems[i])
  }

  // ---------------------------------------------------- writing a system node

  function ChannelNodes(channels: seq<U32>): seq<Node> {
    if channels == [] then []
    else ChannelNodes(channels[..|channels| - 1]) + [Scalar(Itoa(channels[|channels| - 1]))]
  }

  function SystemNode(s: System): Node {
    Mapping([Pair("name", Scalar(s.name)), Pair("protocol", Scalar(s.protocol)),
             Pair("control_channels", Sequence(ChannelNodes(s.channels))),
             Pair("talkgroup_file", Scalar(s.file))])
  }

  /** buildSystemMappingNode. */
  method BuildSystemMappingNode(s: System) returns (n: Node)
    ensures n == SystemNode(s)
  {
    var content := [Pair("name", Scalar(s.name))];
    content := content + [Pair("protocol", Scalar(s.protocol))];
    var items: seq<Node> := [];
    for i := 0 to |s.channels|
      invariant items == ChannelNodes(s.channels[..i])
    {
      assert s.channels[..i + 1][..i] == s.channels[..i];
      items := items + [Scalar(Itoa(s.channels[i]))];
    }
    assert s.channels[..|s.channels|] == s.channels;
    content := content + [Pair("control_channels", Sequence(items))];
    content := content + [Pair("talkgroup_file", Scalar(s.file))];
    n := Mapping(content);
  }

  lemma {:induction false} ChannelNodesFront(channels: seq<U32>)
    requires channels != []
    ensures ChannelNodes(channels) == [Scalar(Itoa(channels[0]))] + ChannelNodes(channels[1..])
  {
    var n := |channels|;
    if n > 1 {
      ChannelNodesFront(channels[..n - 1]);
      assert channels[..n - 1][1..] == channels[1..][..n - 2];
    }
  }

  lemma {:induction false} ChannelsDecode(channels: seq<U32>)
    ensures DecodeChannels(ChannelNodes(channels)) == Some(channels)
  {
    if channels != [] {
      ChannelNodesFront(channels);
      ChannelsDecode(channels[1..]);
      ItoaRoundTrip(channels[0]);
      assert ChannelNodes(channels)[1..] == ChannelNodes(channels[1..]);
      assert [channels[0]] + channels[1..] == channels;
    }
  }

  lemma {:induction false} FieldAt(pairs: seq<Pair>, k: nat)
    requires k < |pairs| && DistinctKeys(pairs)
    ensures FieldOf(pairs, pairs[k].key) == Some(pairs[k].value)
  {
    if k > 0 {
      FieldAt(pairs[1..], k - 1);
    }
  }

  lemma {:induction false} NoOthers(pairs: seq<Pair>)
    requires forall i | 0 <= i < |pairs| :: OwnKey(pairs[i].key)
    ensures Others(pairs) == []
  {
    if pairs != [] {
      NoOthers(pairs[1..]);
    }
  }

  /** A node written for a system decodes to it again. */
  lemma SystemNodeRoundTrip(s: System)
    requires s.rest == []
    ensures Decode(SystemNode(s)) == Some(s)
  {
    var c := SystemNode(s).content;
    FieldAt(c, 0);
    FieldAt(c, 1);
    FieldAt(c, 2);
    FieldAt(c, 3);
    NoOthers(c);
    ChannelsDecode(s.channels);
  }

  lemma NamesAgree(n: Node)
    requires Decode(n).Some?
    ensures NodeName(n) == Decode(n).value.name
  {
  }

  // ------------------------------------------------- the name of an imported system

  /** The system an import stands for: everything it carries, under its collapsed name. */
  predicate IsSystemOf(s: System, sys: Import) {
    s.name == Collapse(sys.name) && s.protocol == sys.protocol && s.channels == sys.channels && s.file == sys.file
    && s.rest == []
  }

  /** The entry an import becomes. */
  function EntryOf(sys: Import): System {
    System(Collapse(sys.name), sys.protocol, sys.channels, sys.file, [])
  }

  function Entries(imports: seq<Import>): (e: seq<System>)
    ensures |e| == |imports|
  {
    if imports == [] then [] else [EntryOf(imports[0])] + Entries(imports[1..])
  }

  /** The folded names by which the struct path looks up the imports. */
  function EntryKeys(imports: seq<Import>): (keys: seq<string>)
    ensures |keys| == |imports|
  {
    if imports == [] then [] else [Lower(EntryOf(imports[0]).name)] + EntryKeys(imports[1..])
  }

  lemma {:induction false} EntryAt(imports: seq<Import>, i: nat)
    requires i < |imports|
    ensures Entries(imports)[i] == EntryOf(imports[i])
    ensures EntryKeys(imports)[i] == Lower(EntryOf(imports[i]).name)
  {
    if i > 0 {
      EntryAt(imports[1..], i - 1);
    }
  }

  // ------------------------------------------------------- the name indexes

  /** The last of the first n names with a folded spelling, as the struct path keeps it. */
  function IndexAll(names: seq<string>, n: nat): map<string, nat>
    requires n <= |names|
  {
    if n == 0 then map[] else IndexAll(names, n - 1)[Lower(names[n - 1]) := n - 1]
  }

  /** The same as the node path keeps it: without the empty name. */
  function IndexNamed(names: seq<string>, n: nat): map<string, nat>
    requires n <= |names|
  {
    if n == 0 then map[]
    else if names[n - 1] == "" then IndexNamed(names, n - 1)
    else IndexNamed(names, n - 1)[Lower(names[n - 1]) := n - 1]
  }

  ghost predicate Within(idx: map<string, nat>, n: nat) {
    forall k | k in idx :: idx[k] < n
  }

  lemma {:induction false} IndexesAgree(names: seq<string>, n: nat)
    requires n <= |names|
    ensures forall k | k != "" :: k in IndexAll(names, n) <==> k in IndexNamed(names, n)
    ensures forall k | k != "" && k in IndexAll(names, n) :: IndexAll(names, n)[k] == IndexNamed(names, n)[k]
    ensures Within(IndexAll(names, n), n) && Within(IndexNamed(names, n), n)
  {
    if n > 0 {
      IndexesAgree(names, n - 1);
    }
  }

  lemma IndexesInRange(names: seq<string>)
    ensures Within(IndexAll(names, |names|), |names|) && Within(IndexNamed(names, |names|), |names|)
  {
    IndexesAgree(names, |names|);
  }

  lemma {:induction false} IndexedExactly(names: seq<string>, n: nat, key: string)
    requires n <= |names|
    ensures key in IndexAll(names, n) <==> exists i | 0 <= i < n :: Lower(names[i]) == key
  {
    if n > 0 {
      IndexedExactly(names, n - 1, key);
    }
  }

  function SystemNames(systems: seq<System>): (names: seq<string>)
    ensures |names| == |systems| && forall i | 0 <= i < |names| :: names[i] == systems[i].name
  {
    seq(|systems|, i requires 0 <= i < |systems| => systems[i].name)
  }

  function NodeNames(nodes: seq<Node>): (names: seq<string>)
    ensures |names| == |nodes| && forall i | 0 <= i < |names| :: names[i] == NodeName(nodes[i])
  {
    seq(|nodes|, i requires 0 <= i < |nodes| => NodeName(nodes[i]))
  }

  lemma SameNames(nodes: seq<Node>, systems: seq<System>)
    requires Decodes(nodes, systems)
    ensures NodeNames(nodes) == SystemNames(systems)
  {
    forall i | 0 <= i < |nodes|
      ensures NodeName(nodes[i]) == systems[i].name
    {
      NamesAgree(nodes[i]);
    }
  }

  // ------------------------------------------------------- the two merges

  /** One import in the struct path. */
  function PlaceStruct(systems: seq<System>, existing: map<string, nat>, key: string, entry: System, force: bool)
    : (r: Option<seq<System>>)
    requires Within(existing, |systems|)
    ensures r.Some? ==> |r.value| >= |systems|
  {
    if key !in existing then Some(systems + [entry])
    else if force then Some(systems[existing[key] := entry])
    else None
  }

  /** The struct path after n imports: its index is not updated on the way. */
  function StructMerge(systems: seq<System>, existing: map<string, nat>, keys: seq<string>, entries: seq<System>,
                       force: bool, n: nat): (r: Option<seq<System>>)
    requires n <= |entries| == |keys| && Within(existing, |systems|)
    ensures r.Some? ==> |r.value| >= |systems|
  {
    if n == 0 then Some(systems)
    else
      match StructMerge(systems, existing, keys, entries, force, n - 1)
      case None => None
      case Some(before) => PlaceStruct(before, existing, keys[n - 1], entries[n - 1], force)
  }

  /** The node path's list and index. */
  datatype Tree = Tree(nodes: seq<Node>, idx: map<string, nat>)

  type Index = t: Tree | Within(t.idx, |t.nodes|) witness Tree([], map[])

  /** One import in the node path. */
  function PlaceNode(t: Index, key: string, node: Node, force: bool): Option<Index> {
    if key !in t.idx then Some(Tree(t.nodes + [node], t.idx[key := |t.nodes|]))
    else if force then Some(Tree(t.nodes[t.idx[key] := node], t.idx))
    else None
  }

  /** The node path after n imports, from the imports' names as parsed. */
  function NodeMerge(tree: Index, keys: seq<string>, items: seq<Node>, force: bool, n: nat): Option<Index>
    requires n <= |items| == |keys|
  {
    if n == 0 then Some(tree)
    else
      match NodeMerge(tree, keys, items, force, n - 1)
      case None => None
      case Some(t) => PlaceNode(t, keys[n - 1], items[n - 1], force)
  }

  /** The folded names by which the node path does. */
  function ImportKeys(imports: seq<Import>): (keys: seq<string>)
    ensures |keys| == |imports| && forall i | 0 <= i < |keys| :: keys[i] == Lower(imports[i].name)
  {
    seq(|imports|, i requires 0 <= i < |imports| => Lower(imports[i].name))
  }

  function NewNodes(imports: seq<Import>): (nodes: seq<Node>)
    ensures |nodes| == |imports| && forall i | 0 <= i < |nodes| :: nodes[i] == SystemNode(EntryOf(imports[i]))
  {
    seq(|imports|, i requires 0 <= i < |imports| => SystemNode(EntryOf(imports[i])))
  }

  /** What the struct path starts from, and keeps. */
  function IndexOfSystems(systems: seq<System>): map<string, nat> {
    IndexAll(SystemNames(systems), |systems|)
  }

  /** What the node path starts from. */
  function IndexTree(nodes: seq<Node>): (t: Index)
    ensures t.nodes == nodes && t.idx == IndexNamed(NodeNames(nodes), |nodes|)
  {
    IndexesInRange(NodeNames(nodes));
    Tree(nodes, IndexNamed(NodeNames(nodes), |nodes|))
  }

  /** What the struct path makes of the systems. */
  function Structs(systems: seq<System>, imports: seq<Import>, force: bool): Option<seq<System>> {
    IndexesInRange(SystemNames(systems));
    StructMerge(systems, IndexOfSystems(systems), EntryKeys(imports), Entries(imports), force, |imports|)
  }

  /** What the node path makes of the nodes. */
  function Nodes(nodes: seq<Node>, imports: seq<Import>, force: bool): Option<seq<Node>> {
    match NodeMerge(IndexTree(nodes), ImportKeys(imports), NewNodes(imports), force, |imports|)
    case None => None
    case Some(t) => Some(t.nodes)
  }

  /** The loop that notes the existing systems' names. */
  method IndexSystems(cfg: seq<System>) returns (existing: map<string, nat>)
    ensures existing == IndexAll(SystemNames(cfg), |cfg|)
  {
    existing := map[];
    for i := 0 to |cfg|
      invariant existing == IndexAll(SystemNames(cfg), i)
    {
      existing := existing[Lower(cfg[i].name) := i];
    }
  }

  /** The struct path: index the existing systems, then merge the imports. */
  method MergeStructs(cfg: seq<System>, imports: seq<Import>, force: bool)
    returns (r: Option<seq<System>>, newSystems: seq<System>)
    ensures r == Structs(cfg, imports, force)
    ensures r.Some? ==>
              newSystems == Entries(imports) && forall i | 0 <= i < |imports| :: IsSystemOf(newSystems[i], imports[i])
  {
    forall i | 0 <= i < |imports|
      ensures IsSystemOf(Entries(imports)[i], imports[i])
    {
      EntryAt(imports, i);
    }
    var existing := IndexSystems(cfg);
    IndexesInRange(SystemNames(cfg));
    r, newSystems := MergeLoop(cfg, existing, imports, force);
  }

  /** The merge loop of mergeIntoConfig. */
  method MergeLoop(cfg: seq<System>, existing: map<string, nat>, imports: seq<Import>, force: bool)
    returns (r: Option<seq<System>>, newSystems: seq<System>)
    requires Within(existing, |cfg|)
    ensures r == StructMerge(cfg, existing, EntryKeys(imports), Entries(imports), force, |imports|)
    ensures r.Some? ==> newSystems == Entries(imports)
  {
    ghost var keys, entries := EntryKeys(imports), Entries(imports);
    var systems := cfg;
    newSystems := [];
    for i := 0 to |imports|
      invariant |newSystems| == i && forall j | 0 <= j < i :: newSystems[j] == entries[j]
      invariant StructMerge(cfg, existing, keys, entries, force, i) == Some(systems)
    {
      var entry, step := MergeOne(systems, existing, imports, i, force);
      newSystems := newSystems + [entry];
      if step == None {
        StructRejectionLasts(cfg, existing, keys, entries, force, i + 1, |imports|);
        return None, [];
      }
      systems := step.value;
    }
    r := Some(systems);
  }

  /** The body of the merge loop. */
  method MergeOne(systems: seq<System>, existing: map<string, nat>, imports: seq<Import>, i: nat, force: bool)
    returns (entry: System, r: Option<seq<System>>)
    requires i < |imports| && Within(existing, |systems|)
    ensures entry == Entries(imports)[i]
    ensures r == PlaceStruct(systems, existing, EntryKeys(imports)[i], entry, force)
  {
    EntryAt(imports, i);
    entry := EntryOf(imports[i]);
    if Lower(entry.name) in existing {
      if !force {
        return entry, None;
      }
      return entry, Some(systems[existing[Lower(entry.name)] := entry]);
    }
    return entry, Some(systems + [entry]);
  }

  lemma {:induction false} StructRejectionLasts(systems: seq<System>, existing: map<string, nat>, keys: seq<string>,
                                                entries: seq<System>,
                                                force: bool, m: nat, n: nat)
    requires m <= n <= |entries| == |keys| && Within(existing, |systems|)
    requires StructMerge(systems, existing, keys, entries, force, m) == None
    ensures StructMerge(systems, existing, keys, entries, force, n) == None
  {
    if m < n {
      StructRejectionLasts(systems, existing, keys, entries, force, m, n - 1);
    }
  }

  /** The loop that notes the existing nodes' names. */
  method IndexNodes(nodes: seq<Node>) returns (idx: map<string, nat>)
    ensures idx == IndexNamed(NodeNames(nodes), |nodes|)
  {
    idx := map[];
    for i := 0 to |nodes|
      invariant idx == IndexNamed(NodeNames(nodes), i)
    {
      var name := NodeName(nodes[i]);
      if name != "" {
        idx := idx[Lower(name) := i];
      }
    }
  }

  /** The merge loop of mergeYAMLNodes. */
  method MergeNodes(existing: seq<Node>, parsed: seq<Import>, newEntries: seq<System>, force: bool)
    returns (r: Option<seq<Node>>)
    requires newEntries == Entries(parsed)
    ensures r == Nodes(existing, parsed, force)
  {
    var idx := IndexNodes(existing);
    ghost var start := IndexTree(existing);
    ghost var keys, items := ImportKeys(parsed), NewNodes(parsed);
    IndexesInRange(NodeNames(existing));
    var tree: Index := Tree(existing, idx);
    for i := 0 to |parsed|
      invariant NodeMerge(start, keys, items, force, i) == Some(tree)
    {
      EntryAt(parsed, i);
      var step := NodeStep(tree, parsed[i].name, newEntries[i], force);
      if step == None {
        NodeRejectionLasts(start, keys, items, force, i + 1, |parsed|);
        return None;
      }
      tree := step.value;
    }
    r := Some(tree.nodes);
  }

  /** The collision check for one node. */
  method NodeStep(t: Index, name: string, entry: System, force: bool) returns (r: Option<Index>)
    ensures r == PlaceNode(t, Lower(name), SystemNode(entry), force)
  {
    var node := BuildSystemMappingNode(entry);
    var key := Lower(name);
    if key in t.idx {
      if !force {
        return None;
      }
      return Some(Tree(t.nodes[t.idx[key] := node], t.idx));
    }
    var nodes := t.nodes + [node];
    return Some(Tree(nodes, t.idx[key := |nodes| - 1]));
  }

  lemma {:induction false} NodeRejectionLasts(tree: Index, keys: seq<string>, items: seq<Node>, force: bool,
                                              m: nat, n: nat)
    requires m <= n <= |items| == |keys|
    requires NodeMerge(tree, keys, items, force, m) == None
    ensures NodeMerge(tree, keys, items, force, n) == None
  {
    if m < n {
      NodeRejectionLasts(tree, keys, items, force, m, n - 1);
    }
  }

  // ------------------------------------------------ what the node merge keeps

  ghost predicate KeyBelow(keys: seq<string>, n: nat, key: string)
    requires n <= |keys|
  {
    exists i | 0 <= i < n :: keys[i] == key
  }

  /** The node path's index: the existing names and the imports so far. */
  lemma {:induction false} NodeIndex(tree: Index, keys: seq<string>, items: seq<Node>, force: bool, n: nat)
    requires n <= |items| == |keys|
    requires NodeMerge(tree, keys, items, force, n).Some?
    ensures var t := NodeMerge(tree, keys, items, force, n).value;
            && (forall k :: k in t.idx <==> k in tree.idx || KeyBelow(keys, n, k))
            && (forall k | k in tree.idx :: t.idx[k] == tree.idx[k])
  {
    if n > 0 {
      NodeIndex(tree, keys, items, force, n - 1);
      forall k
        ensures KeyBelow(keys, n, k) <==> KeyBelow(keys, n - 1, k) || keys[n - 1] == k
      {
      }
    }
  }

  lemma {:induction false} NodesGrow(tree: Index, keys: seq<string>, items: seq<Node>, force: bool, n: nat)
    requires n <= |items| == |keys| && NodeMerge(tree, keys, items, force, n).Some?
    ensures |NodeMerge(tree, keys, items, force, n).value.nodes| >= |tree.nodes|
  {
    if n > 0 {
      NodesGrow(tree, keys, items, force, n - 1);
    }
  }

  /** Existing nodes that no import names stay where they are, untouched. */
  lemma {:induction false} OtherNodesKept(tree: Index, keys: seq<string>, items: seq<Node>, force: bool, n: nat, k: nat)
    requires n <= |items| == |keys|
    requires NodeMerge(tree, keys, items, force, n).Some? && k < |tree.nodes|
    requires forall i | 0 <= i < n && keys[i] in tree.idx :: tree.idx[keys[i]] != k
    ensures |NodeMerge(tree, keys, items, force, n).value.nodes| > k
    ensures NodeMerge(tree, keys, items, force, n).value.nodes[k] == tree.nodes[k]
    ensures forall key | key in NodeMerge(tree, keys, items, force, n).value.idx ::
              NodeMerge(tree, keys, items, force, n).value.idx[key] == k ==> key in tree.idx
  {
    if n > 0 {
      OtherNodesKept(tree, keys, items, force, n - 1, k);
      NodeIndex(tree, keys, items, force, n - 1);
    }
  }

  /** The last import of a name is in the list, under the index of its name. */
  lemma {:induction false} LastImportLands(tree: Index, keys: seq<string>, items: seq<Node>, force: bool, n: nat,
                                           i: nat)
    requires i < n <= |items| == |keys| && OneKeyEach(tree.idx)
    requires NodeMerge(tree, keys, items, force, n).Some?
    requires forall j | i < j < n :: keys[j] != keys[i]
    ensures var t := NodeMerge(tree, keys, items, force, n).value;
            keys[i] in t.idx && t.nodes[t.idx[keys[i]]] == items[i]
  {
    if i < n - 1 {
      LastImportLands(tree, keys, items, force, n - 1, i);
      KeysStayApart(tree, keys, items, force, n - 1);
    }
  }

  ghost predicate OneKeyEach(idx: map<string, nat>) {
    forall k, l | k in idx && l in idx && idx[k] == idx[l] :: k == l
  }

  lemma {:induction false} KeysStayApart(tree: Index, keys: seq<string>, items: seq<Node>, force: bool, n: nat)
    requires n <= |items| == |keys| && OneKeyEach(tree.idx)
    requires NodeMerge(tree, keys, items, force, n).Some?
    ensures OneKeyEach(NodeMerge(tree, keys, items, force, n).value.idx)
  {
    if n > 0 {
      KeysStayApart(tree, keys, items, force, n - 1);
    }
  }

  lemma {:induction false} IndexIsByName(names: seq<string>, n: nat)
    requires n <= |names|
    ensures forall k | k in IndexNamed(names, n) ::
              IndexNamed(names, n)[k] < n && Lower(names[IndexNamed(names, n)[k]]) == k
    ensures OneKeyEach(IndexNamed(names, n))
  {
    if n > 0 {
      IndexIsByName(names, n - 1);
    }
  }

  /** Every imported system is in the written list, with all it carries; of several alike
      the last one is. */
  lemma ImportsAreWritten(nodes: seq<Node>, imports: seq<Import>, force: bool, i: nat)
    requires i < |imports| && Nodes(nodes, imports, force).Some?
    requires forall j | i < j < |imports| :: Lower(imports[j].name) != Lower(imports[i].name)
    ensures var written := Nodes(nodes, imports, force).value;
            exists k | 0 <= k < |written| ::
              Decode(written[k]).Some? && IsSystemOf(Decode(written[k]).value, imports[i])
  {
    EntryIsWritten(nodes, imports, force, i);
    var written := Nodes(nodes, imports, force).value;
    var k :| 0 <= k < |written| && written[k] == SystemNode(EntryOf(imports[i]));
    SystemNodeRoundTrip(EntryOf(imports[i]));
  }

  lemma EntryIsWritten(nodes: seq<Node>, imports: seq<Import>, force: bool, i: nat)
    requires i < |imports| && Nodes(nodes, imports, force).Some?
    requires forall j | i < j < |imports| :: Lower(imports[j].name) != Lower(imports[i].name)
    ensures SystemNode(EntryOf(imports[i])) in Nodes(nodes, imports, force).value
  {
    IndexIsByName(NodeNames(nodes), |nodes|);
    LastImportLands(IndexTree(nodes), ImportKeys(imports), NewNodes(imports), force, |imports|, i);
  }

  /** The same for the list of structs; imports of new names are all in it, alike or not. */
  lemma ImportsAreMerged(systems: seq<System>, imports: seq<Import>, force: bool, i: nat)
    requires i < |imports| && Structs(systems, imports, force).Some?
    requires StructMeets(systems, imports[i]) ==>
               forall j | i < j < |imports| :: !Alike(Collapse(imports[j].name), Collapse(imports[i].name))
    ensures exists k | 0 <= k < |Structs(systems, imports, force).value| ::
              IsSystemOf(Structs(systems, imports, force).value[k], imports[i])
  {
    EntryAt(imports, i);
    PresentIsIndexed(systems, Collapse(imports[i].name));
    forall j | i < j < |imports| && StructMeets(systems, imports[i])
      ensures EntryKeys(imports)[j] != EntryKeys(imports)[i]
    {
      EntryAt(imports, j);
    }
    AllByName(SystemNames(systems), |systems|);
    IndexesInRange(SystemNames(systems));
    LastEntryLands(systems, IndexOfSystems(systems), EntryKeys(imports), Entries(imports), force, |imports|, i);
  }

  lemma {:induction false} LastEntryLands(systems: seq<System>, existing: map<string, nat>, sk: seq<string>,
                                          entries: seq<System>, force: bool, n: nat, i: nat)
    requires i < n <= |entries| == |sk| && Within(existing, |systems|) && OneKeyEach(existing)
    requires StructMerge(systems, existing, sk, entries, force, n).Some?
    requires sk[i] in existing ==> forall j | i < j < n :: sk[j] != sk[i]
    ensures var s := StructMerge(systems, existing, sk, entries, force, n).value;
            exists k | 0 <= k < |s| :: s[k] == entries[i] && (sk[i] in existing ==> k == existing[sk[i]])
                                       && (sk[i] !in existing ==> |systems| <= k)
  {
    var s := StructMerge(systems, existing, sk, entries, force, n).value;
    var before := StructMerge(systems, existing, sk, entries, force, n - 1).value;
    if i < n - 1 {
      LastEntryLands(systems, existing, sk, entries, force, n - 1, i);
      var k :| 0 <= k < |before| && before[k] == entries[i] && (sk[i] in existing ==> k == existing[sk[i]])
        && (sk[i] !in existing ==> |systems| <= k);
      assert s[k] == entries[i];
    } else {
      var k := if sk[i] in existing then existing[sk[i]] else |before|;
      assert s[k] == entries[i];
    }
  }

  /** An existing node of another name than the imports' keeps its place and content. */
  lemma OthersAreKept(nodes: seq<Node>, imports: seq<Import>, force: bool, k: nat)
    requires k < |nodes| && Nodes(nodes, imports, force).Some?
    requires forall i | 0 <= i < |imports| :: Lower(imports[i].name) != Lower(NodeName(nodes[k]))
    ensures |Nodes(nodes, imports, force).value| >= |nodes|
    ensures Nodes(nodes, imports, force).value[k] == nodes[k]
  {
    IndexIsByName(NodeNames(nodes), |nodes|);
    NodesGrow(IndexTree(nodes), ImportKeys(imports), NewNodes(imports), force, |imports|);
    OtherNodesKept(IndexTree(nodes), ImportKeys(imports), NewNodes(imports),
                   force, |imports|, k);
  }

  // ------------------------------------------- when the two merges agree

  /** Both reject the imports, or the written nodes decode to the validated structs. */
  ghost predicate Agree(systems: Option<seq<System>>, nodes: Option<seq<Node>>) {
    && (systems.None? <==> nodes.None?)
    && (systems.Some? ==> Decodes(nodes.value, systems.value))
  }

  /** Some existing system has the name, up to case. */
  ghost predicate Present(systems: seq<System>, name: string) {
    exists i | 0 <= i < |systems| :: Alike(systems[i].name, name)
  }

  /** The import meets an existing system under the name the struct path looks for. */
  ghost predicate StructMeets(systems: seq<System>, sys: Import) {
    Present(systems, Collapse(sys.name))
  }

  /** The import meets one under the name the node path looks for. */
  ghost predicate NodeMeets(systems: seq<System>, sys: Import) {
    sys.name != "" && Present(systems, sys.name)
  }

  /** An import that meets an existing system either way has a name the collapse leaves
      alone, up to case. */
  ghost predicate MeetsTheSame(systems: seq<System>, imports: seq<Import>) {
    forall i | 0 <= i < |imports| && (StructMeets(systems, imports[i]) || NodeMeets(systems, imports[i])) ::
      imports[i].name != "" && Alike(Collapse(imports[i].name), imports[i].name)
  }

  /** Two imports have the same new name, up to case. */
  ghost predicate TwoAlike(systems: seq<System>, imports: seq<Import>) {
    exists i, j | 0 <= i < j < |imports| ::
      Alike(imports[i].name, imports[j].name) && !NodeMeets(systems, imports[i])
  }

  /** The struct path finds a collision. */
  ghost predicate StructClash(systems: seq<System>, imports: seq<Import>) {
    exists i | 0 <= i < |imports| :: StructMeets(systems, imports[i])
  }

  /** The node path finds one, with an existing system or an earlier import. */
  ghost predicate NodeClash(systems: seq<System>, imports: seq<Import>) {
    || (exists i | 0 <= i < |imports| :: NodeMeets(systems, imports[i]))
    || exists i, j | 0 <= i < j < |imports| :: Alike(imports[i].name, imports[j].name)
  }

  /** When the merges agree: with force, when every import meets the same system in both
      and no two new ones are alike; without, when both or neither find a collision. */
  ghost predicate MustAgree(systems: seq<System>, imports: seq<Import>, force: bool) {
    if force then MeetsTheSame(systems, imports) && !TwoAlike(systems, imports)
    else StructClash(systems, imports) <==> NodeClash(systems, imports)
  }

  /** What the two paths start from: struct keys sk, node keys nk. */
  ghost predicate Paths(systems: seq<System>, existing: map<string, nat>, tree: Index, sk: seq<string>, nk: seq<string>,
                        entries: seq<System>, items: seq<Node>) {
    && Decodes(tree.nodes, systems) && Decodes(items, entries) && |entries| == |sk| == |nk|
    && Within(existing, |systems|)
    && (forall k | k in tree.idx :: k in existing && existing[k] == tree.idx[k])
    && (forall k | k in existing :: Lower(systems[existing[k]].name) == k)
    && (forall i | 0 <= i < |sk| :: Lower(entries[i].name) == sk[i])
    && (forall i, j | 0 <= i < j < |nk| && nk[i] == nk[j] :: sk[i] == sk[j])
  }

  /** Each import meets the same place of the list in both paths, or none. */
  ghost predicate SameTargets(existing: map<string, nat>, idx: map<string, nat>, sk: seq<string>, nk: seq<string>) {
    |sk| == |nk| && forall i | 0 <= i < |sk| :: TargetMatches(existing, idx, sk[i], nk[i])
  }

  ghost predicate TargetMatches(existing: map<string, nat>, idx: map<string, nat>, s: string, k: string) {
    (s in existing <==> k in idx) && (s in existing ==> existing[s] == idx[k])
  }

  ghost predicate NewNamesDiffer(idx: map<string, nat>, nk: seq<string>) {
    forall i, j | 0 <= i < j < |nk| && nk[i] == nk[j] :: nk[i] in idx
  }

  function NodesOf(t: Option<Index>): Option<seq<Node>> {
    match t
    case None => None
    case Some(tree) => Some(tree.nodes)
  }

  lemma {:induction false} StepsAgree(systems: seq<System>, existing: map<string, nat>, tree: Index, sk: seq<string>,
                                      nk: seq<string>, entries: seq<System>, items: seq<Node>, force: bool, n: nat)
    requires Decodes(tree.nodes, systems) && Decodes(items, entries) && |entries| == |sk| == |nk|
    requires Within(existing, |systems|) && SameTargets(existing, tree.idx, sk, nk) && NewNamesDiffer(tree.idx, nk)
    requires n <= |sk|
    ensures Agree(StructMerge(systems, existing, sk, entries, force, n), NodesOf(NodeMerge(tree, nk, items, force, n)))
  {
    if n > 0 {
      StepsAgree(systems, existing, tree, sk, nk, entries, items, force, n - 1);
      var s := StructMerge(systems, existing, sk, entries, force, n - 1);
      var t := NodeMerge(tree, nk, items, force, n - 1);
      if s.Some? {
        NewNameIsNew(tree, nk, items, force, n - 1);
        DecodesStep(t.value.nodes, s.value, items, entries, n - 1,
                    if sk[n - 1] in existing then existing[sk[n - 1]] else 0);
      }
    }
  }

  lemma DecodesStep(nodes: seq<Node>, systems: seq<System>, items: seq<Node>, entries: seq<System>, n: nat, at: nat)
    requires Decodes(nodes, systems) && Decodes(items, entries) && n < |items|
    ensures Decodes(nodes + [items[n]], systems + [entries[n]])
    ensures at < |nodes| ==> Decodes(nodes[at := items[n]], systems[at := entries[n]])
  {
  }

  /** As long as new names differ, an import meets what it met at the start. */
  lemma NewNameIsNew(tree: Index, nk: seq<string>, items: seq<Node>, force: bool, n: nat)
    requires n < |nk| == |items| && NewNamesDiffer(tree.idx, nk) && NodeMerge(tree, nk, items, force, n).Some?
    ensures var t := NodeMerge(tree, nk, items, force, n).value;
            && (nk[n] in t.idx <==> nk[n] in tree.idx)
            && (nk[n] in tree.idx ==> t.idx[nk[n]] == tree.idx[nk[n]])
  {
    NodeIndex(tree, nk, items, force, n);
  }

  // ------------------------------------- with force, agreement means same targets

  /** The list keeps its names: the place of an existing name holds a system of that name,
      and what is appended has a name none of them has. */
  lemma {:induction false} StructNames(systems: seq<System>, existing: map<string, nat>, sk: seq<string>,
                                       entries: seq<System>, n: nat)
    requires n <= |entries| == |sk| && Within(existing, |systems|)
    requires forall k | k in existing :: Lower(systems[existing[k]].name) == k
    requires forall i | 0 <= i < |sk| :: Lower(entries[i].name) == sk[i]
    ensures StructMerge(systems, existing, sk, entries, true, n).Some?
    ensures var s := StructMerge(systems, existing, sk, entries, true, n).value;
            && (forall k | k in existing :: Lower(s[existing[k]].name) == k)
            && (forall p | |systems| <= p < |s| :: Lower(s[p].name) !in existing)
  {
    if n > 0 {
      StructNames(systems, existing, sk, entries, n - 1);
    }
  }

  /** New names are indexed behind the existing nodes. */
  lemma {:induction false} NewNodesBehind(tree: Index, nk: seq<string>, items: seq<Node>, n: nat)
    requires n <= |items| == |nk|
    ensures NodeMerge(tree, nk, items, true, n).Some?
    ensures var t := NodeMerge(tree, nk, items, true, n).value;
            |t.nodes| >= |tree.nodes| && forall k | k in t.idx && k !in tree.idx :: |tree.nodes| <= t.idx[k]
  {
    if n > 0 {
      NewNodesBehind(tree, nk, items, n - 1);
    }
  }

  function LastOf(keys: seq<string>, key: string, n: nat): (j: nat)
    requires n <= |keys| && exists i :: 0 <= i < n && keys[i] == key
    ensures j < n && keys[j] == key && forall i | j < i < n :: keys[i] != key
  {
    if keys[n - 1] == key then n - 1 else LastOf(keys, key, n - 1)
  }

  /** If the lists agree, the last import of a node key shows that its struct key is the
      same when the key is an existing one, and new when it is new. */
  lemma AgreementTarget(systems: seq<System>, existing: map<string, nat>, tree: Index, sk: seq<string>,
                        nk: seq<string>, entries: seq<System>, items: seq<Node>, i: nat)
    requires Paths(systems, existing, tree, sk, nk, entries, items) && OneKeyEach(tree.idx) && i < |sk|
    requires Agree(StructMerge(systems, existing, sk, entries, true, |sk|),
                   NodesOf(NodeMerge(tree, nk, items, true, |sk|)))
    ensures if nk[i] in tree.idx then sk[i] == nk[i] else sk[i] !in existing
  {
    var n := |sk|;
    var j := LastOf(nk, nk[i], n);
    assert sk[j] == sk[i];
    StructNames(systems, existing, sk, entries, n);
    NewNodesBehind(tree, nk, items, n);
    NodeIndex(tree, nk, items, true, n);
    LastImportLands(tree, nk, items, true, n, j);
    var s := StructMerge(systems, existing, sk, entries, true, n).value;
    var t := NodeMerge(tree, nk, items, true, n).value;
    var p := t.idx[nk[i]];
    assert s[p] == entries[j];
  }

  /** The imports below n that the struct path appends. */
  function NewNames(existing: map<string, nat>, sk: seq<string>, n: nat): nat
    requires n <= |sk|
  {
    if n == 0 then 0 else NewNames(existing, sk, n - 1) + if sk[n - 1] in existing then 0 else 1
  }

  /** Those that the node path appends: no earlier import has their name. */
  ghost function FreshNames(idx: map<string, nat>, nk: seq<string>, n: nat): nat
    requires n <= |nk|
  {
    if n == 0 then 0
    else FreshNames(idx, nk, n - 1) + if nk[n - 1] in idx || KeyBelow(nk, n - 1, nk[n - 1]) then 0 else 1
  }

  lemma {:induction false} StructLength(systems: seq<System>, existing: map<string, nat>, sk: seq<string>,
                                        entries: seq<System>, n: nat)
    requires n <= |entries| == |sk| && Within(existing, |systems|)
    ensures var s := StructMerge(systems, existing, sk, entries, true, n);
            s.Some? && |s.value| == |systems| + NewNames(existing, sk, n)
  {
    if n > 0 {
      StructLength(systems, existing, sk, entries, n - 1);
    }
  }

  lemma {:induction false} NodeLength(tree: Index, nk: seq<string>, items: seq<Node>, n: nat)
    requires n <= |items| == |nk|
    ensures var t := NodeMerge(tree, nk, items, true, n);
            t.Some? && |t.value.nodes| == |tree.nodes| + FreshNames(tree.idx, nk, n)
  {
    if n > 0 {
      NodeLength(tree, nk, items, n - 1);
      IndexHas(tree, nk, items, n - 1);
    }
  }

  lemma {:induction false} FreshIsFewer(existing: map<string, nat>, idx: map<string, nat>, sk: seq<string>,
                                        nk: seq<string>, i: nat, j: nat, n: nat)
    requires n <= |sk| == |nk| && i < j < |nk| && nk[i] == nk[j] && nk[i] !in idx
    requires forall k | 0 <= k < |nk| :: sk[k] in existing <==> nk[k] in idx
    ensures FreshNames(idx, nk, n) + (if j < n then 1 else 0) <= NewNames(existing, sk, n)
  {
    if n > 0 {
      FreshIsFewer(existing, idx, sk, nk, i, j, n - 1);
      if n - 1 == j {
        assert KeyBelow(nk, j, nk[j]);
      }
    }
  }

  /** The node path gets the shorter list as soon as two new names are alike. */
  lemma NodesAreFewer(systems: seq<System>, existing: map<string, nat>, tree: Index, sk: seq<string>, nk: seq<string>,
                      entries: seq<System>, items: seq<Node>, i: nat, j: nat)
    requires Paths(systems, existing, tree, sk, nk, entries, items) && SameTargets(existing, tree.idx, sk, nk)
    requires i < j < |nk| && nk[i] == nk[j] && nk[i] !in tree.idx
    ensures var s := StructMerge(systems, existing, sk, entries, true, |sk|);
            var t := NodeMerge(tree, nk, items, true, |sk|);
            s.Some? && t.Some? && |t.value.nodes| < |s.value|
  {
    StructLength(systems, existing, sk, entries, |sk|);
    NodeLength(tree, nk, items, |sk|);
    FreshIsFewer(existing, tree.idx, sk, nk, i, j, |sk|);
  }

  lemma IndexHas(tree: Index, keys: seq<string>, items: seq<Node>, n: nat)
    requires n < |items| == |keys| && NodeMerge(tree, keys, items, true, n).Some?
    ensures keys[n] in NodeMerge(tree, keys, items, true, n).value.idx
            <==> keys[n] in tree.idx || KeyBelow(keys, n, keys[n])
  {
    NodeIndex(tree, keys, items, true, n);
  }

  /** With force the merges agree exactly when every import has the same target in both
      paths and new names differ. */
  lemma ForcedAgreement(systems: seq<System>, existing: map<string, nat>, tree: Index, sk: seq<string>,
                        nk: seq<string>, entries: seq<System>, items: seq<Node>)
    requires Paths(systems, existing, tree, sk, nk, entries, items) && OneKeyEach(tree.idx)
    ensures Agree(StructMerge(systems, existing, sk, entries, true, |sk|),
                   NodesOf(NodeMerge(tree, nk, items, true, |sk|)))
            <==> SameTargets(existing, tree.idx, sk, nk) && NewNamesDiffer(tree.idx, nk)
  {
    if SameTargets(existing, tree.idx, sk, nk) && NewNamesDiffer(tree.idx, nk) {
      StepsAgree(systems, existing, tree, sk, nk, entries, items, true, |sk|);
    }
    if Agree(StructMerge(systems, existing, sk, entries, true, |sk|), NodesOf(NodeMerge(tree, nk, items, true, |sk|))) {
      forall i | 0 <= i < |sk|
        ensures if nk[i] in tree.idx then sk[i] == nk[i] else sk[i] !in existing
      {
        AgreementTarget(systems, existing, tree, sk, nk, entries, items, i);
      }
      assert SameTargets(existing, tree.idx, sk, nk);
      if i, j :| 0 <= i < j < |nk| && nk[i] == nk[j] && nk[i] !in tree.idx {
        NodesAreFewer(systems, existing, tree, sk, nk, entries, items, i, j);
      }
    }
  }

  // --------------------------------------- without force, a collision decides

  lemma {:induction false} StructsAccept(systems: seq<System>, existing: map<string, nat>, keys: seq<string>,
                                         entries: seq<System>, n: nat)
    requires n <= |entries| == |keys| && Within(existing, |systems|)
    ensures StructMerge(systems, existing, keys, entries, false, n).Some?
            <==> forall i | 0 <= i < n :: keys[i] !in existing
  {
    if n > 0 {
      StructsAccept(systems, existing, keys, entries, n - 1);
    }
  }

  lemma {:induction false} NodesAccept(tree: Index, keys: seq<string>, items: seq<Node>, n: nat)
    requires n <= |items| == |keys|
    ensures NodeMerge(tree, keys, items, false, n).Some?
            <==> forall i | 0 <= i < n :: keys[i] !in tree.idx && !KeyBelow(keys, i, keys[i])
  {
    if n > 0 {
      NodesAccept(tree, keys, items, n - 1);
      if NodeMerge(tree, keys, items, false, n - 1).Some? {
        NodeIndex(tree, keys, items, false, n - 1);
      }
    }
  }

  lemma RepeatsShow(keys: seq<string>)
    ensures forall i, j | 0 <= i < j < |keys| && keys[i] == keys[j] :: KeyBelow(keys, j, keys[j])
  {
  }

  ghost predicate SomeIn(keys: seq<string>, idx: map<string, nat>) {
    exists i | 0 <= i < |keys| :: keys[i] in idx
  }

  ghost predicate SomeInOrRepeated(keys: seq<string>, idx: map<string, nat>) {
    exists i | 0 <= i < |keys| :: keys[i] in idx || KeyBelow(keys, i, keys[i])
  }

  /** Without force the merges agree exactly when both or neither find a collision. */
  lemma UnforcedAgreement(systems: seq<System>, existing: map<string, nat>, tree: Index, sk: seq<string>,
                          nk: seq<string>, entries: seq<System>, items: seq<Node>)
    requires Paths(systems, existing, tree, sk, nk, entries, items)
    ensures Agree(StructMerge(systems, existing, sk, entries, false, |sk|),
                  NodesOf(NodeMerge(tree, nk, items, false, |sk|)))
            <==> (SomeIn(sk, existing) <==> SomeInOrRepeated(nk, tree.idx))
  {
    StructsAccept(systems, existing, sk, entries, |sk|);
    NodesAccept(tree, nk, items, |sk|);
    if NodeMerge(tree, nk, items, false, |sk|).Some? && StructMerge(systems, existing, sk, entries, false, |sk|).Some? {
      RepeatsShow(nk);
      StepsAgree(systems, existing, tree, sk, nk, entries, items, false, |sk|);
    }
  }

  // ------------------------------------------------ in terms of the names

  lemma PresentIsIndexed(systems: seq<System>, name: string)
    ensures Present(systems, name) <==> Lower(name) in IndexAll(SystemNames(systems), |systems|)
  {
    var names := SystemNames(systems);
    IndexedExactly(names, |names|, Lower(name));
    if Present(systems, name) {
      var i :| 0 <= i < |systems| && Alike(systems[i].name, name);
      assert Lower(names[i]) == Lower(name);
    }
  }

  lemma LowerEmpty(name: string)
    ensures Lower(name) == "" <==> name == ""
  {
    LowerChars(name);
  }

  lemma {:induction false} NamedOnly(names: seq<string>, n: nat)
    requires n <= |names|
    ensures "" !in IndexNamed(names, n)
  {
    if n > 0 {
      NamedOnly(names, n - 1);
      LowerEmpty(names[n - 1]);
    }
  }

  lemma {:induction false} AllByName(names: seq<string>, n: nat)
    requires n <= |names|
    ensures forall k | k in IndexAll(names, n) :: IndexAll(names, n)[k] < n && Lower(names[IndexAll(names, n)[k]]) == k
  {
    if n > 0 {
      AllByName(names, n - 1);
    }
  }

  lemma NewNodesDecode(imports: seq<Import>)
    ensures Decodes(NewNodes(imports), Entries(imports))
  {
    forall i | 0 <= i < |imports|
      ensures Decode(NewNodes(imports)[i]) == Some(Entries(imports)[i])
    {
      EntryAt(imports, i);
      SystemNodeRoundTrip(EntryOf(imports[i]));
    }
  }

  /** How the struct path's keys depend on the node path's. */
  lemma KeysFollow(imports: seq<Import>)
    ensures forall i | 0 <= i < |imports| :: Lower(Entries(imports)[i].name) == EntryKeys(imports)[i]
    ensures forall i, j | 0 <= i < j < |imports| && ImportKeys(imports)[i] == ImportKeys(imports)[j] ::
              EntryKeys(imports)[i] == EntryKeys(imports)[j]
  {
    forall i | 0 <= i < |imports|
      ensures Lower(Entries(imports)[i].name) == EntryKeys(imports)[i]
    {
      EntryAt(imports, i);
    }
    forall i, j | 0 <= i < j < |imports| && ImportKeys(imports)[i] == ImportKeys(imports)[j]
      ensures EntryKeys(imports)[i] == EntryKeys(imports)[j]
    {
      EntryAt(imports, i);
      EntryAt(imports, j);
      CollapseAlike(imports[i].name, imports[j].name);
    }
  }

  lemma PathsOf(nodes: seq<Node>, systems: seq<System>, imports: seq<Import>)
    requires Decodes(nodes, systems)
    ensures Paths(systems, IndexOfSystems(systems), IndexTree(nodes), EntryKeys(imports), ImportKeys(imports),
                  Entries(imports), NewNodes(imports))
    ensures OneKeyEach(IndexTree(nodes).idx)
  {
    var names := SystemNames(systems);
    SameNames(nodes, systems);
    NewNodesDecode(imports);
    KeysFollow(imports);
    IndexesAgree(names, |names|);
    NamedOnly(names, |names|);
    AllByName(names, |names|);
    IndexIsByName(names, |names|);
  }

  /** The keys meet the indexes as the names meet the systems. */
  lemma KeysMeet(nodes: seq<Node>, systems: seq<System>, imports: seq<Import>, i: nat)
    requires Decodes(nodes, systems) && i < |imports|
    ensures EntryKeys(imports)[i] in IndexOfSystems(systems) <==> StructMeets(systems, imports[i])
    ensures ImportKeys(imports)[i] in IndexTree(nodes).idx <==> NodeMeets(systems, imports[i])
    ensures EntryKeys(imports)[i] == ImportKeys(imports)[i] <==> Alike(Collapse(imports[i].name), imports[i].name)
  {
    var names := SystemNames(systems);
    EntryAt(imports, i);
    SameNames(nodes, systems);
    PresentIsIndexed(systems, Collapse(imports[i].name));
    PresentIsIndexed(systems, imports[i].name);
    LowerEmpty(imports[i].name);
    IndexesAgree(names, |names|);
    NamedOnly(names, |names|);
  }

  lemma TargetByName(nodes: seq<Node>, systems: seq<System>, imports: seq<Import>, i: nat)
    requires Decodes(nodes, systems) && i < |imports|
    ensures TargetMatches(IndexOfSystems(systems), IndexTree(nodes).idx, EntryKeys(imports)[i], ImportKeys(imports)[i])
            <==> (StructMeets(systems, imports[i]) || NodeMeets(systems, imports[i]) ==>
                    imports[i].name != "" && Alike(Collapse(imports[i].name), imports[i].name))
  {
    PathsOf(nodes, systems, imports);
    KeysMeet(nodes, systems, imports, i);
    if Alike(Collapse(imports[i].name), imports[i].name) && imports[i].name != "" {
      assert StructMeets(systems, imports[i]) <==> NodeMeets(systems, imports[i]);
    }
  }

  lemma TargetsByName(nodes: seq<Node>, systems: seq<System>, imports: seq<Import>)
    requires Decodes(nodes, systems)
    ensures SameTargets(IndexOfSystems(systems), IndexTree(nodes).idx, EntryKeys(imports), ImportKeys(imports))
            <==> MeetsTheSame(systems, imports)
  {
    forall i | 0 <= i < |imports|
      ensures TargetMatches(IndexOfSystems(systems), IndexTree(nodes).idx, EntryKeys(imports)[i],
                            ImportKeys(imports)[i])
              <==> (StructMeets(systems, imports[i]) || NodeMeets(systems, imports[i]) ==>
                      imports[i].name != "" && Alike(Collapse(imports[i].name), imports[i].name))
    {
      TargetByName(nodes, systems, imports, i);
    }
  }

  lemma NewNamesByName(nodes: seq<Node>, systems: seq<System>, imports: seq<Import>)
    requires Decodes(nodes, systems)
    ensures NewNamesDiffer(IndexTree(nodes).idx, ImportKeys(imports)) <==> !TwoAlike(systems, imports)
  {
    forall i | 0 <= i < |imports|
      ensures ImportKeys(imports)[i] in IndexTree(nodes).idx <==> NodeMeets(systems, imports[i])
    {
      KeysMeet(nodes, systems, imports, i);
    }
  }

  lemma StructClashByName(nodes: seq<Node>, systems: seq<System>, imports: seq<Import>)
    requires Decodes(nodes, systems)
    ensures SomeIn(EntryKeys(imports), IndexOfSystems(systems)) <==> StructClash(systems, imports)
  {
    forall i | 0 <= i < |imports|
      ensures EntryKeys(imports)[i] in IndexOfSystems(systems) <==> StructMeets(systems, imports[i])
    {
      KeysMeet(nodes, systems, imports, i);
    }
  }

  lemma NodeClashByName(nodes: seq<Node>, systems: seq<System>, imports: seq<Import>)
    requires Decodes(nodes, systems)
    ensures SomeInOrRepeated(ImportKeys(imports), IndexTree(nodes).idx) <==> NodeClash(systems, imports)
  {
    var nk := ImportKeys(imports);
    forall i | 0 <= i < |imports|
      ensures nk[i] in IndexTree(nodes).idx <==> NodeMeets(systems, imports[i])
    {
      KeysMeet(nodes, systems, imports, i);
    }
    forall i, j | 0 <= i < j < |imports| && Alike(imports[i].name, imports[j].name)
      ensures KeyBelow(nk, j, nk[j])
    {
      assert nk[i] == nk[j];
    }
  }

  /** The two merges agree exactly when they must: for any systems, any imports, any names. */
  lemma MergesAgreeExactly(nodes: seq<Node>, systems: seq<System>, imports: seq<Import>, force: bool)
    requires Decodes(nodes, systems)
    ensures Agree(Structs(systems, imports, force), Nodes(nodes, imports, force))
            <==> MustAgree(systems, imports, force)
  {
    if force {
      ForcedByName(nodes, systems, imports);
    } else {
      UnforcedByName(nodes, systems, imports);
    }
  }

  lemma ForcedByName(nodes: seq<Node>, systems: seq<System>, imports: seq<Import>)
    requires Decodes(nodes, systems)
    ensures Agree(Structs(systems, imports, true), Nodes(nodes, imports, true))
            <==> MeetsTheSame(systems, imports) && !TwoAlike(systems, imports)
  {
    PathsOf(nodes, systems, imports);
    ForcedAgreement(systems, IndexOfSystems(systems), IndexTree(nodes), EntryKeys(imports), ImportKeys(imports),
                    Entries(imports), NewNodes(imports));
    TargetsByName(nodes, systems, imports);
    NewNamesByName(nodes, systems, imports);
  }

  lemma UnforcedByName(nodes: seq<Node>, systems: seq<System>, imports: seq<Import>)
    requires Decodes(nodes, systems)
    ensures Agree(Structs(systems, imports, false), Nodes(nodes, imports, false))
            <==> (StructClash(systems, imports) <==> NodeClash(systems, imports))
  {
    PathsOf(nodes, systems, imports);
    UnforcedAgreement(systems, IndexOfSystems(systems), IndexTree(nodes), EntryKeys(imports), ImportKeys(imports),
                      Entries(imports), NewNodes(imports));
    StructClashByName(nodes, systems, imports);
    NodeClashByName(nodes, systems, imports);
  }

  /** In particular on non-empty names that differ, up to case, and do not collapse. */
  lemma DistinctStableNamesAgree(nodes: seq<Node>, systems: seq<System>, imports: seq<Import>, force: bool)
    requires Decodes(nodes, systems)
    requires forall i | 0 <= i < |imports| :: imports[i].name != "" && Collapse(imports[i].name) == imports[i].name
    requires forall i, j | 0 <= i < j < |imports| :: !Alike(imports[i].name, imports[j].name)
    ensures Agree(Structs(systems, imports, force), Nodes(nodes, imports, force))
  {
    assert forall i | 0 <= i < |imports| :: StructMeets(systems, imports[i]) <==> NodeMeets(systems, imports[i]);
    MergesAgreeExactly(nodes, systems, imports, force);
  }

  /** With force, a name the collapse changes gives a configuration that has the collapsed
      system a second one of that name: the structs that are validated have one system,
      the nodes that are written two. */
  lemma CollapsedNameDuplicated(had: System, node: Node, sys: Import)
    requires Decode(node) == Some(had) && Alike(had.name, Collapse(sys.name)) && had.name != ""
    requires !Alike(Collapse(sys.name), sys.name)
    ensures Structs([had], [sys], true) == Some([EntryOf(sys)])
    ensures Nodes([node], [sys], true) == Some([node, SystemNode(EntryOf(sys))])
    ensures !Agree(Structs([had], [sys], true), Nodes([node], [sys], true))
  {
    var systems, nodes := [had], [node];
    assert systems[0] == had;
    KeysMeet(nodes, systems, [sys], 0);
    IndexesInRange(SystemNames(systems));
    OneForced(had, node, sys);
  }

  lemma OneForced(had: System, node: Node, sys: Import)
    requires EntryKeys([sys])[0] in IndexOfSystems([had]) && Within(IndexOfSystems([had]), 1)
    requires ImportKeys([sys])[0] !in IndexTree([node]).idx
    ensures Structs([had], [sys], true) == Some([EntryOf(sys)])
    ensures Nodes([node], [sys], true) == Some([node, SystemNode(EntryOf(sys))])
  {
    EntryAt([sys], 0);
    assert Entries([sys]) == [EntryOf(sys)];
    OneStruct([had], IndexOfSystems([had]), EntryKeys([sys]), Entries([sys]));
    OneNode(IndexTree([node]), ImportKeys([sys]), NewNodes([sys]));
    assert [node] + [SystemNode(EntryOf(sys))] == [node, SystemNode(EntryOf(sys))];
  }

  lemma OneStruct(systems: seq<System>, existing: map<string, nat>, sk: seq<string>, entries: seq<System>)
    requires |systems| == |sk| == |entries| == 1 && Within(existing, |systems|) && sk[0] in existing
    ensures StructMerge(systems, existing, sk, entries, true, |sk|) == Some(entries)
  {
    var n := |sk|;
    assert StructMerge(systems, existing, sk, entries, true, n - 1) == Some(systems);
    assert systems[existing[sk[0]] := entries[0]] == entries;
  }

  lemma OneNode(tree: Index, nk: seq<string>, items: seq<Node>)
    requires |nk| == |items| == 1 && nk[0] !in tree.idx
    ensures NodesOf(NodeMerge(tree, nk, items, true, |nk|)) == Some(tree.nodes + [items[0]])
  {
    var n := |nk|;
    assert NodeMerge(tree, nk, items, true, n - 1) == Some(tree);
  }

  // ------------------------------------------------------- the whole document

  /** The value of a key, set in place or appended: what findOrCreateMapping and
      findOrCreateSequence followed by an update of the found node come to. */
  function SetField(pairs: seq<Pair>, key: string, v: Node): seq<Pair> {
    if pairs == [] then [Pair(key, v)]
    else if pairs[0].key == key then [Pair(key, v)] + pairs[1..]
    else [pairs[0]] + SetField(pairs[1..], key, v)
  }

  lemma {:induction false} SetFieldSets(pairs: seq<Pair>, key: string, v: Node)
    ensures FieldOf(SetField(pairs, key, v), key) == Some(v)
    ensures forall k | k != key :: FieldOf(SetField(pairs, key, v), k) == FieldOf(pairs, k)
    ensures |SetField(pairs, key, v)| >= |pairs|
    ensures forall i | 0 <= i < |pairs| && pairs[i].key != key :: SetField(pairs, key, v)[i] == pairs[i]
  {
    if pairs != [] {
      var rest := SetField(pairs[1..], key, v);
      SetFieldSets(pairs[1..], key, v);
      assert ([pairs[0]] + rest)[1..] == rest;
      assert ([Pair(key, v)] + pairs[1..])[1..] == pairs[1..];
    } else {
      assert [Pair(key, v)][1..] == [];
    }
  }

  function MappingAt(pairs: seq<Pair>, key: string): seq<Pair> {
    match FieldOf(pairs, key)
    case Some(Mapping(content)) => content
    case _ => []
  }

  function SequenceAt(pairs: seq<Pair>, key: string): seq<Node> {
    match FieldOf(pairs, key)
    case Some(Sequence(items)) => items
    case _ => []
  }

  /** The nodes of trunking.systems. */
  function SystemsOf(root: seq<Pair>): seq<Node> {
    SequenceAt(MappingAt(root, "trunking"), "systems")
  }

  /** The struct decoder's demands on the way to the systems: no key twice, and the
      sections, where present, of the right kind. */
  predicate Shaped(root: seq<Pair>) {
    && DistinctKeys(root) && DistinctKeys(MappingAt(root, "trunking"))
    && (FieldOf(root, "trunking").Some? ==> FieldOf(root, "trunking").value.Mapping?)
    && var systems := FieldOf(MappingAt(root, "trunking"), "systems");
       systems.Some? ==> systems.value.Sequence?
  }

  /** yaml.Unmarshal of a document, as far as the systems go. */
  function DecodeRoot(root: seq<Pair>): Option<seq<System>> {
    if Shaped(root) then DecodeAll(SystemsOf(root)) else None
  }

  function WithSystems(root: seq<Pair>, nodes: seq<Node>): seq<Pair> {
    SetField(root, "trunking", Mapping(SetField(MappingAt(root, "trunking"), "systems", Sequence(nodes))))
  }

  lemma {:induction false} SetFieldKeys(pairs: seq<Pair>, key: string, v: Node)
    requires DistinctKeys(pairs)
    ensures DistinctKeys(SetField(pairs, key, v))
    ensures forall i | 0 <= i < |SetField(pairs, key, v)| ::
              SetField(pairs, key, v)[i].key == key
                  || exists j | 0 <= j < |pairs| :: pairs[j].key == SetField(pairs, key, v)[i].key
  {
    if pairs != [] && pairs[0].key != key {
      SetFieldKeys(pairs[1..], key, v);
      var rest := SetField(pairs[1..], key, v);
      forall i | 0 <= i < |rest|
        ensures rest[i].key != pairs[0].key
        ensures rest[i].key == key || exists j | 0 <= j < |pairs| :: pairs[j].key == rest[i].key
      {
        if rest[i].key != key {
          var j :| 0 <= j < |pairs[1..]| && pairs[1..][j].key == rest[i].key;
          assert pairs[j + 1].key == rest[i].key;
        }
      }
    }
  }

  lemma WithSystemsShaped(root: seq<Pair>, nodes: seq<Node>)
    requires Shaped(root)
    ensures Shaped(WithSystems(root, nodes))
  {
    var inner := SetField(MappingAt(root, "trunking"), "systems", Sequence(nodes));
    SetFieldSets(MappingAt(root, "trunking"), "systems", Sequence(nodes));
    SetFieldKeys(MappingAt(root, "trunking"), "systems", Sequence(nodes));
    SetFieldSets(root, "trunking", Mapping(inner));
    SetFieldKeys(root, "trunking", Mapping(inner));
  }

  /** Writing the systems back changes no other part of the document. */
  lemma OnlySystemsChange(root: seq<Pair>, nodes: seq<Node>)
    ensures SystemsOf(WithSystems(root, nodes)) == nodes
    ensures forall k | k != "trunking" :: FieldOf(WithSystems(root, nodes), k) == FieldOf(root, k)
    ensures forall k | k != "systems" ::
              FieldOf(MappingAt(WithSystems(root, nodes), "trunking"), k) == FieldOf(MappingAt(root, "trunking"), k)
    ensures forall i | 0 <= i < |root| && root[i].key != "trunking" ::
              i < |WithSystems(root, nodes)| && WithSystems(root, nodes)[i] == root[i]
  {
    var inner := SetField(MappingAt(root, "trunking"), "systems", Sequence(nodes));
    SetFieldSets(MappingAt(root, "trunking"), "systems", Sequence(nodes));
    SetFieldSets(root, "trunking", Mapping(inner));
  }

  /** yaml.Unmarshal of the list; None for an entry of the wrong shape. */
  function DecodeAll(nodes: seq<Node>): (r: Option<seq<System>>)
    ensures r.Some? ==> Decodes(nodes, r.value)
    ensures r.None? ==> exists i :: 0 <= i < |nodes| && Decode(nodes[i]).None?
  {
    if nodes == [] then Some([])
    else
      var before := DecodeAll(nodes[..|nodes| - 1]);
      var last := Decode(nodes[|nodes| - 1]);
      if last.None? then assert Decode(nodes[|nodes| - 1]).None?; None
      else if before.None? then None
      else Some(before.value + [last.value])
  }

  /** Everything mergeIntoConfig does that a reader of the disk or the log could see. */
  datatype Event =
    | StructsValidated
    | NodesValidated
    | TableWritten(path: string, data: string)
    | ConfigWritten(root: seq<Pair>)

  type Validator = seq<System> -> bool

  ghost predicate StructsPass(root: seq<Pair>, imports: seq<Import>, valid: Validator, force: bool) {
    var systems := DecodeRoot(root);
    systems.Some? &&
    var merged := Structs(systems.value, imports, force);
    merged.Some? && valid(merged.value)
  }

  ghost predicate NodesPass(root: seq<Pair>, imports: seq<Import>, valid: Validator, force: bool) {
    var nodes := Nodes(SystemsOf(root), imports, force);
    nodes.Some? &&
    var systems := DecodeRoot(WithSystems(root, nodes.value));
    systems.Some? && valid(systems.value)
  }

  function TableWrites(imports: seq<Import>, tables: seq<string>, n: nat): (w: seq<Event>)
    requires n <= |imports| == |tables|
    ensures |w| == n && forall i | 0 <= i < n :: w[i] == TableWritten(imports[i].file, tables[i])
  {
    if n == 0 then [] else TableWrites(imports, tables, n - 1) + [TableWritten(imports[n - 1].file, tables[n - 1])]
  }

  /** All writes of a merge, in order. */
  function Writes(root: seq<Pair>, imports: seq<Import>, tables: seq<string>, force: bool): seq<Event>
    requires |imports| == |tables| && Nodes(SystemsOf(root), imports, force).Some?
  {
    TableWrites(imports, tables, |imports|)
    + [ConfigWritten(WithSystems(root, Nodes(SystemsOf(root), imports, force).value))]
  }

  /** mergeIntoConfig: `tables` are the talkgroup tables, `valid` is Config.Validate as
      far as it depends on the systems, and the disk takes `disk` writes before it fails. */
  method MergeIntoConfig(root: seq<Pair>, imports: seq<Import>, tables: seq<string>, valid: Validator,
                         force: bool, dryRun: bool, disk: nat)
    returns (ok: bool, trace: seq<Event>)
    requires |imports| == |tables|
    ensures !StructsPass(root, imports, valid, force) ==> !ok && trace == []
    ensures StructsPass(root, imports, valid, force) && !NodesPass(root, imports, valid, force) ==>
              !ok && trace == [StructsValidated]
    ensures StructsPass(root, imports, valid, force) && NodesPass(root, imports, valid, force) ==>
              var writes := Writes(root, imports, tables, force);
              if dryRun then ok && trace == [StructsValidated, NodesValidated]
              else if disk >= |writes| then ok && trace == [StructsValidated, NodesValidated] + writes
              else !ok && trace == [StructsValidated, NodesValidated] + writes[..disk]
  {
    trace := [];
    var systems := DecodeRoot(root);
    if systems == None {
      return false, trace;
    }
    var merged, newSystems := MergeStructs(systems.value, imports, force);
    if merged == None || !valid(merged.value) {
      return false, trace;
    }
    trace := [StructsValidated];
    var nodes := MergeNodes(SystemsOf(root), imports, newSystems, force);
    if nodes == None {
      return false, trace;
    }
    var doc := WithSystems(root, nodes.value);
    var again := DecodeRoot(doc);
    if again == None || !valid(again.value) {
      return false, trace;
    }
    trace := [StructsValidated, NodesValidated];
    if dryRun {
      return true, trace;
    }
    var written;
    ok, written := WriteFiles(imports, tables, doc, disk);
    trace := trace + written;
  }

  /** The writing at the end: the tables first, the configuration last. */
  method WriteFiles(imports: seq<Import>, tables: seq<string>, doc: seq<Pair>, disk: nat)
    returns (ok: bool, log: seq<Event>)
    requires |imports| == |tables|
    ensures var all := TableWrites(imports, tables, |imports|) + [ConfigWritten(doc)];
            if disk >= |all| then ok && log == all else !ok && log == all[..disk]
  {
    log := [];
    for i := 0 to |imports|
      invariant i <= disk
      invariant log == TableWrites(imports, tables, i)
    {
      if i == disk {
        TableWritesPrefix(imports, tables, i, |imports|);
        return false, log;
      }
      log := log + [TableWritten(imports[i].file, tables[i])];
    }
    if |imports| == disk {
      return false, log;
    }
    return true, log + [ConfigWritten(doc)];
  }

  lemma {:induction false} TableWritesPrefix(imports: seq<Import>, tables: seq<string>, m: nat, n: nat)
    requires m <= n <= |imports| == |tables|
    ensures TableWrites(imports, tables, n)[..m] == TableWrites(imports, tables, m)
  {
    if m < n {
      TableWritesPrefix(imports, tables, m, n - 1);
    }
  }

  /** Once the structs have passed, what is written decodes to exactly the structs that
      were validated, and the second validation cannot fail, if and only if the merges
      must agree. */
  lemma WrittenIsValidated(root: seq<Pair>, imports: seq<Import>, valid: Validator, force: bool)
    requires StructsPass(root, imports, valid, force)
    ensures MustAgree(DecodeRoot(root).value, imports, force) <==>
              var nodes := Nodes(SystemsOf(root), imports, force);
              nodes.Some? &&
              DecodeRoot(WithSystems(root, nodes.value)) == Structs(DecodeRoot(root).value, imports, force)
    ensures MustAgree(DecodeRoot(root).value, imports, force) ==> NodesPass(root, imports, valid, force)
  {
    var systems := DecodeRoot(root).value;
    MergesAgreeExactly(SystemsOf(root), systems, imports, force);
    var nodes := Nodes(SystemsOf(root), imports, force);
    if nodes.Some? {
      OnlySystemsChange(root, nodes.value);
      WithSystemsShaped(root, nodes.value);
      if MustAgree(systems, imports, force) {
        DecodesOnce(nodes.value, Structs(systems, imports, force).value);
      }
    }
  }

  /** So a forced import of a name the collapse changes, into a document whose one system
      has the collapsed name, validates one system and, both validations having passed,
      writes two of the same name. */
  lemma SecondSystemWritten(root: seq<Pair>, had: System, node: Node, sys: Import, table: string, valid: Validator)
    requires Shaped(root) && SystemsOf(root) == [node] && Decode(node) == Some(had) && had.name != ""
    requires Alike(had.name, Collapse(sys.name)) && !Alike(Collapse(sys.name), sys.name)
    requires valid([EntryOf(sys)]) && valid([had, EntryOf(sys)])
    ensures StructsPass(root, [sys], valid, true) && NodesPass(root, [sys], valid, true)
    ensures var doc := WithSystems(root, Nodes(SystemsOf(root), [sys], true).value);
            && DecodeRoot(doc) == Some([had, EntryOf(sys)]) && Alike(had.name, EntryOf(sys).name)
            && Writes(root, [sys], [table], true) == [TableWritten(sys.file, table), ConfigWritten(doc)]
    ensures Structs(DecodeRoot(root).value, [sys], true) == Some([EntryOf(sys)])
  {
    CollapsedNameDuplicated(had, node, sys);
    var nodes := [node, SystemNode(EntryOf(sys))];
    DecodesOnce([node], [had]);
    OnlySystemsChange(root, nodes);
    WithSystemsShaped(root, nodes);
    SystemNodeRoundTrip(EntryOf(sys));
    DecodesOnce(nodes, [had, EntryOf(sys)]);
    assert TableWrites([sys], [table], 0) == [];
  }

  lemma DecodesOnce(nodes: seq<Node>, systems: seq<System>)
    requires Decodes(nodes, systems)
    ensures DecodeAll(nodes) == Some(systems)
  {
    var r := DecodeAll(nodes);
    if r.Some? {
      assert r.value == systems;
    }
  }
}
