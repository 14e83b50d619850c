/** The talkgroup table of cmd/gophertrunk: written by buildTalkgroupCSV
    (import_writer.go), read by parseRRNativeCSVStream and tgFromCSVRow
    (import_csv.go). The order in which Go visits the table of column aliases is a
    parameter. */
module TalkgroupFile {
  import opened Wrappers
  import opened Text
  import opened CsvLine

  type U32 = n: int | 0 <= n < 0x1_0000_0000
  type Int64 = n: int | -0x8000_0000_0000_0000 <= n < 0x8000_0000_0000_0000

  /** parsedTalkgroup. */
  datatype Talkgroup = Talkgroup(dec: U32, hex: string, mode: string, encrypted: bool, alphaTag: string,
                                 description: string, tag: string, group: string, scan: bool, priority: Int64,
                                 lockout: bool)

  datatype Column = Decimal | Hex | Mode | AlphaTag | Description | Tag | Group | Priority | Lockout | ScanFlag

  type ColumnMap = map<Column, nat>

  /** trunking.TalkgroupCSVHeader and the columns it should resolve to. */
  const Header: seq<string> := [
    "Decimal", "Hex", "Mode", "Alpha Tag", "Description", "Tag", "Group", "Priority", "Lockout", "Scan"]

  const InOrder: ColumnMap := map[
    Decimal := 0, Hex := 1, Mode := 2, AlphaTag := 3, Description := 4,
    Tag := 5, Group := 6, Priority := 7, Lockout := 8, ScanFlag := 9]

  // ------------------------------------------------------------------ columns

  /** The canonical names of the columns. */
  function KeyName(c: Column): string {
    match c
    case Decimal => "decimal"
    case Hex => "hex"
    case Mode => "mode"
    case AlphaTag => "alpha_tag"
    case Description => "description"
    case Tag => "tag"
    case Group => "group"
    case Priority => "priority"
    case Lockout => "lockout"
    case ScanFlag => "scan"
  }

  /** talkgroupAliases. */
  function Aliases(c: Column): seq<string> {
    match c
    case Decimal => ["dec"]
    case Hex => ["hexadecimal"]
    case Mode => ["type"]
    case AlphaTag => ["alpha tag", "alphatag", "tag_short"]
    case Description => ["desc", "name"]
    case Tag => ["category"]
    case Group => ["group_name", "alpha_group"]
    case Priority => ["prio", "pri"]
    case Lockout => ["locked", "block"]
    case ScanFlag => ["active", "monitor"]
  }

  function Fold(h: string): string {
    Lower(TrimSpace(h))
  }

  /** Where each folded header name was seen last. */
  function Named(header: seq<string>, n: nat): map<string, nat>
    requires n <= |header|
  {
    if n == 0 then map[] else Named(header, n - 1)[Fold(header[n - 1]) := n - 1]
  }

  /** The place of the first alias that is in the header. */
  function FirstKnown(col: map<string, nat>, aliases: seq<string>): Option<nat> {
    if aliases == [] then None
    else if aliases[0] in col then Some(col[aliases[0]])
    else FirstKnown(col, aliases[1..])
  }

  function Resolve(col: map<string, nat>, c: Column): map<string, nat> {
    match FirstKnown(col, Aliases(c))
    case Some(i) => if KeyName(c) in col then col else col[KeyName(c) := i]
    case None => col
  }

  /** The aliases of the first n columns of an order resolved. */
  function ResolveAll(col: map<string, nat>, order: seq<Column>, n: nat): map<string, nat>
    requires n <= |order|
  {
    if n == 0 then col else Resolve(ResolveAll(col, order, n - 1), order[n - 1])
  }

  /** The columns of a header, by canonical name. */
  function ColumnsOf(header: seq<string>, order: seq<Column>): ColumnMap {
    var col := ResolveAll(Named(header, |header|), order, |order|);
    map c: Column | KeyName(c) in col :: col[KeyName(c)]
  }

  /** columnMap. */
  method ColumnMapOf(header: seq<string>, order: seq<Column>) returns (columns: ColumnMap)
    ensures columns == ColumnsOf(header, order)
  {
    var col: map<string, nat> := map[];
    for i := 0 to |header|
      invariant col == Named(header, i)
    {
      col := col[Fold(header[i]) := i];
    }
    ghost var named := col;
    for n := 0 to |order|
      invariant col == ResolveAll(named, order, n)
    {
      col := ResolveColumn(col, order[n]);
    }
    columns := map c: Column | KeyName(c) in col :: col[KeyName(c)];
  }

  /** The body of its loop over the alias table. */
  method ResolveColumn(col: map<string, nat>, c: Column) returns (col': map<string, nat>)
    ensures col' == Resolve(col, c)
  {
    if KeyName(c) in col {
      return col;
    }
    var alts := Aliases(c);
    assert alts[0..] == alts;
    for i := 0 to |alts|
      invariant FirstKnown(col, alts) == FirstKnown(col, alts[i..])
    {
      if alts[i] in col {
        return col[KeyName(c) := col[alts[i]]];
      }
      assert alts[i..][1..] == alts[i + 1..];
    }
    return col;
  }

  // ------------------------------------------------------------------ writing

  function Row(tg: Talkgroup): (row: seq<string>)
    ensures |row| == 10
  {
    [Itoa(tg.dec), tg.hex, tg.mode, tg.alphaTag, tg.description, tg.tag, tg.group,
     if tg.priority > 0 then Itoa(tg.priority) else "",
     if tg.lockout then "Y" else "",
     if tg.scan then "Y" else "N"]
  }

  /** The fields the writer quotes. */
  function QuotedByGo(fields: seq<string>): (quoted: seq<bool>)
    ensures MayQuote(fields, quoted)
  {
    seq(|fields|, i requires 0 <= i < |fields| => GoQuotes(fields[i]))
  }

  function Record(fields: seq<string>): string
    requires fields != []
  {
    Encode(fields, QuotedByGo(fields)) + ['\n']
  }

  function RowsText(tgs: seq<Talkgroup>): string {
    if tgs == [] then [] else RowsText(tgs[..|tgs| - 1]) + Record(Row(tgs[|tgs| - 1]))
  }

  /** buildTalkgroupCSV. */
  method BuildTalkgroupCSV(tgs: seq<Talkgroup>) returns (text: string)
    ensures text == Record(Header) + RowsText(tgs)
  {
    text := AppendRows(Record(Header), tgs);
  }

  /** Its row loop. */
  method AppendRows(head: string, tgs: seq<Talkgroup>) returns (text: string)
    ensures text == head + RowsText(tgs)
  {
    text := head;
    for i := 0 to |tgs|
      invariant text == head + RowsText(tgs[..i])
    {
      var row := BuildRow(tgs[i]);
      RowsTextGrows(tgs, i);
      AppendTwice(head, RowsText(tgs[..i]), Record(row));
      text := text + Record(row);
    }
    assert tgs[..|tgs|] == tgs;
  }

  lemma AppendTwice(a: string, b: string, c: string)
    ensures a + b + c == a + (b + c)
  {
  }

  lemma RowsTextGrows(tgs: seq<Talkgroup>, i: nat)
    requires i < |tgs|
    ensures RowsText(tgs[..i + 1]) == RowsText(tgs[..i]) + Record(Row(tgs[i]))
  {
    assert tgs[..i + 1][..i] == tgs[..i];
  }

  method BuildRow(tg: Talkgroup) returns (row: seq<string>)
    ensures row == Row(tg)
  {
    var priority := "";
    if tg.priority > 0 {
      priority := Itoa(tg.priority);
    }
    var lockout := "";
    if tg.lockout {
      lockout := "Y";
    }
    var scan := "Y";
    if !tg.scan {
      scan := "N";
    }
    row := [Itoa(tg.dec), tg.hex, tg.mode, tg.alphaTag, tg.description, tg.tag, tg.group, priority, lockout, scan];
  }

  // ------------------------------------------------------------------ reading

  /** cell. */
  function CellOf(row: seq<string>, col: ColumnMap, key: Column): string {
    if key in col && col[key] < |row| then TrimSpace(row[col[key]]) else ""
  }

  /** fmt.Sprintf("%x", n). */
  function HexText(n: nat): (s: string)
    ensures s != []
  {
    var digit := if n % 16 < 10 then ('0' as int + n % 16) as char else ('a' as int + n % 16 - 10) as char;
    if n < 16 then [digit] else HexText(n / 16) + [digit]
  }

  /** strconv.Atoi. */
  function Atoi(s: string): Option<Int64> {
    var signed := s != [] && (s[0] == '+' || s[0] == '-');
    match ParseUint(if signed then s[1..] else s)
    case None => None
    case Some(n) =>
      var v := if signed && s[0] == '-' then 0 - n else n;
      if -0x8000_0000_0000_0000 <= v < 0x8000_0000_0000_0000 then Some(v) else None
  }

  function ParseBool(s: string, def: bool): bool {
    var t := Lower(TrimSpace(s));
    if t == "" then def
    else if t == "y" || t == "yes" || t == "true" || t == "1" || t == "on" then true
    else if t == "n" || t == "no" || t == "false" || t == "0" || t == "off" then false
    else def
  }

  function ModeOf(cell: string): Option<string> {
    var mode := Upper(cell);
    if mode == "" || mode == "DE" || mode == "TE" || mode == "T" then Some("D")
    else if mode == "D" || mode == "A" || mode == "M" then Some(mode)
    else None
  }

  function HexOf(cell: string, dec: nat): string {
    var given := Lower(TrimSpace(cell));
    if given == "" then HexText(dec) else given
  }

  function PriorityOf(cell: string): Option<Int64> {
    if cell == "" then Some(0) else Atoi(cell)
  }

  // ---------------------------------------------------- what a cell means

  function HexDigit(c: char): (d: Option<nat>)
    ensures d.Some? ==> d.value < 16
  {
    if '0' <= c <= '9' then Some(c as int - '0' as int)
    else if 'a' <= c <= 'f' then Some(c as int - 'a' as int + 10)
    else None
  }

  function HexValue(s: string): Option<nat> {
    if s == [] then Some(0)
    else match HexValue(s[..|s| - 1])
      case None => None
      case Some(v) => match HexDigit(s[|s| - 1])
        case None => None
        case Some(d) => Some(v * 16 + d)
  }

  /** The hexadecimal text of a number denotes it, in lower-case digits. */
  lemma {:induction false} HexTextDenotes(n: nat)
    ensures HexValue(HexText(n)) == Some(n)
    ensures n > 0 ==> HexText(n)[0] != '0'
  {
    var s := HexText(n);
    if n >= 16 {
      HexTextDenotes(n / 16);
      assert s[..|s| - 1] == HexText(n / 16);
    } else {
      assert s[..|s| - 1] == [];
    }
  }

  /** Signed decimal text denotes its number, within 64 bits. */
  lemma AtoiDenotes(n: nat)
    ensures Atoi(Itoa(n)) == Atoi("+" + Itoa(n))
    ensures Atoi("+" + Itoa(n)) == if n < 0x8000_0000_0000_0000 then Some(n) else None
    ensures Atoi("-" + Itoa(n)) == if n <= 0x8000_0000_0000_0000 then Some(0 - n) else None
  {
    ItoaRoundTrip(n);
    assert IsDigit(Itoa(n)[0]);
    assert ("+" + Itoa(n))[1..] == Itoa(n) && ("-" + Itoa(n))[1..] == Itoa(n);
  }

  /** The two lists of spellings of a flag, in any case; all else is the default. */
  lemma FlagSpellings(s: string, def: bool)
    ensures var t := Lower(TrimSpace(s));
            && (t in ["y", "yes", "true", "1", "on"] ==> ParseBool(s, def))
            && (t in ["n", "no", "false", "0", "off"] ==> !ParseBool(s, def))
            && (t !in ["y", "yes", "true", "1", "on", "n", "no", "false", "0", "off"] ==> ParseBool(s, def) == def)
  {
  }

  /** The modes accepted, in any case, and what each stands for. */
  lemma ModeSpellings(cell: string)
    ensures var t := Upper(cell);
            && (ModeOf(cell) == Some("D") <==> t in ["", "D", "DE", "T", "TE"])
            && (ModeOf(cell) == Some("A") <==> t == "A")
            && (ModeOf(cell) == Some("M") <==> t == "M")
            && (ModeOf(cell) == None <==> t !in ["", "D", "DE", "T", "TE", "A", "M"])
  {
  }

  datatype RowResult = Skipped | Invalid | Parsed(tg: Talkgroup)

  /** tgFromCSVRow. */
  function FromRow(row: seq<string>, col: ColumnMap): RowResult {
    var decStr := CellOf(row, col, Decimal);
    if decStr == "" then Skipped
    else
      var dec := ParseUint(decStr);
      if dec.None? || dec.value >= 0x1_0000_0000 then Invalid
      else
        var mode := ModeOf(CellOf(row, col, Mode));
        var pri := PriorityOf(CellOf(row, col, Priority));
        if mode.None? || pri.None? then Invalid
        else Parsed(Talkgroup(dec.value, HexOf(CellOf(row, col, Hex), dec.value), mode.value, false,
                              CellOf(row, col, AlphaTag), CellOf(row, col, Description), CellOf(row, col, Tag),
                              CellOf(row, col, Group), ParseBool(CellOf(row, col, ScanFlag), true), pri.value,
                              ParseBool(CellOf(row, col, Lockout), false)))
  }

  // ------------------------------------------------------- one row, both ways

  /** What a talkgroup must look like for the table to hold it. */
  predicate Normal(tg: Talkgroup) {
    && tg.hex != "" && Trimmed(tg.hex) && Lower(tg.hex) == tg.hex
    && (tg.mode == "D" || tg.mode == "A" || tg.mode == "M")
    && Trimmed(tg.alphaTag) && Trimmed(tg.description) && Trimmed(tg.tag) && Trimmed(tg.group)
    && tg.priority >= 0
  }

  lemma DigitsTrimmed(n: nat)
    ensures TrimSpace(Itoa(n)) == Itoa(n)
  {
    TrimSpaceTrims(Itoa(n));
  }

  lemma AtoiOfItoa(n: nat)
    requires n < 0x8000_0000_0000_0000
    ensures Atoi(Itoa(n)) == Some(n)
  {
    ItoaRoundTrip(n);
    assert IsDigit(Itoa(n)[0]);
  }

  lemma LowerTrimmed(s: string)
    ensures Trimmed(s) <==> Trimmed(Lower(s))
    ensures Lower(Lower(s)) == Lower(s)
    ensures Lower(s) == "" <==> s == ""
  {
    LowerChars(s);
    LowerChars(Lower(s));
  }

  lemma ShortCells()
    ensures TrimSpace("") == "" && TrimSpace("Y") == "Y" && TrimSpace("N") == "N"
    ensures Lower("") == "" && Lower("Y") == "y" && Lower("N") == "n"
  {
    TrimSpaceTrims("");
    TrimSpaceTrims("Y");
    TrimSpaceTrims("N");
  }

  lemma FlagsReadBack(tg: Talkgroup, row: seq<string>)
    requires row == TrimAll(Row(tg))
    ensures ParseBool(CellOf(row, InOrder, Lockout), false) == tg.lockout
    ensures ParseBool(CellOf(row, InOrder, ScanFlag), true) == tg.scan
  {
    ColumnsReadBack(Row(tg), Lockout);
    ColumnsReadBack(Row(tg), ScanFlag);
    ShortCells();
  }

  lemma PriorityReadsBack(tg: Talkgroup, row: seq<string>)
    requires row == TrimAll(Row(tg))
    ensures PriorityOf(CellOf(row, InOrder, Priority)) == Some(if tg.priority > 0 then tg.priority else 0)
  {
    ColumnsReadBack(Row(tg), Priority);
    if tg.priority > 0 {
      DigitsTrimmed(tg.priority);
      AtoiOfItoa(tg.priority);
    } else {
      ShortCells();
    }
  }

  lemma ModeReadsBack(tg: Talkgroup, row: seq<string>)
    requires row == TrimAll(Row(tg))
    ensures ModeOf(CellOf(row, InOrder, Mode)) == Some(tg.mode) <==> tg.mode == "D" || tg.mode == "A" || tg.mode == "M"
  {
    ColumnsReadBack(Row(tg), Mode);
    TrimSpaceTrims(tg.mode);
    if tg.mode == "D" || tg.mode == "A" || tg.mode == "M" {
      assert Upper(tg.mode) == tg.mode;
    }
  }

  lemma HexReadsBack(tg: Talkgroup, row: seq<string>)
    requires row == TrimAll(Row(tg))
    ensures HexOf(CellOf(row, InOrder, Hex), tg.dec) == tg.hex
            <==> tg.hex != "" && Trimmed(tg.hex) && Lower(tg.hex) == tg.hex
  {
    HexCell(tg, row);
    HexNormalised(tg.hex, tg.dec);
  }

  lemma HexCell(tg: Talkgroup, row: seq<string>)
    requires row == TrimAll(Row(tg))
    ensures CellOf(row, InOrder, Hex) == TrimSpace(tg.hex)
  {
    ColumnsReadBack(Row(tg), Hex);
  }

  lemma HexNormalised(hex: string, dec: nat)
    ensures HexOf(TrimSpace(hex), dec) == hex <==> hex != "" && Trimmed(hex) && Lower(hex) == hex
  {
    TrimSpaceTrims(hex);
    TrimSpaceTrims(TrimSpace(hex));
    LowerTrimmed(TrimSpace(hex));
    HexTextTrimmed(dec);
  }

  lemma {:induction false} HexTextTrimmed(n: nat)
    ensures Trimmed(HexText(n))
  {
    if n >= 16 {
      HexTextTrimmed(n / 16);
    }
  }

  lemma TextsReadBack(tg: Talkgroup, row: seq<string>)
    requires row == TrimAll(Row(tg))
    ensures CellOf(row, InOrder, AlphaTag) == tg.alphaTag <==> Trimmed(tg.alphaTag)
    ensures CellOf(row, InOrder, Description) == tg.description <==> Trimmed(tg.description)
    ensures CellOf(row, InOrder, Tag) == tg.tag <==> Trimmed(tg.tag)
    ensures CellOf(row, InOrder, Group) == tg.group <==> Trimmed(tg.group)
  {
    ColumnsReadBack(Row(tg), AlphaTag);
    ColumnsReadBack(Row(tg), Description);
    ColumnsReadBack(Row(tg), Tag);
    ColumnsReadBack(Row(tg), Group);
    TrimSpaceTrims(tg.alphaTag);
    TrimSpaceTrims(tg.description);
    TrimSpaceTrims(tg.tag);
    TrimSpaceTrims(tg.group);
  }

  /** A written talkgroup row reads back as it was, but never as encrypted, if and
      only if the talkgroup is normal. */
  lemma RowSurvivesExactly(tg: Talkgroup, quoted: seq<bool>)
    requires MayQuote(Row(tg), quoted)
    ensures Parse(Encode(Row(tg), quoted)).Some?
    ensures FromRow(Parse(Encode(Row(tg), quoted)).value, InOrder) == Parsed(tg.(encrypted := false)) <==> Normal(tg)
  {
    WriteThenRead(Row(tg), quoted);
    TrimmedRowReadsBack(tg, TrimAll(Row(tg)));
  }

  /** Every column of a row read back holds the field written there, trimmed. */
  lemma ColumnsReadBack(fields: seq<string>, key: Column)
    requires |fields| == 10
    ensures key in InOrder && InOrder[key] < 10
    ensures CellOf(TrimAll(fields), InOrder, key) == TrimSpace(fields[InOrder[key]])
  {
    TrimSpaceTrims(TrimSpace(fields[InOrder[key]]));
    TrimSpaceTrims(fields[InOrder[key]]);
  }

  lemma TrimmedRowReadsBack(tg: Talkgroup, row: seq<string>)
    requires row == TrimAll(Row(tg))
    ensures FromRow(row, InOrder) == Parsed(tg.(encrypted := false)) <==> Normal(tg)
  {
    DecReadsBack(tg, row);
    FlagsReadBack(tg, row);
    PriorityReadsBack(tg, row);
    ModeReadsBack(tg, row);
    HexReadsBack(tg, row);
    TextsReadBack(tg, row);
  }

  lemma DecReadsBack(tg: Talkgroup, row: seq<string>)
    requires row == TrimAll(Row(tg))
    ensures CellOf(row, InOrder, Decimal) == Itoa(tg.dec)
    ensures ParseUint(Itoa(tg.dec)) == Some(tg.dec)
  {
    ColumnsReadBack(Row(tg), Decimal);
    DigitsTrimmed(tg.dec);
    ItoaRoundTrip(tg.dec);
  }

  // ------------------------------------------------------------ the whole file

  /** bufio.ScanLines: line ends are "\n" or "\r\n". */
  function SplitLines(text: string, cur: string): seq<string> {
    if text == [] then (if cur == [] then [] else [DropCR(cur)])
    else if text[0] == '\n' then [DropCR(cur)] + SplitLines(text[1..], [])
    else SplitLines(text[1..], cur + [text[0]])
  }

  function DropCR(line: string): string {
    if line != [] && line[|line| - 1] == '\r' then line[..|line| - 1] else line
  }

  /** Blank lines and comments. */
  predicate Ignored(line: string) {
    var trimmed := TrimSpace(line);
    trimmed == "" || trimmed[0] == '#'
  }

  /** The talkgroups of the lines, once the header line gave `col`; None for an error. */
  function ReadRows(lines: seq<string>, order: seq<Column>, col: Option<ColumnMap>): Option<seq<Talkgroup>> {
    if lines == [] then Some([])
    else if Ignored(lines[0]) then ReadRows(lines[1..], order, col)
    else match Parse(lines[0])
      case None => None
      case Some(fields) =>
        if col.None? then
          var columns := ColumnsOf(fields, order);
          if Decimal in columns then ReadRows(lines[1..], order, Some(columns)) else None
        else match FromRow(fields, col.value)
          case Invalid => None
          case Skipped => ReadRows(lines[1..], order, col)
          case Parsed(tg) => After([tg], ReadRows(lines[1..], order, col))
  }

  function After(tgs: seq<Talkgroup>, rest: Option<seq<Talkgroup>>): Option<seq<Talkgroup>> {
    match rest
    case None => None
    case Some(more) => Some(tgs + more)
  }

  function ReadNative(text: string, order: seq<Column>, name: string): Option<seq<Talkgroup>> {
    var tgs := ReadRows(SplitLines(text, ""), order, None);
    if name == "" || tgs == Some([]) then None else tgs
  }

  lemma AfterAfter(tgs: seq<Talkgroup>, tg: Talkgroup, rest: Option<seq<Talkgroup>>)
    ensures After(tgs, After([tg], rest)) == After(tgs + [tg], rest)
  {
    if rest.Some? {
      assert tgs + ([tg] + rest.value) == tgs + [tg] + rest.value;
    }
  }

  lemma AfterNothing(rest: Option<seq<Talkgroup>>)
    ensures After([], rest) == rest
  {
    if rest.Some? {
      assert [] + rest.value == rest.value;
    }
  }

  /** parseRRNativeCSVStream. */
  method ParseRRNativeCSV(text: string, order: seq<Column>, name: string) returns (r: Option<seq<Talkgroup>>)
    ensures r == ReadNative(text, order, name)
  {
    var lines := SplitLines(text, "");
    var col: Option<ColumnMap> := None;
    var tgs: seq<Talkgroup> := [];
    AfterNothing(ReadRows(lines, order, None));
    assert lines[0..] == lines;
    for i := 0 to |lines|
      invariant ReadRows(lines, order, None) == After(tgs, ReadRows(lines[i..], order, col))
    {
      var raw := lines[i];
      assert lines[i..][1..] == lines[i + 1..];
      if Ignored(raw) {
        continue;
      }
      var fields := SplitCSVLine(raw);
      if fields == None {
        return None;
      }
      if col == None {
        var columns := ColumnMapOf(fields.value, order);
        col := Some(columns);
        if Decimal !in col.value {
          return None;
        }
        continue;
      }
      match FromRow(fields.value, col.value)
      case Invalid =>
        return None;
      case Skipped =>
      case Parsed(tg) =>
        AfterAfter(tgs, tg, ReadRows(lines[i + 1..], order, col));
        tgs := tgs + [tg];
    }
    assert tgs + [] == tgs;
    if name == "" || tgs == [] {
      return None;
    }
    return Some(tgs);
  }

  // -------------------------------------------------- a written file read back

  lemma {:induction false} LineSplits(line: string, rest: string, cur: string)
    requires '\n' !in line
    ensures SplitLines(line + ['\n'] + rest, cur) == [DropCR(cur + line)] + SplitLines(rest, [])
  {
    var text := line + ['\n'] + rest;
    if line == [] {
      assert text[1..] == rest && cur + line == cur;
    } else {
      assert text[1..] == line[1..] + ['\n'] + rest;
      LineSplits(line[1..], rest, cur + [line[0]]);
      assert cur + [line[0]] + line[1..] == cur + line;
    }
  }

  lemma StartKept(s: string)
    requires s != [] && !IsSpace(s[0])
    ensures TrimSpace(s) != [] && TrimSpace(s)[0] == s[0]
  {
    TrimRightKeepsStart(s);
  }

  lemma {:induction false} TrimRightKeepsStart(s: string)
    requires s != [] && !IsSpace(s[0])
    ensures TrimRight(s) != [] && TrimRight(s)[0] == s[0]
  {
    if IsSpace(s[|s| - 1]) {
      TrimRightKeepsStart(s[..|s| - 1]);
    }
  }

  predicate OneLine(fields: seq<string>) {
    forall i | 0 <= i < |fields| :: '\n' !in fields[i]
  }

  /** A written record splits off as one line. */
  lemma RecordSplits(fields: seq<string>, rest: string)
    requires fields != [] && OneLine(fields)
    ensures SplitLines(Record(fields) + rest, "") == [Encode(fields, QuotedByGo(fields))] + SplitLines(rest, "")
  {
    var line := Encode(fields, QuotedByGo(fields));
    forall f | f in fields
      ensures '\n' !in f
    {
    }
    EncodeIsOneLine(fields, QuotedByGo(fields));
    EncodeKeepsItsEnd(fields, QuotedByGo(fields));
    LineAtFront(line, rest);
  }

  lemma LineAtFront(line: string, rest: string)
    requires '\n' !in line && TrimCR(line) == line
    ensures SplitLines(line + ['\n'] + rest, "") == [line] + SplitLines(rest, "")
  {
    LineSplits(line, rest, "");
    assert "" + line == line;
  }

  lemma RecordCounts(fields: seq<string>)
    requires fields != [] && fields[0] != "" && !IsSpace(fields[0][0]) && fields[0][0] != '#'
    ensures !Ignored(Encode(fields, QuotedByGo(fields)))
  {
    var line := Encode(fields, QuotedByGo(fields));
    EncodeStarts(fields, QuotedByGo(fields));
    assert line[0] != '#' && !IsSpace(line[0]);
    StartKept(line);
    assert TrimSpace(line)[0] == line[0];
  }

  /** The talkgroups as the table holds them: none is marked encrypted. */
  function Cleared(tgs: seq<Talkgroup>): (c: seq<Talkgroup>)
    ensures |c| == |tgs| && forall i | 0 <= i < |tgs| :: c[i] == tgs[i].(encrypted := false)
  {
    if tgs == [] then [] else [tgs[0].(encrypted := false)] + Cleared(tgs[1..])
  }

  predicate Storable(tg: Talkgroup) {
    Normal(tg) && OneLine(Row(tg))
  }

  /** The rows of a text whose header line has been read. */
  function RowsRead(text: string, order: seq<Column>): Option<seq<Talkgroup>> {
    ReadRows(SplitLines(text, ""), order, Some(InOrder))
  }

  lemma {:induction false} RowsTextFront(tgs: seq<Talkgroup>)
    requires tgs != []
    ensures RowsText(tgs) == Record(Row(tgs[0])) + RowsText(tgs[1..])
  {
    var n := |tgs|;
    if n == 1 {
      assert tgs[..0] == [] && tgs[1..] == [];
      assert RowsText(tgs) == [] + Record(Row(tgs[0]));
    } else {
      RowsTextFront(tgs[..n - 1]);
      assert tgs[..n - 1][1..] == tgs[1..][..n - 2];
      AppendTwice(Record(Row(tgs[0])), RowsText(tgs[1..][..n - 2]), Record(Row(tgs[n - 1])));
    }
  }

  lemma {:induction false} RowsReadBack(tgs: seq<Talkgroup>, order: seq<Column>)
    requires forall tg | tg in tgs :: Storable(tg)
    ensures RowsRead(RowsText(tgs), order) == Some(Cleared(tgs))
  {
    if tgs != [] {
      RowsTextFront(tgs);
      assert tgs[0] in tgs;
      RowsReadBack(tgs[1..], order);
      RowReadBack(tgs[0], RowsText(tgs[1..]), order);
    }
  }

  lemma RowReadBack(tg: Talkgroup, rest: string, order: seq<Column>)
    requires Storable(tg)
    ensures RowsRead(Record(Row(tg)) + rest, order) == After([tg.(encrypted := false)], RowsRead(rest, order))
  {
    var row := Row(tg);
    assert IsDigit(row[0][0]);
    RecordSplits(row, rest);
    RecordCounts(row);
    RowSurvivesExactly(tg, QuotedByGo(row));
    assert SplitLines(Record(row) + rest, "")[1..] == SplitLines(rest, "");
  }

  /** What the header line needs: it is read as it was written. */
  predicate PlainHeader(head: seq<string>) {
    && head != [] && OneLine(head) && (forall f | f in head :: Trimmed(f))
    && head[0] != "" && head[0][0] != '#'
  }

  lemma HeaderIsPlain()
    ensures PlainHeader(Header)
  {
    HeaderIsTrimmed();
    HeaderIsOneLine();
  }

  lemma HeaderIsTrimmed()
    ensures Header[0] != "" && Header[0][0] != '#' && forall f | f in Header :: Trimmed(f)
  {
  }

  lemma HeaderIsOneLine()
    ensures OneLine(Header)
  {
  }

  lemma HeaderReadBack(head: seq<string>, rest: string, order: seq<Column>)
    requires PlainHeader(head) && Decimal in ColumnsOf(head, order)
    ensures ReadRows(SplitLines(Record(head) + rest, ""), order, None)
            == ReadRows(SplitLines(rest, ""), order, Some(ColumnsOf(head, order)))
  {
    assert head[0] in head;
    RecordSplits(head, rest);
    RecordCounts(head);
    RoundTrip(head, QuotedByGo(head));
    assert SplitLines(Record(head) + rest, "")[1..] == SplitLines(rest, "");
  }

  /** A file of normal talkgroups without line feeds reads back whole and in order,
      except that nothing is encrypted any more. */
  lemma FileReadsBack(head: seq<string>, tgs: seq<Talkgroup>, order: seq<Column>, name: string)
    requires PlainHeader(head) && ColumnsOf(head, order) == InOrder
    requires tgs != [] && name != "" && forall tg | tg in tgs :: Storable(tg)
    ensures ReadNative(Record(head) + RowsText(tgs), order, name) == Some(Cleared(tgs))
  {
    RowsReadBack(tgs, order);
    HeaderReadBack(head, RowsText(tgs), order);
  }

  // ------------------------------------------- the writer's header resolves

  /** The header's names, folded. */
  const Folded: seq<string> := [
    "decimal", "hex", "mode", "alpha tag", "description", "tag", "group", "priority", "lockout", "scan"]

  lemma FoldedIs(h: string, low: string)
    requires Trimmed(h) && |h| == |low| && forall i | 0 <= i < |h| :: LowerChar(h[i]) == low[i]
    ensures Fold(h) == low
  {
    TrimSpaceTrims(h);
    LowerChars(h);
    assert forall i | 0 <= i < |h| :: Lower(h)[i] == low[i];
  }

  lemma HeaderFolds(i: nat)
    requires i < 10
    ensures Fold(Header[i]) == Folded[i]
  {
    HeaderIsTrimmed();
    assert Header[i] in Header;
    FoldedIs(Header[i], Folded[i]);
  }

  ghost predicate Distinct(low: seq<string>) {
    forall i, j | 0 <= i < j < |low| :: low[i] != low[j]
  }

  ghost predicate FoldsTo(header: seq<string>, low: seq<string>) {
    |header| == |low| && forall i | 0 <= i < |low| :: Fold(header[i]) == low[i]
  }

  /** Distinct header names are found where they stand, and no others are. */
  lemma {:induction false} NamedPlaces(header: seq<string>, low: seq<string>, n: nat)
    requires FoldsTo(header, low) && Distinct(low) && n <= |header|
    ensures forall i | 0 <= i < n :: low[i] in Named(header, n) && Named(header, n)[low[i]] == i
  {
    if n > 0 {
      NamedPlaces(header, low, n - 1);
      assert Fold(header[n - 1]) == low[n - 1];
    }
  }

  lemma {:induction false} NamedOnly(header: seq<string>, low: seq<string>, n: nat)
    requires FoldsTo(header, low) && n <= |header|
    ensures forall k | k in Named(header, n) :: k in low
  {
    if n > 0 {
      NamedOnly(header, low, n - 1);
      assert Fold(header[n - 1]) == low[n - 1];
    }
  }

  lemma FoldedAreDistinct()
    ensures Distinct(Folded)
  {
  }

  lemma NoCanonicalAlphaTag()
    ensures "alpha_tag" !in Folded && Folded[3] == "alpha tag"
  {
  }

  /** The place of a column other than the alpha tag is that of its own name. */
  lemma FoldedNames(c: Column)
    ensures c in InOrder && InOrder[c] < 10
    ensures c != AlphaTag ==> Folded[InOrder[c]] == KeyName(c)
  {
  }

  /** Every column but the alpha tag is named outright, and that one by an alias. */
  ghost predicate AllButAlphaTag(col: map<string, nat>) {
    && (forall c: Column | c != AlphaTag :: KeyName(c) in col && col[KeyName(c)] == InOrder[c])
    && KeyName(AlphaTag) !in col && FirstKnown(col, Aliases(AlphaTag)) == Some(3)
  }

  lemma HeaderNames()
    ensures AllButAlphaTag(Named(Header, |Header|))
  {
    FoldedAreDistinct();
    NoCanonicalAlphaTag();
    forall i: nat | i < 10
      ensures Fold(Header[i]) == Folded[i]
    {
      HeaderFolds(i);
    }
    NamedPlaces(Header, Folded, |Header|);
    NamedOnly(Header, Folded, |Header|);
    NamesPlaced(Named(Header, |Header|));
  }

  lemma NamesPlaced(col: map<string, nat>)
    requires forall i | 0 <= i < 10 :: Folded[i] in col && col[Folded[i]] == i
    requires forall k | k in col :: k in Folded
    ensures AllButAlphaTag(col)
  {
    NoCanonicalAlphaTag();
    forall c: Column | c != AlphaTag
      ensures KeyName(c) in col && col[KeyName(c)] == InOrder[c]
    {
      FoldedNames(c);
      assert Folded[InOrder[c]] in col;
    }
    assert Aliases(AlphaTag)[0] == Folded[3];
  }

  lemma {:induction false} ResolvesAlphaTag(col: map<string, nat>, order: seq<Column>, n: nat)
    requires n <= |order| && AllButAlphaTag(col)
    ensures ResolveAll(col, order, n) == if AlphaTag in order[..n] then col[KeyName(AlphaTag) := 3] else col
  {
    if n > 0 {
      ResolvesAlphaTag(col, order, n - 1);
      assert order[..n] == order[..n - 1] + [order[n - 1]];
    }
  }

  /** The header the writer uses resolves column by column, whatever order the alias
      table is visited in. */
  lemma HeaderResolves(head: seq<string>, order: seq<Column>)
    requires head == Header && forall c: Column :: c in order
    ensures PlainHeader(head) && ColumnsOf(head, order) == InOrder
  {
    HeaderIsPlain();
    HeaderNames();
    ResolvesAlphaTag(Named(Header, |Header|), order, |order|);
    assert order[..|order|] == order;
    var col := ResolveAll(Named(Header, |Header|), order, |order|);
    forall c: Column
      ensures c in InOrder && KeyName(c) in col && col[KeyName(c)] == InOrder[c]
    {
      FoldedNames(c);
    }
  }

  /** So what the writer writes, the reader reads. */
  lemma WrittenFileReadsBack(head: seq<string>, tgs: seq<Talkgroup>, order: seq<Column>, name: string)
    requires head == Header && forall c: Column :: c in order
    requires tgs != [] && name != "" && forall tg | tg in tgs :: Storable(tg)
    ensures ReadNative(Record(head) + RowsText(tgs), order, name) == Some(Cleared(tgs))
  {
    HeaderResolves(head, order);
    FileReadsBack(head, tgs, order, name);
  }
}
