/** What the talkgroup reader of cmd/gophertrunk/import_csv.go makes of tables it did
    not write: which header name a column takes, which rows are refused, and that each
    line is read on its own. */
module TalkgroupReading {
  import opened Wrappers
  import opened Text
  import opened CsvLine
  import opened TalkgroupFile

  // ------------------------------------------------------------------ columns

  /** The i-th header name, trimmed and in lower case. */
  ghost predicate HeadAt(header: seq<string>, i: int, name: string) {
    0 <= i < |header| && Lower(TrimSpace(header[i])) == name
  }

  /** The last place below n with that name. */
  ghost predicate LastHead(header: seq<string>, n: nat, i: int, name: string) {
    i < n && HeadAt(header, i, name) && forall j | i < j < n :: !HeadAt(header, j, name)
  }

  lemma {:induction false} NamedIsLast(header: seq<string>, n: nat, name: string)
    requires n <= |header|
    ensures name in Named(header, n) ==> LastHead(header, n, Named(header, n)[name], name)
    ensures name !in Named(header, n) ==> forall i | 0 <= i < n :: !HeadAt(header, i, name)
  {
    if n > 0 {
      NamedIsLast(header, n - 1, name);
      assert HeadAt(header, n - 1, name) <==> Fold(header[n - 1]) == name;
    }
  }

  /** No column is an alias of another. */
  lemma KeysAreNoAliases(c: Column, d: Column)
    ensures KeyName(d) !in Aliases(c)
    ensures c != d ==> KeyName(c) != KeyName(d)
  {
  }

  lemma {:induction false} OtherKeysDoNotMatter(col: map<string, nat>, aliases: seq<string>, key: string, i: nat)
    requires key !in aliases
    ensures FirstKnown(col[key := i], aliases) == FirstKnown(col, aliases)
  {
    if aliases != [] {
      OtherKeysDoNotMatter(col, aliases[1..], key, i);
    }
  }

  /** Resolving one column leaves the others alone. */
  lemma ResolveTouches(col: map<string, nat>, c: Column, d: Column)
    requires c != d
    ensures FirstKnown(Resolve(col, d), Aliases(c)) == FirstKnown(col, Aliases(c))
    ensures KeyName(c) in Resolve(col, d) <==> KeyName(c) in col
    ensures KeyName(c) in col ==> Resolve(col, d)[KeyName(c)] == col[KeyName(c)]
  {
    KeysAreNoAliases(c, d);
    match FirstKnown(col, Aliases(d))
    case None =>
    case Some(i) => OtherKeysDoNotMatter(col, Aliases(c), KeyName(d), i);
  }

  lemma ResolveOwn(col: map<string, nat>, c: Column)
    ensures FirstKnown(Resolve(col, c), Aliases(c)) == FirstKnown(col, Aliases(c))
    ensures KeyName(c) in col ==> Resolve(col, c) == col
  {
    KeysAreNoAliases(c, c);
    match FirstKnown(col, Aliases(c))
    case None =>
    case Some(i) => OtherKeysDoNotMatter(col, Aliases(c), KeyName(c), i);
  }

  /** Where column c ends up once the columns below n have been visited. */
  function Found(col: map<string, nat>, c: Column, visited: bool): Option<nat> {
    if KeyName(c) in col then Some(col[KeyName(c)])
    else if visited then FirstKnown(col, Aliases(c))
    else None
  }

  function PlaceOf(col: map<string, nat>, c: Column): Option<nat> {
    if KeyName(c) in col then Some(col[KeyName(c)]) else None
  }

  lemma PlaceStep(col: map<string, nat>, c: Column, d: Column)
    ensures FirstKnown(Resolve(col, d), Aliases(c)) == FirstKnown(col, Aliases(c))
    ensures PlaceOf(Resolve(col, d), c) == if d == c then Found(col, c, true) else PlaceOf(col, c)
  {
    if d == c {
      ResolveOwn(col, c);
    } else {
      ResolveTouches(col, c, d);
    }
  }

  lemma {:induction false} ResolvedPlace(col: map<string, nat>, order: seq<Column>, n: nat, c: Column)
    requires n <= |order|
    ensures FirstKnown(ResolveAll(col, order, n), Aliases(c)) == FirstKnown(col, Aliases(c))
    ensures PlaceOf(ResolveAll(col, order, n), c) == Found(col, c, c in order[..n])
  {
    if n > 0 {
      ResolvedPlace(col, order, n - 1, c);
      PlaceStep(ResolveAll(col, order, n - 1), c, order[n - 1]);
      assert order[..n] == order[..n - 1] + [order[n - 1]];
    }
  }

  /** The header has some name of the list; k is the first. */
  ghost predicate FirstNamed(header: seq<string>, names: seq<string>, k: nat) {
    && k < |names| && Headed(header, names[k])
    && forall j | 0 <= j < k :: !Headed(header, names[j])
  }

  ghost predicate Headed(header: seq<string>, name: string) {
    exists i :: HeadAt(header, i, name)
  }

  lemma NamedIsHeaded(header: seq<string>, name: string)
    ensures name in Named(header, |header|) <==> Headed(header, name)
  {
    NamedIsLast(header, |header|, name);
  }

  lemma {:induction false} FirstKnownIsFirst(header: seq<string>, names: seq<string>, k: nat)
    requires FirstNamed(header, names, k)
    ensures var col := Named(header, |header|);
            names[k] in col && FirstKnown(col, names) == Some(col[names[k]])
  {
    NamedIsHeaded(header, names[0]);
    if k > 0 {
      assert !Headed(header, names[0]);
      assert forall j | 0 <= j < k - 1 :: names[1..][j] == names[j + 1];
      FirstKnownIsFirst(header, names[1..], k - 1);
    }
  }

  lemma {:induction false} NoneKnown(header: seq<string>, names: seq<string>)
    requires forall j | 0 <= j < |names| :: !Headed(header, names[j])
    ensures FirstKnown(Named(header, |header|), names) == None
  {
    if names != [] {
      NamedIsHeaded(header, names[0]);
      NoneKnown(header, names[1..]);
    }
  }

  /** The names a column is looked for under, best first. */
  function NamesOf(c: Column): seq<string> {
    [KeyName(c)] + Aliases(c)
  }

  /** A column is where the best of its names that the header has stands last, in
      whatever order the alias table is visited; without such a name it is missing. */
  lemma ColumnsExactly(header: seq<string>, order: seq<Column>, c: Column)
    requires c in order
    ensures forall k: nat :: FirstNamed(header, NamesOf(c), k) ==>
              && c in ColumnsOf(header, order)
              && LastHead(header, |header|, ColumnsOf(header, order)[c], NamesOf(c)[k])
    ensures (forall name | name in NamesOf(c) :: !Headed(header, name)) ==> c !in ColumnsOf(header, order)
  {
    var col, names := Named(header, |header|), NamesOf(c);
    assert order[..|order|] == order;
    ResolvedPlace(col, order, |order|, c);
    forall k: nat | FirstNamed(header, names, k)
      ensures c in ColumnsOf(header, order) && LastHead(header, |header|, ColumnsOf(header, order)[c], names[k])
    {
      NamedIsLast(header, |header|, names[k]);
      FirstNameFound(header, c, k);
    }
    if forall name | name in names :: !Headed(header, name) {
      NoNameFound(header, c);
    }
  }

  lemma FirstNameFound(header: seq<string>, c: Column, k: nat)
    requires FirstNamed(header, NamesOf(c), k)
    ensures var col := Named(header, |header|);
            NamesOf(c)[k] in col && Found(col, c, true) == Some(col[NamesOf(c)[k]])
  {
    NamedIsHeaded(header, KeyName(c));
    if k > 0 {
      assert !Headed(header, NamesOf(c)[0]);
      assert forall j | 0 <= j < k :: NamesOf(c)[j + 1] == Aliases(c)[j];
      FirstKnownIsFirst(header, Aliases(c), k - 1);
    }
  }

  lemma NoNameFound(header: seq<string>, c: Column)
    requires forall name | name in NamesOf(c) :: !Headed(header, name)
    ensures Found(Named(header, |header|), c, true) == None
  {
    NamedIsHeaded(header, KeyName(c));
    NoneOfThese(header, KeyName(c), Aliases(c));
    NoneKnown(header, Aliases(c));
  }

  lemma NoneOfThese(header: seq<string>, key: string, aliases: seq<string>)
    requires forall name | name in [key] + aliases :: !Headed(header, name)
    ensures !Headed(header, key) && forall j | 0 <= j < |aliases| :: !Headed(header, aliases[j])
  {
    assert key in [key] + aliases;
    forall j | 0 <= j < |aliases|
      ensures !Headed(header, aliases[j])
    {
      assert aliases[j] in aliases;
    }
  }

  // --------------------------------------------------------------------- rows

  /** A row is passed over without a decimal, refused unless its decimal is a 32-bit
      number, its mode a known one and its priority blank or a 64-bit number, and
      otherwise read cell by cell. */
  lemma RowOutcome(row: seq<string>, col: ColumnMap)
    ensures var r, d, p := FromRow(row, col), CellOf(row, col, Decimal), CellOf(row, col, Priority);
            && (r == Skipped <==> d == "")
            && (r.Parsed? <==> d != "" && AllDigits(d) && Value(d) < 0x1_0000_0000
                               && Upper(CellOf(row, col, Mode)) in ["", "D", "DE", "T", "TE", "A", "M"]
                               && (p == "" || Atoi(p).Some?))
  {
    ModeSpellings(CellOf(row, col, Mode));
  }

  lemma ParsedCells(row: seq<string>, col: ColumnMap)
    requires FromRow(row, col).Parsed?
    ensures var tg, d := FromRow(row, col).tg, CellOf(row, col, Decimal);
            && AllDigits(d) && tg.dec == Value(d) && !tg.encrypted
            && Some(tg.mode) == ModeOf(CellOf(row, col, Mode))
            && (CellOf(row, col, Priority) == "" ==> tg.priority == 0)
            && (CellOf(row, col, Priority) != "" ==> Some(tg.priority) == Atoi(CellOf(row, col, Priority)))
            && (TrimSpace(CellOf(row, col, Hex)) == "" ==> HexValue(tg.hex) == Some(tg.dec))
            && (TrimSpace(CellOf(row, col, Hex)) != "" ==> tg.hex == Lower(TrimSpace(CellOf(row, col, Hex))))
  {
    HexTextDenotes(Value(CellOf(row, col, Decimal)));
    LowerTrimmed(TrimSpace(CellOf(row, col, Hex)));
  }

  /** What a cell holds: nothing where the row is too short or the column missing. */
  lemma CellsExactly(row: seq<string>, col: ColumnMap, c: Column)
    ensures c in col && col[c] < |row| ==> CellOf(row, col, c) == TrimSpace(row[col[c]])
    ensures c !in col || col[c] >= |row| ==> CellOf(row, col, c) == ""
  {
  }

  // -------------------------------------------------------------------- lines

  function Both(a: Option<seq<Talkgroup>>, b: Option<seq<Talkgroup>>): Option<seq<Talkgroup>> {
    if a.Some? && b.Some? then Some(a.value + b.value) else None
  }

  lemma AfterBoth(tg: Talkgroup, a: Option<seq<Talkgroup>>, b: Option<seq<Talkgroup>>)
    ensures After([tg], Both(a, b)) == Both(After([tg], a), b)
  {
    if a.Some? && b.Some? {
      assert [tg] + (a.value + b.value) == [tg] + a.value + b.value;
    }
  }

  /** Below the header every line is read on its own: a table and its continuation read
      as one after the other, and a refused line anywhere refuses the whole. */
  lemma {:induction false} ReadingSplits(a: seq<string>, b: seq<string>, order: seq<Column>, col: ColumnMap)
    ensures ReadRows(a + b, order, Some(col)) == Both(ReadRows(a, order, Some(col)), ReadRows(b, order, Some(col)))
  {
    if a == [] {
      assert a + b == b;
      BothNothing(ReadRows(b, order, Some(col)));
    } else {
      assert (a + b)[0] == a[0] && (a + b)[1..] == a[1..] + b;
      ReadingSplits(a[1..], b, order, col);
      if !Ignored(a[0]) && Parse(a[0]).Some? && FromRow(Parse(a[0]).value, col).Parsed? {
        AfterBoth(FromRow(Parse(a[0]).value, col).tg, ReadRows(a[1..], order, Some(col)),
                  ReadRows(b, order, Some(col)));
      }
    }
  }

  lemma BothNothing(b: Option<seq<Talkgroup>>)
    ensures Both(Some([]), b) == b
  {
    if b.Some? {
      assert [] + b.value == b.value;
    }
  }

  lemma OneLineRead(line: string, order: seq<Column>, col: ColumnMap)
    ensures ReadRows([line], order, Some(col)) ==
            if Ignored(line) then Some([])
            else match Parse(line)
              case None => None
              case Some(fields) => Single(FromRow(fields, col))
  {
    assert [line][1..] == [];
    assert ReadRows([], order, Some(col)) == Some([]);
    if !Ignored(line) && Parse(line).Some? {
      AfterIsSingle(FromRow(Parse(line).value, col));
    }
  }

  lemma AfterIsSingle(r: RowResult)
    ensures r.Parsed? ==> After([r.tg], Some([])) == Single(r)
  {
    if r.Parsed? {
      assert [r.tg] + [] == [r.tg];
    }
  }

  function Single(r: RowResult): Option<seq<Talkgroup>> {
    match r
    case Skipped => Some([])
    case Invalid => None
    case Parsed(tg) => Some([tg])
  }

  /** What one line below the header comes to: nothing for a blank line, a comment or a
      row without a decimal, an error for malformed quoting or a refused row. */
  lemma LineExactly(line: string, order: seq<Column>, col: ColumnMap)
    ensures var r, fields := ReadRows([line], order, Some(col)), Parse(line);
            var passed := TrimSpace(line) == "" || TrimSpace(line)[0] == '#';
            && (passed ==> r == Some([]))
            && (!passed ==> (r == None <==> fields.None? || FromRow(fields.value, col).Invalid?))
            && (!passed && r.Some? ==> r == Single(FromRow(fields.value, col)))
  {
    OneLineRead(line, order, col);
  }

  /** A comment or blank line may stand anywhere, also above the header. */
  lemma {:induction false} CommentsIgnored(a: seq<string>, line: string, b: seq<string>, order: seq<Column>,
                                           col: Option<ColumnMap>)
    requires TrimSpace(line) == "" || TrimSpace(line)[0] == '#'
    ensures ReadRows(a + [line] + b, order, col) == ReadRows(a + b, order, col)
  {
    if a == [] {
      assert a + [line] + b == [line] + b && a + b == b && ([line] + b)[1..] == b;
    } else {
      assert a + [line] + b == [a[0]] + (a[1..] + [line] + b) && a + b == [a[0]] + (a[1..] + b);
      CommentsIgnored(a[1..], line, b, order, col);
      if Parse(a[0]).Some? {
        CommentsIgnored(a[1..], line, b, order, Some(ColumnsOf(Parse(a[0]).value, order)));
      }
      SameRest(a[0], a[1..] + [line] + b, a[1..] + b, order, col);
    }
  }

  lemma SameRest(line: string, s: seq<string>, t: seq<string>, order: seq<Column>, col: Option<ColumnMap>)
    requires ReadRows(s, order, col) == ReadRows(t, order, col)
    requires Parse(line).Some? ==> var c := Some(ColumnsOf(Parse(line).value, order));
                                   ReadRows(s, order, c) == ReadRows(t, order, c)
    ensures ReadRows([line] + s, order, col) == ReadRows([line] + t, order, col)
  {
    assert ([line] + s)[1..] == s && ([line] + t)[1..] == t;
  }
}
