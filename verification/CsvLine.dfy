/** The hand-written CSV reader of cmd/gophertrunk/import_csv.go against the writer of
    cmd/gophertrunk/import_writer.go: reading undoes writing. Lines are sequences of
    characters; the only characters with a meaning are ASCII ones. */
module CsvLine {
  import opened Wrappers
  import opened Text

  const Quote: char := '\"'

  // ------------------------------------------------- what an accepted line is

  /** One cell of a line: an optional quoted part followed by plain text. */
  datatype Cell = Cell(quoted: Option<string>, tail: string)

  predicate Plain(t: string) {
    forall i | 0 <= i < |t| :: t[i] != Quote && t[i] != ','
  }

  /** Quotes are doubled inside a quoted part. */
  function Escape(v: string): string {
    if v == [] then []
    else (if v[0] == Quote then [Quote, Quote] else [v[0]]) + Escape(v[1..])
  }

  function CellText(c: Cell): string {
    match c.quoted
    case None => c.tail
    case Some(v) => [Quote] + Escape(v) + [Quote] + c.tail
  }

  function CellValue(c: Cell): string {
    match c.quoted
    case None => c.tail
    case Some(v) => v + c.tail
  }

  predicate WellFormed(cells: seq<Cell>) {
    cells != [] && forall i | 0 <= i < |cells| :: Plain(cells[i].tail)
  }

  function Render(cells: seq<Cell>): string
    requires cells != []
  {
    if |cells| == 1 then CellText(cells[0]) else CellText(cells[0]) + [','] + Render(cells[1..])
  }

  function Values(cells: seq<Cell>): seq<string> {
    if cells == [] then [] else [CellValue(cells[0])] + Values(cells[1..])
  }

  function TrimAll(fields: seq<string>): (t: seq<string>)
    ensures |t| == |fields| && forall i | 0 <= i < |t| :: t[i] == TrimSpace(fields[i])
  {
    seq(|fields|, i requires 0 <= i < |fields| => TrimSpace(fields[i]))
  }

  /** strings.TrimRight(line, "\r"). */
  function TrimCR(line: string): (t: string)
    ensures |t| <= |line|
  {
    if line != [] && line[|line| - 1] == '\r' then TrimCR(line[..|line| - 1]) else line
  }

  // --------------------------------------------------------------- the reader

  /** What is left of the scan at the characters s, with `cur` read so far. */
  function Scan(s: string, cur: string, inQuote: bool): Option<seq<string>> {
    if s == [] then
      if inQuote then None else Some([cur])
    else if inQuote then
      if s[0] == Quote then
        if |s| > 1 && s[1] == Quote then Scan(s[2..], cur + [Quote], true)
        else Scan(s[1..], cur, false)
      else Scan(s[1..], cur + [s[0]], true)
    else if s[0] == Quote then
      if cur != [] then None else Scan(s[1..], cur, true)
    else if s[0] == ',' then Prepend([cur], Scan(s[1..], [], false))
    else Scan(s[1..], cur + [s[0]], false)
  }

  function Prepend(fields: seq<string>, rest: Option<seq<string>>): Option<seq<string>> {
    match rest
    case None => None
    case Some(fs) => Some(fields + fs)
  }

  lemma PrependAppends(fields: seq<string>, f: string, rest: Option<seq<string>>)
    ensures Prepend(fields, Prepend([f], rest)) == Prepend(fields + [f], rest)
  {
    if rest.Some? {
      assert fields + ([f] + rest.value) == fields + [f] + rest.value;
    }
  }

  lemma PrependNothing(rest: Option<seq<string>>)
    ensures Prepend([], rest) == rest
  {
    if rest.Some? {
      assert [] + rest.value == rest.value;
    }
  }

  /** The fields of a line; None for the two errors. */
  function Parse(line: string): Option<seq<string>> {
    match Scan(TrimCR(line), [], false)
    case None => None
    case Some(fs) => Some(TrimAll(fs))
  }

  /** Carriage returns at the end of a line are no part of it. */
  lemma CarriageReturnIgnored(line: string)
    ensures Parse(line + "\r") == Parse(line)
    ensures line == [] || line[|line| - 1] != '\r' ==> TrimCR(line) == line
  {
    assert (line + "\r")[..|line|] == line;
  }

  /** splitCSVLine. */
  method SplitCSVLine(raw: string) returns (r: Option<seq<string>>)
    ensures r == Parse(raw)
  {
    var line := TrimCR(raw);
    var fields: seq<string> := [];
    var cur := "";
    var inQuote := false;
    var i := 0;
    PrependNothing(Scan(line, [], false));
    assert line[i..] == line;
    while i < |line|
      invariant 0 <= i <= |line|
      invariant Scan(line, [], false) == Prepend(fields, Scan(line[i..], cur, inQuote))
    {
      var c := line[i];
      if inQuote {
        if c == Quote {
          if i + 1 < |line| && line[i + 1] == Quote {
            cur := cur + [Quote];
            i := i + 2;
            continue;
          }
          inQuote := false;
          i := i + 1;
          continue;
        }
        cur := cur + [c];
        i := i + 1;
      } else if c == Quote {
        if |cur| > 0 {
          return None;
        }
        inQuote := true;
        i := i + 1;
      } else if c == ',' {
        PrependAppends(fields, cur, Scan(line[i + 1..], [], false));
        fields := fields + [cur];
        cur := "";
        i := i + 1;
      } else {
        cur := cur + [c];
        i := i + 1;
      }
    }
    if inQuote {
      return None;
    }
    fields := fields + [cur];
    fields := TrimFields(fields);
    return Some(fields);
  }

  /** The trimming loop at the end. */
  method TrimFields(raw: seq<string>) returns (fields: seq<string>)
    ensures fields == TrimAll(raw)
  {
    fields := raw;
    for i := 0 to |fields|
      invariant |fields| == |raw|
      invariant forall j | 0 <= j < |raw| :: fields[j] == if j < i then TrimSpace(raw[j]) else raw[j]
    {
      fields := fields[i := TrimSpace(raw[i])];
    }
  }

  // ------------------------------------- a rendered line reads as its cells

  lemma {:induction false} PlainScans(t: string, rest: string, cur: string)
    requires Plain(t)
    ensures Scan(t + rest, cur, false) == Scan(rest, cur + t, false)
  {
    if t == [] {
      assert t + rest == rest && cur + t == cur;
    } else {
      assert (t + rest)[1..] == t[1..] + rest;
      PlainScans(t[1..], rest, cur + [t[0]]);
      assert cur + [t[0]] + t[1..] == cur + t;
    }
  }

  lemma {:induction false} QuotedScans(v: string, rest: string, cur: string)
    requires rest != [] ==> rest[0] != Quote
    ensures Scan(Escape(v) + [Quote] + rest, cur, true) == Scan(rest, cur + v, false)
  {
    var s := Escape(v) + [Quote] + rest;
    if v == [] {
      assert s == [Quote] + rest && s[1..] == rest && cur + v == cur;
    } else if v[0] == Quote {
      assert s[2..] == Escape(v[1..]) + [Quote] + rest;
      QuotedScans(v[1..], rest, cur + [Quote]);
      assert cur + [Quote] + v[1..] == cur + v;
    } else {
      assert s[1..] == Escape(v[1..]) + [Quote] + rest;
      QuotedScans(v[1..], rest, cur + [v[0]]);
      assert cur + [v[0]] + v[1..] == cur + v;
    }
  }

  lemma CellScans(c: Cell, rest: string)
    requires Plain(c.tail) && (rest != [] ==> rest[0] == ',')
    ensures Scan(CellText(c) + rest, [], false) == Scan(rest, CellValue(c), false)
  {
    match c.quoted
    case None =>
      PlainScans(c.tail, rest, []);
      assert [] + c.tail == c.tail;
    case Some(v) =>
      var s := CellText(c) + rest;
      assert s[1..] == Escape(v) + [Quote] + (c.tail + rest);
      assert c.tail != [] ==> (c.tail + rest)[0] == c.tail[0];
      QuotedScans(v, c.tail + rest, []);
      assert [] + v == v;
      PlainScans(c.tail, rest, v);
  }

  lemma {:induction false} RenderScans(cells: seq<Cell>)
    requires WellFormed(cells)
    ensures Scan(Render(cells), [], false) == Some(Values(cells))
  {
    var c := cells[0];
    if |cells| == 1 {
      CellScans(c, []);
      assert CellText(c) + [] == CellText(c);
      assert Values(cells) == [CellValue(c)];
    } else {
      var rest := [','] + Render(cells[1..]);
      CellScans(c, rest);
      assert CellText(c) + rest == Render(cells);
      assert rest[1..] == Render(cells[1..]);
      RenderScans(cells[1..]);
    }
  }

  // --------------------------------------- an accepted line is a rendered one

  /** The plain text up to the next comma. */
  lemma {:induction false} PlainSplits(s: string, cur: string, fields: seq<string>)
    returns (t: string, rest: Option<string>)
    requires Scan(s, cur, false) == Some(fields)
    requires cur != [] || s == [] || s[0] != Quote
    ensures Plain(t)
    ensures match rest
            case None => s == t && fields == [cur + t]
            case Some(r) =>
              && s == t + [','] + r && |r| < |s|
              && Scan(r, [], false).Some? && fields == [cur + t] + Scan(r, [], false).value
  {
    if s == [] {
      t, rest := [], None;
      assert cur + [] == cur;
    } else if s[0] == ',' {
      t, rest := [], Some(s[1..]);
      assert cur + [] == cur;
    } else {
      t, rest := PlainSplits(s[1..], cur + [s[0]], fields);
      assert cur + [s[0]] + t == cur + ([s[0]] + t);
      t := [s[0]] + t;
      assert s == [s[0]] + s[1..];
    }
  }

  /** The quoted text up to the closing quote. */
  lemma {:induction false} QuoteSplits(s: string, cur: string, fields: seq<string>) returns (v: string, rest: string)
    requires Scan(s, cur, true) == Some(fields)
    ensures s == Escape(v) + [Quote] + rest && (rest != [] ==> rest[0] != Quote)
    ensures Scan(rest, cur + v, false) == Some(fields)
  {
    if s[0] != Quote {
      v, rest := QuoteSplits(s[1..], cur + [s[0]], fields);
      QuoteGrows(s, 1, s[0], v, rest, cur);
      v := [s[0]] + v;
    } else if |s| > 1 && s[1] == Quote {
      v, rest := QuoteSplits(s[2..], cur + [Quote], fields);
      QuoteGrows(s, 2, Quote, v, rest, cur);
      v := [Quote] + v;
    } else {
      v, rest := [], s[1..];
      assert cur + [] == cur;
      assert s == Escape([]) + [Quote] + rest;
    }
  }

  lemma QuoteGrows(s: string, k: nat, c: char, v: string, rest: string, cur: string)
    requires k <= |s| && s[k..] == Escape(v) + [Quote] + rest
    requires s[..k] == if c == Quote then [Quote, Quote] else [c]
    ensures s == Escape([c] + v) + [Quote] + rest
    ensures cur + [c] + v == cur + ([c] + v)
  {
    assert ([c] + v)[1..] == v;
    assert Escape([c] + v) == s[..k] + Escape(v);
    Regroup(s, k, Escape(v), rest);
  }

  lemma Regroup(s: string, k: nat, v: string, rest: string)
    requires k <= |s| && s[k..] == v + [Quote] + rest
    ensures s == s[..k] + v + [Quote] + rest
  {
    assert s == s[..k] + s[k..];
  }

  lemma {:induction false} ScanRenders(s: string, fields: seq<string>)
    requires Scan(s, [], false) == Some(fields)
    ensures exists cells :: WellFormed(cells) && Render(cells) == s && Values(cells) == fields
    decreases |s|
  {
    var c, rest := FirstCell(s, fields);
    if rest == None {
      var cells := [c];
      assert Values(cells[1..]) == [];
      assert WellFormed(cells) && Render(cells) == s && Values(cells) == fields;
    } else {
      ScanRenders(rest.value, fields[1..]);
      var more :| WellFormed(more) && Render(more) == rest.value && Values(more) == fields[1..];
      var cells := [c] + more;
      assert cells[1..] == more;
      assert WellFormed(cells) && Render(cells) == s && Values(cells) == fields;
    }
  }

  lemma FirstCell(s: string, fields: seq<string>) returns (c: Cell, rest: Option<string>)
    requires Scan(s, [], false) == Some(fields)
    ensures Plain(c.tail)
    ensures match rest
            case None => s == CellText(c) && fields == [CellValue(c)]
            case Some(r) =>
              && s == CellText(c) + [','] + r && |r| < |s|
              && fields != [] && fields[0] == CellValue(c) && Scan(r, [], false) == Some(fields[1..])
  {
    var t;
    if s != [] && s[0] == Quote {
      var v, after := QuoteSplits(s[1..], [], fields);
      assert [] + v == v;
      t, rest := PlainSplits(after, v, fields);
      c := Cell(Some(v), t);
      QuotedCell(s, Escape(v), after, t, rest);
    } else {
      t, rest := PlainSplits(s, [], fields);
      c := Cell(None, t);
      assert [] + t == t;
    }
    if rest.Some? {
      HeadAndTail(fields, CellValue(c), Scan(rest.value, [], false).value);
    }
  }

  lemma QuotedCell(s: string, v: string, after: string, t: string, rest: Option<string>)
    requires s != [] && s[0] == Quote && s[1..] == v + [Quote] + after
    requires after == match rest case None => t case Some(r) => t + [','] + r
    ensures |after| < |s|
    ensures s == match rest case None => [Quote] + v + [Quote] + t case Some(r) => [Quote] + v + [Quote] + t + [','] + r
  {
    assert s == [Quote] + s[1..];
  }

  lemma HeadAndTail(fields: seq<string>, f: string, rest: seq<string>)
    requires fields == [f] + rest
    ensures fields[0] == f && fields[1..] == rest
  {
  }

  /** A line is accepted exactly when it renders some cells, and it reads as their values. */
  lemma ParsesExactly(line: string, fields: seq<string>)
    ensures Parse(line) == Some(fields) <==>
              exists cells :: WellFormed(cells) && Render(cells) == TrimCR(line) && fields == TrimAll(Values(cells))
  {
    if Parse(line) == Some(fields) {
      var raw := Scan(TrimCR(line), [], false).value;
      ScanRenders(TrimCR(line), raw);
    }
    if cells :| WellFormed(cells) && Render(cells) == TrimCR(line) && fields == TrimAll(Values(cells)) {
      RenderScans(cells);
    }
  }

  // --------------------------------------------------------------- the writer

  /** A field that has to be quoted (section 2 of RFC 4180). */
  predicate MustQuote(f: string) {
    ',' in f || Quote in f || '\r' in f || '\n' in f
  }

  /** fieldNeedsQuotes of Go's encoding/csv, which quotes a few fields more. */
  predicate GoQuotes(f: string) {
    f != "" && (f == "\\." || MustQuote(f) || IsSpace(f[0]))
  }

  /** Any choice of fields to quote that includes the ones that must be. */
  predicate MayQuote(fields: seq<string>, quoted: seq<bool>) {
    |quoted| == |fields| && forall i | 0 <= i < |fields| :: MustQuote(fields[i]) ==> quoted[i]
  }

  function CellsFor(fields: seq<string>, quoted: seq<bool>): (cells: seq<Cell>)
    requires |quoted| == |fields|
    ensures |cells| == |fields|
  {
    seq(|fields|, i requires 0 <= i < |fields| =>
      if quoted[i] then Cell(Some(fields[i]), "") else Cell(None, fields[i]))
  }

  /** One written record, without its line end. */
  function Encode(fields: seq<string>, quoted: seq<bool>): string
    requires fields != [] && |quoted| == |fields|
  {
    Render(CellsFor(fields, quoted))
  }

  lemma {:induction false} ValuesAre(cells: seq<Cell>)
    ensures |Values(cells)| == |cells|
    ensures forall i | 0 <= i < |cells| :: Values(cells)[i] == CellValue(cells[i])
  {
    if cells != [] {
      ValuesAre(cells[1..]);
    }
  }

  ghost predicate EndsInCR(s: string) {
    s != [] && s[|s| - 1] == '\r'
  }

  lemma {:induction false} RenderEnds(cells: seq<Cell>)
    requires cells != [] && forall i | 0 <= i < |cells| :: !EndsInCR(CellText(cells[i]))
    ensures !EndsInCR(Render(cells))
  {
    if |cells| > 1 {
      RenderEnds(cells[1..]);
      var rest := Render(cells[1..]);
      var line := Render(cells);
      assert line[|line| - 1] == if rest == [] then ',' else rest[|rest| - 1];
    }
  }

  /** A written line never ends in a carriage return. */
  lemma EncodeKeepsItsEnd(fields: seq<string>, quoted: seq<bool>)
    requires fields != [] && MayQuote(fields, quoted)
    ensures TrimCR(Encode(fields, quoted)) == Encode(fields, quoted)
  {
    var cells := CellsFor(fields, quoted);
    forall i | 0 <= i < |cells|
      ensures !EndsInCR(CellText(cells[i]))
    {
      var text := CellText(cells[i]);
      assert !quoted[i] && text != [] ==> text[|text| - 1] in fields[i];
    }
    RenderEnds(cells);
  }

  /** Reading a written record gives its fields back, up to surrounding white space:
      for every list of fields and every choice of quoting. */
  lemma WriteThenRead(fields: seq<string>, quoted: seq<bool>)
    requires fields != [] && MayQuote(fields, quoted)
    ensures Parse(Encode(fields, quoted)) == Some(TrimAll(fields))
  {
    var cells := CellsFor(fields, quoted);
    assert WellFormed(cells);
    EncodeKeepsItsEnd(fields, quoted);
    RenderScans(cells);
    ValuesAre(cells);
    assert forall i | 0 <= i < |fields| :: CellValue(cells[i]) == fields[i];
    assert Values(cells) == fields;
  }

  /** So a list of trimmed fields survives unchanged. */
  lemma RoundTrip(fields: seq<string>, quoted: seq<bool>)
    requires fields != [] && MayQuote(fields, quoted) && forall f | f in fields :: Trimmed(f)
    ensures Parse(Encode(fields, quoted)) == Some(fields)
  {
    WriteThenRead(fields, quoted);
    forall i | 0 <= i < |fields|
      ensures TrimSpace(fields[i]) == fields[i]
    {
      TrimSpaceTrims(fields[i]);
    }
    assert TrimAll(fields) == fields;
  }

  /** An accepted line is stable: written out again it reads the same. */
  lemma ReadWriteRead(line: string, fields: seq<string>, quoted: seq<bool>)
    requires Parse(line) == Some(fields) && MayQuote(fields, quoted)
    ensures fields != [] && Parse(Encode(fields, quoted)) == Some(fields)
  {
    var raw := Scan(TrimCR(line), [], false).value;
    FieldsNonempty(TrimCR(line), [], false);
    forall f | f in fields
      ensures Trimmed(f)
    {
      var i :| 0 <= i < |raw| && f == TrimSpace(raw[i]);
      TrimSpaceTrims(raw[i]);
    }
    RoundTrip(fields, quoted);
  }

  lemma {:induction false} FieldsNonempty(s: string, cur: string, inQuote: bool)
    ensures Scan(s, cur, inQuote).Some? ==> Scan(s, cur, inQuote).value != []
  {
    if s != [] {
      FieldsNonempty(s[1..], cur, false);
      FieldsNonempty(s[1..], cur + [s[0]], inQuote);
      FieldsNonempty(s[1..], cur, true);
      if |s| > 1 {
        FieldsNonempty(s[2..], cur + [Quote], true);
      }
    }
  }

  // ------------------------------------------------------- a record is a line

  lemma {:induction false} EscapeAddsQuotesOnly(v: string)
    ensures forall c | c in Escape(v) :: c in v
  {
    if v != [] {
      EscapeAddsQuotesOnly(v[1..]);
      assert v == [v[0]] + v[1..];
    }
  }

  lemma {:induction false} RenderHolds(cells: seq<Cell>, c: char)
    requires cells != [] && c != ',' && forall i | 0 <= i < |cells| :: c !in CellText(cells[i])
    ensures c !in Render(cells)
  {
    if |cells| > 1 {
      RenderHolds(cells[1..], c);
    }
  }

  /** A record of fields without line feeds is one line. */
  lemma EncodeIsOneLine(fields: seq<string>, quoted: seq<bool>)
    requires fields != [] && |quoted| == |fields| && forall f | f in fields :: '\n' !in f
    ensures '\n' !in Encode(fields, quoted)
  {
    var cells := CellsFor(fields, quoted);
    forall i | 0 <= i < |cells|
      ensures '\n' !in CellText(cells[i])
    {
      assert fields[i] in fields;
      EscapeAddsQuotesOnly(fields[i]);
    }
    RenderHolds(cells, '\n');
  }

  /** A record starts with its first field or with a quote. */
  lemma EncodeStarts(fields: seq<string>, quoted: seq<bool>)
    requires fields != [] && |quoted| == |fields| && fields[0] != ""
    ensures var line := Encode(fields, quoted);
            line != "" && (line[0] == Quote || line[0] == fields[0][0])
  {
    var cells := CellsFor(fields, quoted);
    assert CellText(cells[0]) != "" && CellText(cells[0])[0] == if quoted[0] then Quote else fields[0][0];
  }
}
