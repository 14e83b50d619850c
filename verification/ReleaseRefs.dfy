/** scripts/release-refs.py: the changelog, the README and the docs fallback each name
    the current release; `bump` must establish what `check` demands. Files are lists
    of lines; tags and dates contain no line feed. */
module ReleaseRefs {
  import opened Wrappers
  import opened Text

  // ----------------------------------------------------------- tags and their order

  predicate PreChar(c: char) {
    '0' <= c <= '9' || 'A' <= c <= 'Z' || 'a' <= c <= 'z' || c == '.'
  }

  /** Where the ranges of the prerelease characters end. */
  lemma PreRanges()
    ensures forall c | c in "09AZaz." :: PreChar(c)
    ensures forall c | c in "/:@[`{-+" :: !PreChar(c)
  {
  }

  /** The end of the digits from i on. */
  function NumberEnd(t: string, i: nat): (k: nat)
    requires i <= |t|
    ensures i <= k <= |t|
    decreases |t| - i
  {
    if i < |t| && IsDigit(t[i]) then NumberEnd(t, i + 1) else i
  }

  function PreEnd(t: string, i: nat): (k: nat)
    requires i <= |t|
    ensures i <= k <= |t|
    decreases |t| - i
  {
    if i < |t| && PreChar(t[i]) then PreEnd(t, i + 1) else i
  }

  /** TAG_RE: v, three numbers separated by dots, and maybe a hyphen and a prerelease. */
  predicate IsTag(t: string) {
    && t != [] && t[0] == 'v'
    && var a := NumberEnd(t, 1);
       && 1 < a < |t| && t[a] == '.'
       && var b := NumberEnd(t, a + 1);
          && a + 1 < b < |t| && t[b] == '.'
          && var c := NumberEnd(t, b + 1);
             && b + 1 < c
             && (c == |t| || (t[c] == '-' && c + 1 < |t| && PreEnd(t, c + 1) == |t|))
  }

  predicate IsStable(t: string) {
    '-' !in t
  }

  datatype Key = Key(nums: seq<int>, flag: int, pre: seq<int>)

  function Codes(s: string): (c: seq<int>)
    ensures |c| == |s| && forall i | 0 <= i < |s| :: c[i] == s[i] as int
  {
    seq(|s|, i requires 0 <= i < |s| => s[i] as int)
  }

  /** int() of the characters from lo to hi. */
  function IntOf(t: string, lo: nat, hi: nat): int
    requires lo <= hi <= |t|
    decreases hi
  {
    if lo == hi then 0 else IntOf(t, lo, hi - 1) * 10 + (t[hi - 1] as int - '0' as int)
  }

  /** semver_key: cutting a tag at the hyphen and its core at the dots gives these parts. */
  function SemverKey(t: string): Key
    requires IsTag(t)
  {
    var a := NumberEnd(t, 1);
    var b := NumberEnd(t, a + 1);
    var c := NumberEnd(t, b + 1);
    Key([IntOf(t, 1, a), IntOf(t, a + 1, b), IntOf(t, b + 1, c)],
        if c == |t| then 1 else 0, if c == |t| then [] else Codes(t[c + 1..]))
  }

  /** Python's order on tuples and strings. */
  predicate LexLess(a: seq<int>, b: seq<int>) {
    b != [] && (a == [] || a[0] < b[0] || (a[0] == b[0] && LexLess(a[1..], b[1..])))
  }

  predicate KeyLess(a: Key, b: Key) {
    || LexLess(a.nums, b.nums)
    || (a.nums == b.nums && (a.flag < b.flag || (a.flag == b.flag && LexLess(a.pre, b.pre))))
  }

  lemma {:induction false} LexTransitive(a: seq<int>, b: seq<int>, c: seq<int>)
    requires LexLess(a, b) && LexLess(b, c)
    ensures LexLess(a, c)
  {
    if a != [] && a[0] == b[0] && b[0] == c[0] {
      LexTransitive(a[1..], b[1..], c[1..]);
    }
  }

  lemma {:induction false} LexTotal(a: seq<int>, b: seq<int>)
    ensures LexLess(a, b) || LexLess(b, a) || a == b
    ensures !(LexLess(a, b) && LexLess(b, a)) && !LexLess(a, a)
  {
    if a != [] && b != [] {
      LexTotal(a[1..], b[1..]);
      LexTotal(a[1..], a[1..]);
      assert a == [a[0]] + a[1..] && b == [b[0]] + b[1..];
    } else if a != [] {
      LexTotal(a[1..], a[1..]);
    }
  }

  lemma KeyTransitive(a: Key, b: Key, c: Key)
    requires KeyLess(a, b) && KeyLess(b, c)
    ensures KeyLess(a, c)
  {
    if LexLess(a.nums, b.nums) && LexLess(b.nums, c.nums) {
      LexTransitive(a.nums, b.nums, c.nums);
    }
    if LexLess(a.pre, b.pre) && LexLess(b.pre, c.pre) {
      LexTransitive(a.pre, b.pre, c.pre);
    }
  }

  lemma KeyTotal(a: Key, b: Key)
    ensures KeyLess(a, b) || KeyLess(b, a) || a == b
    ensures !(KeyLess(a, b) && KeyLess(b, a)) && !KeyLess(a, a)
  {
    LexTotal(a.nums, b.nums);
    LexTotal(a.pre, b.pre);
    LexTotal(a.nums, a.nums);
    LexTotal(a.pre, a.pre);
  }

  // -------------------------------------------------------- the changelog's lines

  const Unreleased: string := "## [Unreleased]"
  /** In two parts, so that the verifier has its first characters at hand. */
  const Placeholder: string :=
    "No " + "changelog entries were recorded for this tag; see the GitHub release notes."

  /** The date pattern, at a place in a line. */
  predicate IsDateAt(s: string, i: nat) {
    && i + 10 == |s| && s[i + 4] == '-' && s[i + 7] == '-'
    && IsDigit(s[i]) && IsDigit(s[i + 1]) && IsDigit(s[i + 2]) && IsDigit(s[i + 3])
    && IsDigit(s[i + 5]) && IsDigit(s[i + 6]) && IsDigit(s[i + 8]) && IsDigit(s[i + 9])
  }

  predicate IsDate(s: string) {
    IsDateAt(s, 0)
  }

  /** Ten characters: hyphens after four and seven, digits everywhere else. */
  lemma DateExactly(s: string)
    ensures IsDate(s) <==>
              |s| == 10 && forall i | 0 <= i < 10 :: if i == 4 || i == 7 then s[i] == '-' else IsDigit(s[i])
  {
  }

  datatype Heading = Heading(tag: string, date: string)

  function HeadingLine(tag: string, date: string): string {
    "## [" + tag + "] — " + date
  }

  predicate StartsSection(line: string) {
    |line| >= 3 && line[0] == '#' && line[1] == '#' && line[2] == ' '
  }

  /** The first closing bracket from i on, or the length. */
  function BracketEnd(line: string, i: nat): (k: nat)
    requires i <= |line|
    ensures i <= k <= |line|
    decreases |line| - i
  {
    if i < |line| && line[i] != ']' then BracketEnd(line, i + 1) else i
  }

  /** HEADING_RE. */
  function ParseHeading(line: string): Option<Heading> {
    if !StartsSection(line) || |line| < 5 || line[3] != '[' || line[4] != 'v' then None
    else
      var k := BracketEnd(line, 4);
      if k < 6 || k + 4 > |line| || line[k + 1] != ' ' || line[k + 2] != '—' || line[k + 3] != ' '
          || !IsDateAt(line, k + 4)
      then None
      else Some(Heading(line[4..k], line[k + 4..]))
  }

  lemma {:induction false} BracketEndIs(line: string, i: nat, k: nat)
    requires i <= k < |line| && line[k] == ']' && forall j | i <= j < k :: line[j] != ']'
    ensures BracketEnd(line, i) == k
    decreases k - i
  {
    if i < k {
      BracketEndIs(line, i + 1, k);
    }
  }

  /** A heading line reads back, unless its date is malformed. */
  lemma HeadingRoundTrip(tag: string, date: string)
    requires |tag| >= 2 && tag[0] == 'v' && ']' !in tag
    ensures ParseHeading(HeadingLine(tag, date)) == if IsDate(date) then Some(Heading(tag, date)) else None
  {
    var line := HeadingLine(tag, date);
    var k := 4 + |tag|;
    HeadingChars(tag, date, line);
    BracketEndIs(line, 4, k);
    SameDate(line, k + 4, date);
    assert line[4..k] == tag;
  }

  lemma HeadingChars(tag: string, date: string, line: string)
    requires line == HeadingLine(tag, date)
    ensures |line| == |tag| + 8 + |date| && StartsSection(line) && line[3] == '['
    ensures forall i | 0 <= i < |tag| :: line[4 + i] == tag[i]
    ensures forall j | 4 <= j < 4 + |tag| :: line[j] in tag
    ensures var k := 4 + |tag|; line[k] == ']' && line[k + 1] == ' ' && line[k + 2] == '—' && line[k + 3] == ' '
    ensures line[8 + |tag|..] == date
  {
    assert line == "## [" + (tag + ("] — " + date));
    forall j | 4 <= j < 4 + |tag|
      ensures line[j] in tag
    {
      assert line[j] == tag[j - 4];
    }
  }

  lemma SameDate(line: string, i: nat, date: string)
    requires i <= |line| && line[i..] == date
    ensures IsDateAt(line, i) <==> IsDate(date)
  {
    assert forall j | 0 <= j < |date| :: line[i + j] == date[j];
  }

  lemma HeadingsStartSections(line: string)
    requires ParseHeading(line).Some?
    ensures StartsSection(line) && line != Unreleased
  {
    assert line[4] == 'v';
  }

  /** changelog_headings. */
  function Headings(lines: seq<string>): seq<Heading> {
    if lines == [] then []
    else
      match ParseHeading(lines[0])
      case None => Headings(lines[1..])
      case Some(h) => [h] + Headings(lines[1..])
  }

  lemma {:induction false} HeadingsConcat(a: seq<string>, b: seq<string>)
    ensures Headings(a + b) == Headings(a) + Headings(b)
  {
    if a == [] {
      assert a + b == b;
    } else {
      assert (a + b)[1..] == a[1..] + b;
      HeadingsConcat(a[1..], b);
    }
  }

  /** The first line that starts a section, or the length. */
  function NextSection(lines: seq<string>, from: nat): (k: nat)
    requires from <= |lines|
    ensures from <= k <= |lines| && (k < |lines| ==> StartsSection(lines[k]))
    ensures forall i | from <= i < k :: !StartsSection(lines[i])
    decreases |lines| - from
  {
    if from == |lines| || StartsSection(lines[from]) then from else NextSection(lines, from + 1)
  }

  /** lines.index(UNRELEASED) from a line on, or the length. */
  function UnreleasedFrom(lines: seq<string>, from: nat): (k: nat)
    requires from <= |lines|
    ensures from <= k <= |lines| && (k < |lines| ==> lines[k] == Unreleased)
    ensures forall i | from <= i < k :: lines[i] != Unreleased
    decreases |lines| - from
  {
    if from == |lines| || lines[from] == Unreleased then from else UnreleasedFrom(lines, from + 1)
  }

  function UnreleasedAt(lines: seq<string>): (k: nat)
    ensures k <= |lines|
  {
    UnreleasedFrom(lines, 0)
  }

  predicate BlankChar(c: char) {
    IsSpace(c) || '\U{1c}' <= c <= '\U{1f}'
  }

  lemma BlankRanges()
    ensures BlankChar('\U{1c}') && BlankChar('\U{1f}') && BlankChar(' ') && !BlankChar('\U{1b}') && !BlankChar('!')
    ensures StartsSection("## ")
  {
  }

  predicate Blank(line: string) {
    forall i | 0 <= i < |line| :: BlankChar(line[i])
  }

  predicate Documented(lines: seq<string>, tag: string) {
    exists i | 0 <= i < |Headings(lines)| :: Headings(lines)[i].tag == tag
  }

  /** Where bump_changelog inserts its lines, and which. */
  function InsertionPoint(lines: seq<string>): (k: nat)
    requires UnreleasedAt(lines) < |lines|
    ensures k <= |lines|
  {
    var u := UnreleasedAt(lines);
    var nxt := NextSection(lines, u + 1);
    if exists i | u < i < nxt :: !Blank(lines[i]) then u + 1 else nxt
  }

  function Inserted(lines: seq<string>, tag: string, date: string): seq<string>
    requires UnreleasedAt(lines) < |lines|
  {
    var u := UnreleasedAt(lines);
    var nxt := NextSection(lines, u + 1);
    if exists i | u < i < nxt :: !Blank(lines[i]) then ["", HeadingLine(tag, date)]
    else [HeadingLine(tag, date), "", Placeholder, ""]
  }

  /** bump_changelog; None for a changelog without an [Unreleased] section. */
  function BumpedChangelog(lines: seq<string>, tag: string, date: string): Option<seq<string>> {
    if Documented(lines, tag) then Some(lines)
    else if UnreleasedAt(lines) == |lines| then None
    else
      var k := InsertionPoint(lines);
      Some(lines[..k] + Inserted(lines, tag, date) + lines[k..])
  }

  // --------------------------------------------- what bumping the changelog does

  /** The first section of the changelog is [Unreleased]. */
  predicate OpensUnreleased(lines: seq<string>) {
    NextSection(lines, 0) < |lines| && lines[NextSection(lines, 0)] == Unreleased
  }

  lemma UnreleasedIsFirst(lines: seq<string>)
    requires OpensUnreleased(lines)
    ensures UnreleasedAt(lines) == NextSection(lines, 0) < |lines|
  {
    assert forall i | 0 <= i < NextSection(lines, 0) :: lines[i] != Unreleased;
  }

  lemma {:induction false} NoHeadings(lines: seq<string>)
    requires forall i | 0 <= i < |lines| :: !StartsSection(lines[i]) || lines[i] == Unreleased
    ensures Headings(lines) == []
  {
    if lines != [] {
      if ParseHeading(lines[0]).Some? {
        HeadingsStartSections(lines[0]);
      }
      NoHeadings(lines[1..]);
    }
  }

  lemma NothingAboveInsertion(lines: seq<string>)
    requires OpensUnreleased(lines)
    ensures UnreleasedAt(lines) < InsertionPoint(lines)
    ensures Headings(lines[..InsertionPoint(lines)]) == []
  {
    UnreleasedIsFirst(lines);
    NoHeadings(lines[..InsertionPoint(lines)]);
  }

  lemma InsertedHeadings(lines: seq<string>, tag: string, date: string)
    requires UnreleasedAt(lines) < |lines| && |tag| >= 2 && tag[0] == 'v' && ']' !in tag
    ensures Headings(Inserted(lines, tag, date)) == if IsDate(date) then [Heading(tag, date)] else []
  {
    HeadingRoundTrip(tag, date);
    OneHeading(HeadingLine(tag, date));
  }

  lemma OneHeading(line: string)
    ensures Headings(["", line]) == Headings([line, "", Placeholder, ""])
            == match ParseHeading(line) case None => [] case Some(h) => [h]
  {
    PlainLinesAreNoHeadings();
    assert Headings([line]) == match ParseHeading(line) case None => [] case Some(h) => [h];
    HeadingsConcat([""], [line]);
    assert [""] + [line] == ["", line];
    HeadingsConcat([line], ["", Placeholder, ""]);
    assert [line] + ["", Placeholder, ""] == [line, "", Placeholder, ""];
  }

  lemma PlainLinesAreNoHeadings()
    ensures Headings([""]) == [] && Headings(["", Placeholder, ""]) == []
  {
    assert Placeholder[0] == 'N';
    NoHeadings([""]);
    NoHeadings(["", Placeholder, ""]);
  }

  predicate TagChar(c: char) {
    PreChar(c) || c == '-'
  }

  lemma TagCharIsPlain(c: char)
    requires TagChar(c)
    ensures c != ']' && !BlankChar(c)
  {
  }

  lemma {:induction false} NumberChars(t: string, i: nat)
    requires i <= |t|
    ensures forall j | i <= j < NumberEnd(t, i) :: TagChar(t[j])
    decreases |t| - i
  {
    if i < |t| && IsDigit(t[i]) {
      NumberChars(t, i + 1);
    }
  }

  lemma {:induction false} PreChars(t: string, i: nat)
    requires i <= |t|
    ensures forall j | i <= j < PreEnd(t, i) :: TagChar(t[j])
    decreases |t| - i
  {
    if i < |t| && PreChar(t[i]) {
      PreChars(t, i + 1);
    }
  }

  lemma TagChars(t: string)
    requires IsTag(t)
    ensures |t| >= 2 && t[0] == 'v' && forall i | 0 <= i < |t| :: TagChar(t[i])
  {
    var a := NumberEnd(t, 1);
    var b := NumberEnd(t, a + 1);
    var c := NumberEnd(t, b + 1);
    NumberChars(t, 1);
    NumberChars(t, a + 1);
    NumberChars(t, b + 1);
    if c < |t| {
      PreChars(t, c + 1);
    }
  }

  lemma TagIsPlain(tag: string)
    requires IsTag(tag)
    ensures |tag| >= 2 && tag[0] == 'v' && ']' !in tag
    ensures forall i | 0 <= i < |tag| :: !BlankChar(tag[i])
  {
    TagChars(tag);
    forall i | 0 <= i < |tag|
      ensures tag[i] != ']' && !BlankChar(tag[i])
    {
      TagCharIsPlain(tag[i]);
    }
  }

  /** A bump of an undocumented tag puts exactly its heading in front of the others,
      unless the date is malformed: then it adds none. */
  lemma BumpAddsHeading(lines: seq<string>, tag: string, date: string)
    requires OpensUnreleased(lines) && IsTag(tag) && !Documented(lines, tag)
    ensures BumpedChangelog(lines, tag, date).Some?
    ensures Headings(BumpedChangelog(lines, tag, date).value)
            == (if IsDate(date) then [Heading(tag, date)] else []) + Headings(lines)
  {
    UnreleasedIsFirst(lines);
    NothingAboveInsertion(lines);
    TagIsPlain(tag);
    InsertedHeadings(lines, tag, date);
    HeadingsInsert(lines, InsertionPoint(lines), Inserted(lines, tag, date));
  }

  lemma HeadingsInsert(lines: seq<string>, k: nat, ins: seq<string>)
    requires k <= |lines| && Headings(lines[..k]) == []
    ensures Headings(lines[..k] + ins + lines[k..]) == Headings(ins) + Headings(lines)
  {
    HeadingsAround(lines[..k], ins, lines[k..]);
    assert lines == lines[..k] + lines[k..];
  }

  lemma HeadingsAround(a: seq<string>, ins: seq<string>, b: seq<string>)
    requires Headings(a) == []
    ensures Headings(a + ins + b) == Headings(ins) + Headings(a + b)
  {
    HeadingsConcat(a + ins, b);
    HeadingsConcat(a, ins);
    HeadingsConcat(a, b);
  }

  /** It loses and reorders no line: the old lines surround the new ones. */
  lemma BumpOnlyInserts(lines: seq<string>, tag: string, date: string)
    requires BumpedChangelog(lines, tag, date).Some? && !Documented(lines, tag)
    ensures var after := BumpedChangelog(lines, tag, date).value;
            var k := InsertionPoint(lines);
            var m := |after| - |lines|;
            (m == 2 || m == 4) && after[..k] == lines[..k] && after[k + m..] == lines[k..]
  {
  }

  lemma NextSectionIs(lines: seq<string>, from: nat, k: nat)
    requires from <= k <= |lines| && (k < |lines| ==> StartsSection(lines[k]))
    requires forall i | from <= i < k :: !StartsSection(lines[i])
    ensures NextSection(lines, from) == k
  {
  }

  /** The changelog still opens with an [Unreleased] section. */
  lemma BumpKeepsUnreleased(lines: seq<string>, tag: string, date: string)
    requires OpensUnreleased(lines) && BumpedChangelog(lines, tag, date).Some?
    ensures OpensUnreleased(BumpedChangelog(lines, tag, date).value)
  {
    var after := BumpedChangelog(lines, tag, date).value;
    if !Documented(lines, tag) {
      UnreleasedIsFirst(lines);
      NothingAboveInsertion(lines);
      var u := NextSection(lines, 0);
      assert forall i | 0 <= i <= u :: after[i] == lines[i];
      NextSectionIs(after, 0, u);
    }
  }

  // ------------------------------------------------------------------- the order

  predicate AllTags(headings: seq<Heading>) {
    forall i | 0 <= i < |headings| :: IsTag(headings[i].tag)
  }

  function TagKeys(headings: seq<Heading>): (keys: seq<Key>)
    requires AllTags(headings)
    ensures |keys| == |headings|
  {
    if headings == [] then [] else [SemverKey(headings[0].tag)] + TagKeys(headings[1..])
  }

  lemma {:induction false} TagKeyAt(headings: seq<Heading>, i: nat)
    requires AllTags(headings) && i < |headings|
    ensures TagKeys(headings)[i] == SemverKey(headings[i].tag)
  {
    if i > 0 {
      TagKeyAt(headings[1..], i - 1);
    }
  }

  /** What the check asks of neighbours. */
  predicate Falling(keys: seq<Key>) {
    |keys| < 2 || (KeyLess(keys[1], keys[0]) && Falling(keys[1..]))
  }

  predicate Descending(headings: seq<Heading>) {
    AllTags(headings) && Falling(TagKeys(headings))
  }

  lemma {:induction false} FallingThroughout(keys: seq<Key>, i: nat, j: nat)
    requires Falling(keys) && i < j < |keys|
    ensures KeyLess(keys[j], keys[i])
  {
    if i > 0 {
      FallingThroughout(keys[1..], i - 1, j - 1);
    } else if j > 1 {
      FallingThroughout(keys[1..], 0, j - 1);
      KeyTransitive(keys[j], keys[1], keys[0]);
    }
  }

  /** The first stable heading, or the length. */
  function FirstStable(headings: seq<Heading>): (k: nat)
    ensures k <= |headings| && (k < |headings| ==> IsStable(headings[k].tag))
    ensures forall i | 0 <= i < k :: !IsStable(headings[i].tag)
  {
    if headings == [] || IsStable(headings[0].tag) then 0 else FirstStable(headings[1..]) + 1
  }

  function NewestStable(headings: seq<Heading>): Option<string> {
    var k := FirstStable(headings);
    if k < |headings| then Some(headings[k].tag) else None
  }

  /** Neighbours in order make the whole list strictly descending, so no release is
      listed twice. */
  lemma DescendingThroughout(headings: seq<Heading>, i: nat, j: nat)
    requires Descending(headings) && i < j < |headings|
    ensures KeyLess(SemverKey(headings[j].tag), SemverKey(headings[i].tag))
    ensures headings[i].tag != headings[j].tag
  {
    FallingThroughout(TagKeys(headings), i, j);
    TagKeyAt(headings, i);
    TagKeyAt(headings, j);
    KeyTotal(SemverKey(headings[i].tag), SemverKey(headings[j].tag));
  }

  /** The first stable heading is the newest stable release. */
  lemma NewestStableIsGreatest(headings: seq<Heading>, j: nat)
    requires Descending(headings) && j < |headings| && IsStable(headings[j].tag)
    ensures var k := FirstStable(headings);
            && k <= j && NewestStable(headings) == Some(headings[k].tag)
            && (k < j ==> KeyLess(SemverKey(headings[j].tag), SemverKey(headings[k].tag)))
  {
    var k := FirstStable(headings);
    if k < j {
      DescendingThroughout(headings, k, j);
    }
  }

  // ---------------------------------------------------- the other two references

  /** README_RE on one line. */
  predicate IsReference(line: string) {
    |line| > 9 && line[..9] == "VERSION=v" && forall i | 9 <= i < |line| :: !BlankChar(line[i])
  }

  function References(lines: seq<string>): seq<string> {
    if lines == [] then []
    else OneReference(lines[0]) + References(lines[1..])
  }

  function WithReference(lines: seq<string>, tag: string): (r: seq<string>)
    ensures |r| == |lines|
    ensures forall i | 0 <= i < |lines| :: r[i] == if IsReference(lines[i]) then "VERSION=" + tag else lines[i]
  {
    if lines == [] then []
    else [if IsReference(lines[0]) then "VERSION=" + tag else lines[0]] + WithReference(lines[1..], tag)
  }

  /** The docs fallback: text around assignments of a tag. */
  datatype Piece = Plain(text: string) | Assign(tag: string)

  function Assigned(pieces: seq<Piece>): seq<string> {
    if pieces == [] then []
    else (if pieces[0].Assign? then [pieces[0].tag] else []) + Assigned(pieces[1..])
  }

  function WithAssigned(pieces: seq<Piece>, tag: string): (r: seq<Piece>)
    ensures |r| == |pieces|
    ensures forall i | 0 <= i < |pieces| :: r[i] == if pieces[i].Assign? then Assign(tag) else pieces[i]
  {
    if pieces == [] then []
    else [if pieces[0].Assign? then Assign(tag) else pieces[0]] + WithAssigned(pieces[1..], tag)
  }

  lemma TagMakesReference(tag: string)
    requires IsTag(tag)
    ensures IsReference("VERSION=" + tag) && ("VERSION=" + tag)[8..] == tag
  {
    TagIsPlain(tag);
    var line := "VERSION=" + tag;
    assert line[8..] == tag && line[8] == 'v';
    assert line[..9] == "VERSION=v";
    forall i | 9 <= i < |line|
      ensures !BlankChar(line[i])
    {
      assert line[i] == tag[i - 8];
    }
  }

  function OneReference(line: string): seq<string> {
    if IsReference(line) then [line[8..]] else []
  }

  lemma OneReferenceSet(line: string, tag: string)
    requires IsTag(tag)
    ensures OneReference(if IsReference(line) then "VERSION=" + tag else line)
            == if IsReference(line) then [tag] else []
  {
    TagMakesReference(tag);
  }

  lemma WithReferenceTail(lines: seq<string>, tag: string)
    requires lines != []
    ensures WithReference(lines, tag)[0] == if IsReference(lines[0]) then "VERSION=" + tag else lines[0]
    ensures WithReference(lines, tag)[1..] == WithReference(lines[1..], tag)
  {
  }

  /** As many references as before, all to the tag. */
  lemma {:induction false} ReferencesSet(lines: seq<string>, tag: string)
    requires IsTag(tag)
    ensures |References(WithReference(lines, tag))| == |References(lines)|
    ensures forall i | 0 <= i < |References(lines)| :: References(WithReference(lines, tag))[i] == tag
  {
    if lines != [] {
      ReferencesSet(lines[1..], tag);
      OneReferenceSet(lines[0], tag);
      WithReferenceTail(lines, tag);
    }
  }

  lemma {:induction false} AssignedSet(pieces: seq<Piece>, tag: string)
    ensures |Assigned(WithAssigned(pieces, tag))| == |Assigned(pieces)|
    ensures forall i | 0 <= i < |Assigned(pieces)| :: Assigned(WithAssigned(pieces, tag))[i] == tag
  {
    if pieces != [] {
      AssignedSet(pieces[1..], tag);
    }
  }

  // ------------------------------------------------------------ check and bump

  /** The three files. */
  datatype Files = Files(changelog: seq<string>, readme: seq<string>, fallback: seq<Piece>)

  predicate OneReferenceEach(f: Files) {
    |References(f.readme)| == 1 && |Assigned(f.fallback)| == 1
  }

  /** The README and the fallback name the release, if there is one to name. */
  predicate BothName(f: Files, latest: Option<string>) {
    && OneReferenceEach(f)
    && (latest.Some? ==> References(f.readme)[0] == latest.value && Assigned(f.fallback)[0] == latest.value)
  }

  /** The documented releases include the tag, as the newest stable one if it is stable;
      the empty tag stands for no --tag. */
  predicate Documents(headings: seq<Heading>, tag: string) {
    tag != "" ==>
      && IsTag(tag) && (exists i | 0 <= i < |headings| :: headings[i].tag == tag)
      && (IsStable(tag) ==> NewestStable(headings) == Some(tag))
  }

  /** What `check --no-git` demands. */
  predicate Consistent(f: Files, tag: string) {
    var headings := Headings(f.changelog);
    && OpensUnreleased(f.changelog) && headings != [] && Descending(headings)
    && BothName(f, NewestStable(headings)) && Documents(headings, tag)
  }

  /** The newest stable heading is older than git's newest stable tag. */
  predicate Stale(f: Files, git: Option<string>)
    requires Descending(Headings(f.changelog)) && (git.Some? ==> IsTag(git.value))
  {
    var k := FirstStable(Headings(f.changelog));
    k < |Headings(f.changelog)| && git.Some?
    && KeyLess(SemverKey(Headings(f.changelog)[k].tag), SemverKey(git.value))
  }

  datatype Fault =
    | FirstSection | NoHeading | OutOfOrder | HeadingNoTag | ReferenceCount | ReadmeDiffers | FallbackDiffers
    | Behind | BadTag | TagMissing | TagNotNewest

  datatype Outcome = Refused | NoUnreleased | BadReference | Checked(faults: seq<Fault>)

  /** The README after a bump of the tag: untouched unless it has one reference to set. */
  function BumpedReadme(lines: seq<string>, tag: string): seq<string> {
    if IsStable(tag) && |References(lines)| == 1 then WithReference(lines, tag) else lines
  }

  /** The fallback, which is set after the README. */
  function BumpedFallback(f: Files, tag: string): seq<Piece> {
    if IsStable(tag) && OneReferenceEach(f) then WithAssigned(f.fallback, tag) else f.fallback
  }

  /** The files after a bump that is not refused. */
  function Bumped(f: Files, tag: string, date: string): Files
    requires BumpedChangelog(f.changelog, tag, date).Some?
  {
    Files(BumpedChangelog(f.changelog, tag, date).value, BumpedReadme(f.readme, tag), BumpedFallback(f, tag))
  }

  class Repository {
    var changelog: seq<string>
    var readme: seq<string>
    var fallback: seq<Piece>

    function Contents(): Files
      reads this
    {
      Files(changelog, readme, fallback)
    }

    /** check: the faults it reports; `git` is the newest stable tag git knows, if any. */
    method Check(tag: string, git: Option<string>) returns (faults: seq<Fault>)
      requires git.Some? ==> IsTag(git.value)
      ensures faults == [] <==> Consistent(Contents(), tag) && !Stale(Contents(), git)
    {
      var headings := Headings(changelog);
      var order := CheckHeadings(headings);
      var references := CheckReferences(NewestStable(headings));
      var documented := CheckTag(headings, tag);
      faults := order + references + documented;
      if !OpensUnreleased(changelog) {
        faults := faults + [FirstSection];
      }
      if order == [] {
        var k := FirstStable(headings);
        if k < |headings| && git.Some? && KeyLess(SemverKey(headings[k].tag), SemverKey(git.value)) {
          faults := faults + [Behind];
        }
      }
    }

    method CheckReferences(latest: Option<string>) returns (faults: seq<Fault>)
      ensures faults == [] <==> BothName(Contents(), latest)
    {
      faults := [];
      var inReadme, inDocs := References(readme), Assigned(fallback);
      if |inReadme| != 1 {
        faults := faults + [ReferenceCount];
      } else if latest.Some? && inReadme[0] != latest.value {
        faults := faults + [ReadmeDiffers];
      }
      if |inDocs| != 1 {
        faults := faults + [ReferenceCount];
      } else if latest.Some? && inDocs[0] != latest.value {
        faults := faults + [FallbackDiffers];
      }
    }

    /** bump. */
    method Bump(tag: string, date: string, git: Option<string>) returns (outcome: Outcome)
      requires git.Some? ==> IsTag(git.value)
      modifies this
      ensures !IsTag(tag) ==> outcome == Refused && Contents() == old(Contents())
      ensures IsTag(tag) && BumpedChangelog(old(changelog), tag, date) == None ==>
                outcome == NoUnreleased && Contents() == old(Contents())
      ensures IsTag(tag) && BumpedChangelog(old(changelog), tag, date).Some? ==>
                && Contents() == Bumped(old(Contents()), tag, date)
                && (outcome.BadReference? <==> IsStable(tag) && !OneReferenceEach(old(Contents())))
                && (outcome == Checked([]) <==>
                      !outcome.BadReference? && Consistent(Contents(), tag) && !Stale(Contents(), git))
    {
      if !IsTag(tag) {
        return Refused;
      }
      var after := BumpedChangelog(changelog, tag, date);
      if after == None {
        return NoUnreleased;
      }
      changelog := after.value;
      if IsStable(tag) {
        if |References(readme)| != 1 {
          return BadReference;
        }
        readme := WithReference(readme, tag);
        if |Assigned(fallback)| != 1 {
          return BadReference;
        }
        fallback := WithAssigned(fallback, tag);
      }
      var faults := Check(tag, git);
      outcome := Checked(faults);
    }
  }

  /** The part of the check about the order of the headings. */
  method CheckHeadings(headings: seq<Heading>) returns (faults: seq<Fault>)
    ensures faults == [] <==> headings != [] && Descending(headings)
  {
    if headings == [] {
      return [NoHeading];
    }
    var i := 0;
    while i < |headings| && IsTag(headings[i].tag)
      invariant 0 <= i <= |headings|
      invariant forall j | 0 <= j < i :: IsTag(headings[j].tag)
    {
      i := i + 1;
    }
    if i < |headings| {
      return [HeadingNoTag];
    }
    var keys := TagKeys(headings);
    i := 1;
    assert keys[0..] == keys;
    while i < |keys|
      invariant 1 <= i <= |keys|
      invariant Falling(keys) <==> Falling(keys[i - 1..])
    {
      assert keys[i - 1..][1..] == keys[i..];
      if !KeyLess(keys[i], keys[i - 1]) {
        return [OutOfOrder];
      }
      i := i + 1;
    }
    faults := [];
  }

  /** The part of the check about --tag. */
  method CheckTag(headings: seq<Heading>, tag: string) returns (faults: seq<Fault>)
    ensures faults == [] <==> Documents(headings, tag)
  {
    if tag == "" {
      return [];
    }
    if !IsTag(tag) {
      return [BadTag];
    }
    if !exists i | 0 <= i < |headings| :: headings[i].tag == tag {
      return [TagMissing];
    }
    if IsStable(tag) && NewestStable(headings) != Some(tag) {
      return [TagNotNewest];
    }
    return [];
  }

  // ------------------------------------------------ a bump establishes the check

  /** The tag is newer than the newest documented release. */
  predicate Above(tag: string, headings: seq<Heading>)
    requires IsTag(tag) && AllTags(headings)
  {
    headings == [] || KeyLess(SemverKey(headings[0].tag), SemverKey(tag))
  }

  lemma HeadingInFront(h: Heading, headings: seq<Heading>)
    requires IsTag(h.tag) && Descending(headings)
    ensures Descending([h] + headings) <==> Above(h.tag, headings)
    ensures NewestStable([h] + headings) == if IsStable(h.tag) then Some(h.tag) else NewestStable(headings)
  {
    var all := [h] + headings;
    assert all[1..] == headings;
    assert AllTags(all);
    assert TagKeys(all)[1..] == TagKeys(headings);
  }

  lemma StableBumpNames(f: Files, tag: string, date: string, latest: Option<string>)
    requires IsTag(tag) && IsStable(tag) && OneReferenceEach(f) && BumpedChangelog(f.changelog, tag, date).Some?
    ensures BothName(Bumped(f, tag, date), latest) <==> latest.None? || latest.value == tag
  {
    ReferencesSet(f.readme, tag);
    AssignedSet(f.fallback, tag);
  }

  lemma FrontHeadingDocuments(h: Heading, headings: seq<Heading>)
    requires IsTag(h.tag) && Descending(headings)
    ensures Documents([h] + headings, h.tag)
  {
    HeadingInFront(h, headings);
    assert ([h] + headings)[0].tag == h.tag;
  }

  /** From a changelog that opens with [Unreleased] and descends strictly, a bump leaves
      the files consistent exactly when the tag was the newest stable heading already or
      is new, above the newest heading and given a well-formed date; a prerelease also
      needs references that were right before, since it leaves them alone. */
  lemma BumpEstablishesCheck(f: Files, tag: string, date: string)
    requires OpensUnreleased(f.changelog) && Descending(Headings(f.changelog)) && IsTag(tag)
    requires IsStable(tag) ==> OneReferenceEach(f)
    ensures BumpedChangelog(f.changelog, tag, date).Some?
    ensures Consistent(Bumped(f, tag, date), tag) <==>
              && (if Documented(f.changelog, tag)
                  then IsStable(tag) ==> NewestStable(Headings(f.changelog)) == Some(tag)
                  else IsDate(date) && Above(tag, Headings(f.changelog)))
              && (!IsStable(tag) ==> BothName(f, NewestStable(Headings(f.changelog))))
  {
    UnreleasedIsFirst(f.changelog);
    BumpKeepsUnreleased(f.changelog, tag, date);
    if Documented(f.changelog, tag) {
      BumpOfDocumented(f, tag, date);
    } else if IsDate(date) {
      BumpOfNew(f, tag, date);
    } else {
      BumpAddsHeading(f.changelog, tag, date);
      assert Headings(Bumped(f, tag, date).changelog) == Headings(f.changelog);
    }
  }

  lemma BumpOfDocumented(f: Files, tag: string, date: string)
    requires OpensUnreleased(f.changelog) && Descending(Headings(f.changelog)) && IsTag(tag)
    requires (IsStable(tag) ==> OneReferenceEach(f)) && Documented(f.changelog, tag)
    ensures Consistent(Bumped(f, tag, date), tag) <==>
              && (IsStable(tag) ==> NewestStable(Headings(f.changelog)) == Some(tag))
              && (!IsStable(tag) ==> BothName(f, NewestStable(Headings(f.changelog))))
  {
    if IsStable(tag) {
      StableBumpNames(f, tag, date, NewestStable(Headings(f.changelog)));
    }
  }

  lemma BumpOfNew(f: Files, tag: string, date: string)
    requires OpensUnreleased(f.changelog) && Descending(Headings(f.changelog)) && IsTag(tag)
    requires (IsStable(tag) ==> OneReferenceEach(f)) && !Documented(f.changelog, tag) && IsDate(date)
    ensures BumpedChangelog(f.changelog, tag, date).Some?
    ensures Consistent(Bumped(f, tag, date), tag) <==>
              && Above(tag, Headings(f.changelog))
              && (!IsStable(tag) ==> BothName(f, NewestStable(Headings(f.changelog))))
  {
    var before := Headings(f.changelog);
    BumpAddsHeading(f.changelog, tag, date);
    BumpKeepsUnreleased(f.changelog, tag, date);
    HeadingInFront(Heading(tag, date), before);
    FrontHeadingDocuments(Heading(tag, date), before);
    if IsStable(tag) {
      StableBumpNames(f, tag, date, Some(tag));
    }
  }

  /** After such a bump of a stable tag the git comparison passes too, unless git
      already has a newer stable tag. */
  lemma BumpIsCurrent(f: Files, tag: string, date: string, git: string)
    requires OpensUnreleased(f.changelog) && Descending(Headings(f.changelog)) && IsTag(tag) && IsTag(git)
    requires IsStable(tag) && OneReferenceEach(f) && BumpedChangelog(f.changelog, tag, date).Some?
    requires Consistent(Bumped(f, tag, date), tag)
    ensures Stale(Bumped(f, tag, date), Some(git)) <==> KeyLess(SemverKey(tag), SemverKey(git))
  {
  }

  lemma SecondChangelogBump(lines: seq<string>, tag: string, date: string, later: string)
    requires OpensUnreleased(lines) && IsTag(tag) && BumpedChangelog(lines, tag, date).Some?
    ensures var once := BumpedChangelog(lines, tag, date).value;
            var twice := BumpedChangelog(once, tag, later);
            twice.Some? && (twice.value == once <==> Documented(lines, tag) || IsDate(date))
  {
    var once := BumpedChangelog(lines, tag, date).value;
    BumpKeepsUnreleased(lines, tag, date);
    UnreleasedIsFirst(once);
    DocumentedAfter(lines, tag, date);
    if !Documented(once, tag) {
      BumpOnlyInserts(once, tag, later);
    }
  }

  lemma DocumentedAfter(lines: seq<string>, tag: string, date: string)
    requires OpensUnreleased(lines) && IsTag(tag) && BumpedChangelog(lines, tag, date).Some?
    ensures Documented(BumpedChangelog(lines, tag, date).value, tag) <==> Documented(lines, tag) || IsDate(date)
  {
    if !Documented(lines, tag) {
      BumpAddsHeading(lines, tag, date);
      if IsDate(date) {
        assert Headings(BumpedChangelog(lines, tag, date).value)[0].tag == tag;
      } else {
        assert Headings(BumpedChangelog(lines, tag, date).value) == Headings(lines);
      }
    }
  }

  /** A second bump of the tag changes nothing, whatever its date, exactly when the
      first left the tag documented. */
  lemma SecondBump(f: Files, tag: string, date: string, later: string)
    requires OpensUnreleased(f.changelog) && IsTag(tag)
    ensures BumpedChangelog(f.changelog, tag, date).Some?
    ensures BumpedChangelog(Bumped(f, tag, date).changelog, tag, later).Some?
    ensures Bumped(Bumped(f, tag, date), tag, later) == Bumped(f, tag, date)
            <==> Documented(f.changelog, tag) || IsDate(date)
  {
    UnreleasedIsFirst(f.changelog);
    SecondChangelogBump(f.changelog, tag, date, later);
    ReferencesTwice(f.readme, tag);
    AssignedTwice(f.fallback, tag);
  }

  lemma ReferencesTwice(lines: seq<string>, tag: string)
    requires IsTag(tag)
    ensures WithReference(WithReference(lines, tag), tag) == WithReference(lines, tag)
    ensures |References(WithReference(lines, tag))| == |References(lines)|
  {
    TagMakesReference(tag);
    ReferencesSet(lines, tag);
  }

  lemma AssignedTwice(pieces: seq<Piece>, tag: string)
    ensures WithAssigned(WithAssigned(pieces, tag), tag) == WithAssigned(pieces, tag)
    ensures |Assigned(WithAssigned(pieces, tag))| == |Assigned(pieces)|
  {
    AssignedSet(pieces, tag);
  }

  // -------------------------------------------------- what a tag and its key are

  predicate Number(x: string) {
    x != [] && AllDigits(x)
  }

  /** The tag says version x.y.z, in digits, and the prerelease, if any. */
  predicate Says(t: string, x: string, y: string, z: string, pre: string) {
    && Number(x) && Number(y) && Number(z) && (forall i | 0 <= i < |pre| :: PreChar(pre[i]))
    && t == "v" + x + "." + y + "." + z + (if pre == "" then "" else "-" + pre)
  }

  lemma {:induction false} NumberEndIs(t: string, i: nat, k: nat)
    requires i <= k <= |t| && (forall j | i <= j < k :: IsDigit(t[j])) && (k == |t| || !IsDigit(t[k]))
    ensures NumberEnd(t, i) == k
    decreases k - i
  {
    if i < k {
      NumberEndIs(t, i + 1, k);
    }
  }

  lemma {:induction false} PreEndIsAll(t: string, i: nat)
    requires i <= |t| && forall j | i <= j < |t| :: PreChar(t[j])
    ensures PreEnd(t, i) == |t|
    decreases |t| - i
  {
    if i < |t| {
      PreEndIsAll(t, i + 1);
    }
  }

  lemma {:induction false} NumberDigits(t: string, i: nat)
    requires i <= |t|
    ensures AllDigits(t[i..NumberEnd(t, i)])
    decreases |t| - i
  {
    if i < |t| && IsDigit(t[i]) {
      NumberDigits(t, i + 1);
      assert t[i..NumberEnd(t, i)] == [t[i]] + t[i + 1..NumberEnd(t, i)];
    }
  }

  lemma {:induction false} PreCharsOnly(t: string, i: nat)
    requires i <= |t|
    ensures forall j | i <= j < PreEnd(t, i) :: PreChar(t[j])
    decreases |t| - i
  {
    if i < |t| && PreChar(t[i]) {
      PreCharsOnly(t, i + 1);
    }
  }

  lemma {:induction false} IntOfIsValue(t: string, lo: nat, hi: nat)
    requires lo <= hi <= |t| && AllDigits(t[lo..hi])
    ensures IntOf(t, lo, hi) == Value(t[lo..hi])
    decreases hi
  {
    if lo < hi {
      assert t[lo..hi][..hi - lo - 1] == t[lo..hi - 1];
      assert AllDigits(t[lo..hi - 1]) by {
        assert forall i | 0 <= i < hi - 1 - lo :: t[lo..hi - 1][i] == t[lo..hi][i];
      }
      IntOfIsValue(t, lo, hi - 1);
    }
  }

  /** Where a tag's parts end. */
  ghost predicate CutAt(t: string, a: nat, b: nat, c: nat) {
    && 1 < a && a + 1 < b && b + 1 < c <= |t|
    && t[0] == 'v' && t[a] == '.' && t[b] == '.' && (c < |t| ==> t[c] == '-' && c + 1 < |t|)
  }

  lemma TagCuts(t: string)
    requires IsTag(t)
    ensures var a := NumberEnd(t, 1);
            a < |t| &&
            var b := NumberEnd(t, a + 1);
            b < |t| &&
            var c := NumberEnd(t, b + 1);
            CutAt(t, a, b, c) && (c < |t| ==> PreEnd(t, c + 1) == |t|)
  {
  }

  /** Every tag says a version. */
  lemma TagSays(t: string)
    requires IsTag(t)
    ensures exists x, y, z, pre :: Says(t, x, y, z, pre)
  {
    TagCuts(t);
    var a := NumberEnd(t, 1);
    var b := NumberEnd(t, a + 1);
    var c := NumberEnd(t, b + 1);
    NumberDigits(t, 1);
    NumberDigits(t, a + 1);
    NumberDigits(t, b + 1);
    if c < |t| {
      PreCharsOnly(t, c + 1);
    }
    CutsSay(t, a, b, c);
  }

  lemma CutsSay(t: string, a: nat, b: nat, c: nat)
    requires CutAt(t, a, b, c) && AllDigits(t[1..a]) && AllDigits(t[a + 1..b]) && AllDigits(t[b + 1..c])
    requires c < |t| ==> forall j | c + 1 <= j < |t| :: PreChar(t[j])
    ensures exists x, y, z, pre :: Says(t, x, y, z, pre)
  {
    TagInParts(t, a, b, c);
    var pre := if c == |t| then "" else t[c + 1..];
    assert Says(t, t[1..a], t[a + 1..b], t[b + 1..c], pre);
  }

  lemma TagInParts(t: string, a: nat, b: nat, c: nat)
    requires 1 < a < b < c <= |t| && t[0] == 'v' && t[a] == '.' && t[b] == '.' && (c < |t| ==> t[c] == '-')
    ensures t == "v" + t[1..a] + "." + t[a + 1..b] + "." + t[b + 1..c] + (if c == |t| then "" else "-" + t[c + 1..])
  {
    assert t == t[..a] + t[a..] && t[..a] == "v" + t[1..a];
    assert t[a..] == "." + t[a + 1..b] + t[b..];
    assert t[b..] == "." + t[b + 1..c] + t[c..];
  }

  /** What says a version is a tag, and its key is made of the numbers, a rank for being
      stable, and the prerelease. */
  lemma KeyOfTag(t: string, x: string, y: string, z: string, pre: string)
    requires Says(t, x, y, z, pre)
    ensures IsTag(t)
    ensures SemverKey(t) == Key([Value(x), Value(y), Value(z)], if pre == "" then 1 else 0, Codes(pre))
  {
    var a := 1 + |x|;
    var b := a + 1 + |y|;
    var c := b + 1 + |z|;
    PartsInTag(t, x, y, z, pre, a, b, c);
    KeyOfParts(t, x, y, z, pre, a, b, c);
  }

  lemma KeyOfParts(t: string, x: string, y: string, z: string, pre: string, a: nat, b: nat, c: nat)
    requires Number(x) && Number(y) && Number(z) && (forall i | 0 <= i < |pre| :: PreChar(pre[i]))
    requires CutAt(t, a, b, c) && t[1..a] == x && t[a + 1..b] == y && t[b + 1..c] == z
    requires (pre == "" <==> c == |t|) && (c < |t| ==> t[c + 1..] == pre)
    ensures IsTag(t)
    ensures SemverKey(t) == Key([Value(x), Value(y), Value(z)], if pre == "" then 1 else 0, Codes(pre))
  {
    DigitsPlaced(t, 1, a, x);
    DigitsPlaced(t, a + 1, b, y);
    DigitsPlaced(t, b + 1, c, z);
    if c < |t| {
      PrePlaced(t, c + 1, pre);
    }
    KeyFromCuts(t, a, b, c);
  }

  lemma PrePlaced(t: string, i: nat, pre: string)
    requires i <= |t| && t[i..] == pre && forall j | 0 <= j < |pre| :: PreChar(pre[j])
    ensures PreEnd(t, i) == |t|
  {
    assert forall j | i <= j < |t| :: t[j] == t[i..][j - i];
    PreEndIsAll(t, i);
  }

  lemma KeyFromCuts(t: string, a: nat, b: nat, c: nat)
    requires CutAt(t, a, b, c) && NumberEnd(t, 1) == a && NumberEnd(t, a + 1) == b && NumberEnd(t, b + 1) == c
    requires c < |t| ==> PreEnd(t, c + 1) == |t|
    ensures IsTag(t)
    ensures SemverKey(t) == Key([IntOf(t, 1, a), IntOf(t, a + 1, b), IntOf(t, b + 1, c)],
                                if c == |t| then 1 else 0, if c == |t| then [] else Codes(t[c + 1..]))
  {
    TagFromCuts(t, a, b, c);
  }

  lemma TagFromCuts(t: string, a: nat, b: nat, c: nat)
    requires CutAt(t, a, b, c) && NumberEnd(t, 1) == a && NumberEnd(t, a + 1) == b && NumberEnd(t, b + 1) == c
    requires c < |t| ==> PreEnd(t, c + 1) == |t|
    ensures IsTag(t)
  {
  }

  lemma PartsInTag(t: string, x: string, y: string, z: string, pre: string, a: nat, b: nat, c: nat)
    requires Says(t, x, y, z, pre) && a == 1 + |x| && b == a + 1 + |y| && c == b + 1 + |z|
    ensures c <= |t| && t[0] == 'v' && t[1..a] == x && t[a] == '.' && t[a + 1..b] == y && t[b] == '.'
    ensures t[b + 1..c] == z && (pre == "" <==> c == |t|) && (pre != "" ==> t[c] == '-' && t[c + 1..] == pre)
  {
  }

  lemma DigitsPlaced(t: string, lo: nat, hi: nat, x: string)
    requires lo < hi <= |t| && t[lo..hi] == x && AllDigits(x) && (hi == |t| || !IsDigit(t[hi]))
    ensures NumberEnd(t, lo) == hi && IntOf(t, lo, hi) == Value(x)
  {
    assert forall j | lo <= j < hi :: t[j] == t[lo..hi][j - lo];
    NumberEndIs(t, lo, hi);
    IntOfIsValue(t, lo, hi);
  }

  /** Text order: a proper beginning comes first, else the first difference decides. */
  ghost predicate TextBefore(p: string, q: string) {
    exists k | 0 <= k <= |p| && k <= |q| :: Parts(p, q, k)
  }

  ghost predicate Parts(p: string, q: string, k: nat)
    requires k <= |p| && k <= |q|
  {
    p[..k] == q[..k] && ((k == |p| && k < |q|) || (k < |p| && k < |q| && p[k] < q[k]))
  }

  lemma {:induction false} LexIsTextOrder(p: string, q: string)
    ensures LexLess(Codes(p), Codes(q)) <==> TextBefore(p, q)
  {
    if p != [] && q != [] && p[0] == q[0] {
      LexIsTextOrder(p[1..], q[1..]);
      assert Codes(p)[1..] == Codes(p[1..]) && Codes(q)[1..] == Codes(q[1..]);
      TextOrderTail(p, q);
    } else {
      assert Parts(p, q, 0) <==> LexLess(Codes(p), Codes(q));
      assert forall k | 0 < k <= |p| && k <= |q| :: p[..k][0] == p[0] && q[..k][0] == q[0];
    }
  }

  lemma TextOrderTail(p: string, q: string)
    requires p != [] && q != [] && p[0] == q[0]
    ensures TextBefore(p, q) <==> TextBefore(p[1..], q[1..])
  {
    if TextBefore(p, q) {
      var k :| 0 <= k <= |p| && k <= |q| && Parts(p, q, k);
      assert p[1..][..k - 1] == p[..k][1..] && q[1..][..k - 1] == q[..k][1..];
      assert Parts(p[1..], q[1..], k - 1);
    }
    if TextBefore(p[1..], q[1..]) {
      var k :| 0 <= k <= |p[1..]| && k <= |q[1..]| && Parts(p[1..], q[1..], k);
      assert p[..k + 1] == [p[0]] + p[1..][..k] && q[..k + 1] == [q[0]] + q[1..][..k];
      assert Parts(p, q, k + 1);
    }
  }

  lemma LexHead(x: int, s: seq<int>, y: int, t: seq<int>)
    ensures LexLess([x] + s, [y] + t) <==> x < y || (x == y && LexLess(s, t))
  {
    assert ([x] + s)[1..] == s && ([y] + t)[1..] == t;
  }

  lemma ThreeNumbers(a: int, b: int, c: int, d: int, e: int, f: int)
    ensures LexLess([a, b, c], [d, e, f]) <==> a < d || (a == d && (b < e || (b == e && c < f)))
    ensures [a, b, c] == [d, e, f] <==> a == d && b == e && c == f
  {
    assert [a, b, c] == [a] + ([b] + ([c] + [])) && [d, e, f] == [d] + ([e] + ([f] + []));
    LexHead(a, [b] + ([c] + []), d, [e] + ([f] + []));
    LexHead(b, [c] + [], e, [f] + []);
    LexHead(c, [], f, []);
    SameThree(a, b, c, d, e, f);
  }

  lemma SameThree(a: int, b: int, c: int, d: int, e: int, f: int)
    ensures [a, b, c] == [d, e, f] <==> a == d && b == e && c == f
  {
    var s, t := [a, b, c], [d, e, f];
    assert s == t ==> s[0] == t[0] && s[1] == t[1] && s[2] == t[2];
  }

  /** A version: three numbers and the text of the prerelease, if any. */
  datatype Version = Version(a: nat, b: nat, c: nat, pre: string)

  /** The tag names the version. */
  ghost predicate Names(t: string, v: Version) {
    exists x, y, z :: Says(t, x, y, z, v.pre) && Value(x) == v.a && Value(y) == v.b && Value(z) == v.c
  }

  function KeyOf(v: Version): Key {
    Key([v.a, v.b, v.c], if v.pre == "" then 1 else 0, Codes(v.pre))
  }

  lemma KeyOfVersion(t: string, v: Version)
    requires Names(t, v)
    ensures IsTag(t) && SemverKey(t) == KeyOf(v)
  {
    var x, y, z :| Says(t, x, y, z, v.pre) && Value(x) == v.a && Value(y) == v.b && Value(z) == v.c;
    KeyOfTag(t, x, y, z, v.pre);
  }

  /** Every tag names a version, and only tags do. */
  lemma TagsNameVersions(t: string)
    ensures IsTag(t) <==> exists v :: Names(t, v)
  {
    if IsTag(t) {
      TagSays(t);
      var x, y, z, pre :| Says(t, x, y, z, pre);
      assert Names(t, Version(Value(x), Value(y), Value(z), pre));
    }
    if v :| Names(t, v) {
      KeyOfVersion(t, v);
    }
  }

  /** The order of versions: by the three numbers; of equal ones, a prerelease comes before
      the stable release and two prereleases compare as text. */
  ghost predicate Earlier(v: Version, w: Version) {
    || v.a < w.a
    || (v.a == w.a && v.b < w.b)
    || (v.a == w.a && v.b == w.b && v.c < w.c)
    || (v.a == w.a && v.b == w.b && v.c == w.c && v.pre != "" && (w.pre == "" || TextBefore(v.pre, w.pre)))
  }

  lemma KeysOrderVersions(v: Version, w: Version)
    ensures KeyLess(KeyOf(v), KeyOf(w)) <==> Earlier(v, w)
  {
    ThreeNumbers(v.a, v.b, v.c, w.a, w.b, w.c);
    LexIsTextOrder(v.pre, w.pre);
    EmptyIsNotLater(v.pre);
  }

  lemma EmptyIsNotLater(p: string)
    ensures !TextBefore(p, "")
  {
  }

  /** Two headings are in order exactly when the first names the later version. */
  lemma HeadingsOrderVersions(first: Heading, v: Version, second: Heading, w: Version)
    requires Names(first.tag, v) && Names(second.tag, w)
    ensures Descending([first, second]) <==> Earlier(w, v)
    ensures IsStable(first.tag) <==> v.pre == ""
  {
    KeyOfVersion(first.tag, v);
    KeyOfVersion(second.tag, w);
    KeysOrderVersions(w, v);
    TwoHeadings(first, second);
    StableByPre(first.tag, v);
  }

  /** A version is newer than the newest documented one exactly when it is later. */
  lemma AboveIsLater(tag: string, v: Version, headings: seq<Heading>, w: Version)
    requires Names(tag, v) && AllTags(headings) && headings != [] && Names(headings[0].tag, w)
    ensures IsTag(tag) && (Above(tag, headings) <==> Earlier(w, v))
  {
    KeyOfVersion(tag, v);
    KeyOfVersion(headings[0].tag, w);
    KeysOrderVersions(w, v);
  }

  lemma StableByPre(t: string, v: Version)
    requires Names(t, v)
    ensures IsStable(t) <==> v.pre == ""
  {
    var x, y, z :| Says(t, x, y, z, v.pre) && Value(x) == v.a && Value(y) == v.b && Value(z) == v.c;
    StableHasNoHyphen(t, x, y, z, v.pre);
  }

  /** The tag of a version with its numbers in decimal. */
  function VersionTag(v: Version): string {
    "v" + Itoa(v.a) + "." + Itoa(v.b) + "." + Itoa(v.c) + (if v.pre == "" then "" else "-" + v.pre)
  }

  lemma VersionTagNames(v: Version)
    requires forall i | 0 <= i < |v.pre| :: PreChar(v.pre[i])
    ensures Names(VersionTag(v), v)
  {
    ItoaRoundTrip(v.a);
    ItoaRoundTrip(v.b);
    ItoaRoundTrip(v.c);
    assert Says(VersionTag(v), Itoa(v.a), Itoa(v.b), Itoa(v.c), v.pre);
  }

  lemma TwoHeadings(first: Heading, second: Heading)
    requires IsTag(first.tag) && IsTag(second.tag)
    ensures Descending([first, second]) <==> KeyLess(SemverKey(second.tag), SemverKey(first.tag))
  {
    var hs := [first, second];
    assert AllTags(hs);
    TagKeyAt(hs, 0);
    TagKeyAt(hs, 1);
    TwoFall(TagKeys(hs));
  }

  lemma TwoFall(keys: seq<Key>)
    requires |keys| == 2
    ensures Falling(keys) <==> KeyLess(keys[1], keys[0])
  {
    assert |keys[1..]| == 1;
  }

  lemma StableHasNoHyphen(t: string, x: string, y: string, z: string, pre: string)
    requires Says(t, x, y, z, pre)
    ensures IsStable(t) <==> pre == ""
  {
    PartsInTag(t, x, y, z, pre, 1 + |x|, 2 + |x| + |y|, 3 + |x| + |y| + |z|);
    if pre == "" {
      assert t == "v" + x + "." + y + "." + z;
      DigitsNoHyphen(t, x, y, z);
    } else {
      assert t[3 + |x| + |y| + |z|] == '-';
    }
  }

  lemma DigitsNoHyphen(t: string, x: string, y: string, z: string)
    requires AllDigits(x) && AllDigits(y) && AllDigits(z) && t == "v" + x + "." + y + "." + z
    ensures '-' !in t
  {
    var a := 1 + |x|;
    var b := a + 1 + |y|;
    forall i | 0 <= i < |t|
      ensures t[i] != '-'
    {
      if 0 < i < a {
        assert t[i] == x[i - 1];
      } else if a < i < b {
        assert t[i] == y[i - a - 1];
      } else if b < i {
        assert t[i] == z[i - b - 1];
      }
    }
  }

  // ------------------------------------------------ headings and entries, exactly

  lemma {:induction false} BracketEndStops(line: string, i: nat)
    requires i <= |line|
    ensures var k := BracketEnd(line, i);
            (k < |line| ==> line[k] == ']') && forall j | i <= j < k :: line[j] != ']'
    decreases |line| - i
  {
    if i < |line| && line[i] != ']' {
      BracketEndStops(line, i + 1);
    }
  }

  /** A line is a heading exactly when it is written like one with a well-formed date. */
  lemma HeadingsExactly(line: string, h: Heading)
    ensures ParseHeading(line) == Some(h) <==>
              && line == HeadingLine(h.tag, h.date) && IsDate(h.date)
              && |h.tag| >= 2 && h.tag[0] == 'v' && ']' !in h.tag
  {
    if |h.tag| >= 2 && h.tag[0] == 'v' && ']' !in h.tag && line == HeadingLine(h.tag, h.date) {
      HeadingRoundTrip(h.tag, h.date);
    }
    if ParseHeading(line) == Some(h) {
      ParsedHeading(line, h);
    }
  }

  lemma ParsedHeading(line: string, h: Heading)
    requires ParseHeading(line) == Some(h)
    ensures line == HeadingLine(h.tag, h.date) && IsDate(h.date)
    ensures |h.tag| >= 2 && h.tag[0] == 'v' && ']' !in h.tag
  {
    BracketEndStops(line, 4);
    var k := BracketEnd(line, 4);
    HeadingInParts(line, k);
    SameDate(line, k + 4, h.date);
    assert forall j | 0 <= j < |h.tag| :: h.tag[j] == line[4 + j];
  }

  lemma HeadingInParts(line: string, k: nat)
    requires StartsSection(line) && 4 <= k && k + 4 <= |line| && line[3] == '[' && line[k] == ']'
    requires line[k + 1] == ' ' && line[k + 2] == '—' && line[k + 3] == ' '
    ensures line == HeadingLine(line[4..k], line[k + 4..])
  {
    assert line[..4] == "## [" && line[k..k + 4] == "] — ";
    assert line == line[..4] + line[4..k] + line[k..k + 4] + line[k + 4..];
  }

  /** The lines of the section that starts at line i. */
  function SectionBody(lines: seq<string>, i: nat): seq<string>
    requires i < |lines|
  {
    lines[i + 1..NextSection(lines, i + 1)]
  }

  predicate AllBlank(lines: seq<string>) {
    forall i | 0 <= i < |lines| :: Blank(lines[i])
  }

  /** The entries gathered under [Unreleased] become those of the new heading, and none stay
      behind; where there were none, the new section holds the placeholder. */
  lemma BumpMovesEntries(lines: seq<string>, tag: string, date: string) returns (h: nat)
    requires OpensUnreleased(lines) && BumpedChangelog(lines, tag, date).Some? && !Documented(lines, tag)
    ensures var after := BumpedChangelog(lines, tag, date).value;
            var u := UnreleasedAt(lines);
            && u < h < |after| && u < |lines| && after[u] == Unreleased && after[h] == HeadingLine(tag, date)
            && NextSection(after, u + 1) == h && AllBlank(SectionBody(after, u))
            && SectionBody(after, h) ==
                 if AllBlank(SectionBody(lines, u)) then ["", Placeholder, ""] else SectionBody(lines, u)
  {
    UnreleasedIsFirst(lines);
    var u := UnreleasedAt(lines);
    var nxt := NextSection(lines, u + 1);
    BlankBody(lines, u, nxt);
    var line := HeadingLine(tag, date);
    HeadingChars(tag, date, line);
    if AllBlank(lines[u + 1..nxt]) {
      h := nxt;
      PlaceholderSection(lines, u, nxt, line);
    } else {
      h := u + 2;
      PromotedSection(lines, u, nxt, line);
    }
  }

  lemma BlankBody(lines: seq<string>, u: nat, nxt: nat)
    requires u < nxt <= |lines|
    ensures AllBlank(lines[u + 1..nxt]) <==> !exists i | u < i < nxt :: !Blank(lines[i])
  {
    var body := lines[u + 1..nxt];
    assert forall i | u < i < nxt :: lines[i] == body[i - u - 1];
  }

  lemma PromotedSection(lines: seq<string>, u: nat, nxt: nat, line: string)
    requires u < nxt <= |lines| && nxt == NextSection(lines, u + 1) && StartsSection(line)
    ensures var after := lines[..u + 1] + ["", line] + lines[u + 1..];
            && NextSection(after, u + 1) == u + 2 && AllBlank(SectionBody(after, u))
            && after[u + 2] == line && SectionBody(after, u + 2) == lines[u + 1..nxt]
  {
    var after := lines[..u + 1] + ["", line] + lines[u + 1..];
    NextSectionIs(after, u + 1, u + 2);
    assert forall i | u + 3 <= i < |after| :: after[i] == lines[i - 2];
    NextSectionIs(after, u + 3, nxt + 2);
    assert after[u + 3..nxt + 2] == lines[u + 1..nxt];
  }

  lemma PlaceholderSection(lines: seq<string>, u: nat, nxt: nat, line: string)
    requires u < nxt <= |lines| && nxt == NextSection(lines, u + 1) && StartsSection(line)
    requires AllBlank(lines[u + 1..nxt])
    ensures var after := lines[..nxt] + [line, "", Placeholder, ""] + lines[nxt..];
            && NextSection(after, u + 1) == nxt && AllBlank(SectionBody(after, u))
            && after[nxt] == line && SectionBody(after, nxt) == ["", Placeholder, ""]
  {
    var after := lines[..nxt] + [line, "", Placeholder, ""] + lines[nxt..];
    assert Placeholder[0] == 'N';
    assert forall i | u < i < nxt :: after[i] == lines[i];
    NextSectionIs(after, u + 1, nxt);
    assert after[u + 1..nxt] == lines[u + 1..nxt];
    assert nxt < |lines| ==> after[nxt + 4] == lines[nxt];
    NextSectionIs(after, nxt + 1, nxt + 4);
  }

  /** A README line is a reference exactly when it assigns a tag without white space. */
  lemma ReferencesExactly(line: string, tag: string)
    ensures OneReference(line) == [tag] <==>
              && line == "VERSION=" + tag && |tag| >= 2 && tag[0] == 'v'
              && forall i | 1 <= i < |tag| :: !BlankChar(tag[i])
  {
    var whole := "VERSION=" + tag;
    assert whole[8..] == tag && |whole| == |tag| + 8;
    assert forall i | 8 <= i < |whole| :: whole[i] == tag[i - 8];
    if IsReference(line) {
      assert line == line[..9][..8] + line[8..] && line[..9][..8] == "VERSION=";
      assert line[8] == line[..9][8] == 'v';
    }
    if |tag| >= 2 && tag[0] == 'v' {
      assert whole[..9] == "VERSION=v";
    }
  }
}
