/** collapseTrailingDuplicateWord, cmd/gophertrunk/import_writer.go: the name under which
    an imported system enters the configuration. */
module NameCollapse {
  import opened Text

  /** strings.Fields: the words between white space. */
  function Fields(s: string, word: string): seq<string> {
    if s == [] then (if word == [] then [] else [word])
    else if IsSpace(s[0]) then (if word == [] then [] else [word]) + Fields(s[1..], [])
    else Fields(s[1..], word + [s[0]])
  }

  /** strings.LastIndex, or -1. */
  function LastIndex(s: string, sub: string): (k: int)
    ensures -1 <= k <= |s|
  {
    LastIndexFrom(s, sub, |s|)
  }

  function LastIndexFrom(s: string, sub: string, k: nat): (r: int)
    requires k <= |s|
    ensures -1 <= r <= k
  {
    if sub <= s[k..] then k else if k == 0 then -1 else LastIndexFrom(s, sub, k - 1)
  }

  predicate IsBlank(c: char) {
    c == ' ' || c == '\t'
  }

  /** strings.TrimRight(s, " \t"). */
  function TrimBlanks(s: string): (t: string)
    ensures t <= s
  {
    if s != [] && IsBlank(s[|s| - 1]) then TrimBlanks(s[..|s| - 1]) else s
  }

  /** collapseTrailingDuplicateWord. */
  function Collapse(name: string): (r: string)
    ensures r <= name
  {
    var fields := Fields(name, []);
    if |fields| < 2 then name
    else
      var last := fields[|fields| - 1];
      if Lower(last) != Lower(fields[|fields| - 2]) then name
      else
        var trimmed := TrimBlanks(name);
        var cut := LastIndex(trimmed, last);
        if cut <= 0 then name else TrimBlanks(trimmed[..cut])
  }

  // ---------------------------------------------------- where the last word is

  predicate NoSpace(s: string) {
    forall i | 0 <= i < |s| :: !IsSpace(s[i])
  }

  /** The text before a word: nothing, or something up to white space. */
  predicate EndsInSpace(s: string) {
    s == [] || IsSpace(s[|s| - 1])
  }

  lemma {:induction false} NoFieldsNoWord(s: string, word: string)
    requires Fields(s, word) == []
    ensures word == [] && AllSpace(s)
  {
    if s != [] {
      NoFieldsNoWord(s[1..], if IsSpace(s[0]) then [] else word + [s[0]]);
      assert s == [s[0]] + s[1..];
    }
  }

  lemma OnlyWord(s: string, word: string)
    requires s != [] && IsSpace(s[0]) && Fields(s[1..], []) == [] && Fields(s, word) != []
    ensures Fields(s, word) == [word] && word != [] && AllSpace(s)
  {
    NoFieldsNoWord(s[1..], []);
    assert s == [s[0]] + s[1..];
  }

  lemma SameLast(s: string, word: string)
    requires s != [] && IsSpace(s[0]) && Fields(s[1..], []) != []
    ensures Fields(s, word) != []
    ensures Fields(s, word)[|Fields(s, word)| - 1] == Fields(s[1..], [])[|Fields(s[1..], [])| - 1]
  {
  }

  /** The last word is followed by white space only. */
  lemma {:induction false} LastWordPlaced(s: string, word: string) returns (before: string, after: string)
    requires Fields(s, word) != [] && NoSpace(word)
    ensures var last := Fields(s, word)[|Fields(s, word)| - 1];
            word + s == before + last + after && AllSpace(after) && NoSpace(last) && last != []
    ensures EndsInSpace(before)
  {
    if s == [] {
      before, after := [], [];
      assert word + s == word == [] + word + [];
    } else if IsSpace(s[0]) {
      var rest := Fields(s[1..], []);
      if rest == [] {
        OnlyWord(s, word);
        before, after := [], s;
        assert word + s == [] + word + s;
      } else {
        before, after := LastWordPlaced(s[1..], []);
        SameLast(s, word);
        assert [] + s[1..] == s[1..];
        SplitAgain(word, s, before, rest[|rest| - 1], after);
        before := word + [s[0]] + before;
      }
    } else {
      before, after := LastWordPlaced(s[1..], word + [s[0]]);
      assert word + [s[0]] + s[1..] == word + s;
    }
  }

  lemma SplitAgain(word: string, s: string, before: string, last: string, after: string)
    requires s != [] && s[1..] == before + last + after
    ensures word + s == (word + [s[0]] + before) + last + after
  {
    assert s == [s[0]] + s[1..];
  }

  lemma {:induction false} TrimBlanksKeeps(s: string, m: nat)
    requires m <= |s| && (m > 0 ==> !IsSpace(s[m - 1]))
    ensures |TrimBlanks(s)| >= m
  {
    if m < |s| && IsBlank(s[|s| - 1]) {
      TrimBlanksKeeps(s[..|s| - 1], m);
    }
  }

  lemma {:induction false} TrimRightStops(s: string, m: nat)
    requires m <= |s| && (m > 0 ==> !IsSpace(s[m - 1])) && forall i | m <= i < |s| :: IsSpace(s[i])
    ensures |TrimRight(s)| == m
  {
    if m < |s| {
      TrimRightStops(s[..|s| - 1], m);
    }
  }

  lemma {:induction false} LastIndexFound(s: string, sub: string, k: nat, p: nat)
    requires p <= k <= |s| && sub <= s[p..] && forall j | p < j <= k :: !(sub <= s[j..])
    ensures LastIndexFrom(s, sub, k) == p
  {
    if k > p {
      LastIndexFound(s, sub, k - 1, p);
    }
  }

  /** Nothing after the last word can hold it again. */
  lemma NotAgain(s: string, p: nat, last: string, j: nat)
    requires p < j <= |s| && p + |last| <= |s| && NoSpace(last) && last != []
    requires forall i | p + |last| <= i < |s| :: IsSpace(s[i])
    ensures !(last <= s[j..])
  {
    if j + |last| <= |s| {
      assert s[j..][|last| - 1] == s[j + |last| - 1];
      assert IsSpace(s[j + |last| - 1]) && !IsSpace(last[|last| - 1]);
    }
  }

  /** The cut is where the last word starts: at its length before the end of the name,
      white space aside. */
  lemma CutIsLastWord(name: string)
    requires Fields(name, []) != []
    ensures var fields := Fields(name, []);
            var last := fields[|fields| - 1];
            LastIndex(TrimBlanks(name), last) == |TrimRight(name)| - |last|
  {
    var fields := Fields(name, []);
    var last := fields[|fields| - 1];
    var before, after := LastWordPlaced(name, []);
    assert [] + name == name;
    WordAt(name, before, last, after);
    var p, m := |before|, |before| + |last|;
    TrimRightStops(name, m);
    TrimBlanksKeeps(name, m);
    FoundInTrimmed(name, p, last);
  }

  lemma WordAt(name: string, before: string, last: string, after: string)
    requires name == before + last + after && AllSpace(after) && NoSpace(last) && last != []
    ensures var p := |before|;
            var m := p + |last|;
            && m <= |name| && name[p..m] == last && !IsSpace(name[m - 1])
            && forall i | m <= i < |name| :: IsSpace(name[i])
  {
    var p, m := |before|, |before| + |last|;
    assert name[p..m] == last;
    assert name[m - 1] == last[|last| - 1];
    assert forall i | m <= i < |name| :: name[i] == after[i - m];
  }

  lemma FoundInTrimmed(name: string, p: nat, last: string)
    requires p + |last| <= |TrimBlanks(name)| && name[p..p + |last|] == last && NoSpace(last) && last != []
    requires forall i | p + |last| <= i < |name| :: IsSpace(name[i])
    ensures LastIndex(TrimBlanks(name), last) == p
  {
    var t := TrimBlanks(name);
    assert t == name[..|t|];
    assert t[p..][..|last|] == last;
    forall j | p < j <= |t|
      ensures !(last <= t[j..])
    {
      NotAgain(t, p, last, j);
    }
    LastIndexFound(t, last, |t|, p);
  }

  // -------------------------------------------- the collapse up to case

  /** Equal up to case. */
  predicate Alike(a: string, b: string) {
    Lower(a) == Lower(b)
  }

  predicate AlikeChars(a: string, b: string) {
    |a| == |b| && forall i | 0 <= i < |a| :: LowerChar(a[i]) == LowerChar(b[i])
  }

  lemma AlikeByChars(a: string, b: string)
    ensures Alike(a, b) <==> AlikeChars(a, b)
  {
    LowerChars(a);
    LowerChars(b);
    if AlikeChars(a, b) {
      assert forall i | 0 <= i < |a| :: Lower(a)[i] == Lower(b)[i];
    }
    if Alike(a, b) {
      assert forall i | 0 <= i < |a| :: LowerChar(a[i]) == Lower(a)[i] == Lower(b)[i] == LowerChar(b[i]);
    }
  }

  lemma SameKind(c: char, d: char)
    requires LowerChar(c) == LowerChar(d)
    ensures IsSpace(c) == IsSpace(d) && IsBlank(c) == IsBlank(d)
  {
  }

  lemma {:induction false} FieldsAlike(a: string, b: string, u: string, v: string)
    requires AlikeChars(a, b) && AlikeChars(u, v)
    ensures |Fields(a, u)| == |Fields(b, v)|
    ensures forall i | 0 <= i < |Fields(a, u)| :: AlikeChars(Fields(a, u)[i], Fields(b, v)[i])
  {
    if a != [] {
      SameKind(a[0], b[0]);
      if IsSpace(a[0]) {
        FieldsAlike(a[1..], b[1..], [], []);
      } else {
        FieldsAlike(a[1..], b[1..], u + [a[0]], v + [b[0]]);
      }
    }
  }

  lemma {:induction false} TrimRightAlike(a: string, b: string)
    requires AlikeChars(a, b)
    ensures |TrimRight(a)| == |TrimRight(b)|
  {
    if a != [] {
      SameKind(a[|a| - 1], b[|b| - 1]);
      TrimRightAlike(a[..|a| - 1], b[..|b| - 1]);
    }
  }

  lemma {:induction false} TrimBlanksAlike(a: string, b: string)
    requires AlikeChars(a, b)
    ensures AlikeChars(TrimBlanks(a), TrimBlanks(b))
  {
    if a != [] {
      SameKind(a[|a| - 1], b[|b| - 1]);
      TrimBlanksAlike(a[..|a| - 1], b[..|b| - 1]);
    }
  }

  /** The last two words are the same up to case. */
  predicate Doubled(name: string) {
    var fields := Fields(name, []);
    |fields| >= 2 && Lower(fields[|fields| - 1]) == Lower(fields[|fields| - 2])
  }

  function Cut(name: string): int
    requires Fields(name, []) != []
  {
    var fields := Fields(name, []);
    LastIndex(TrimBlanks(name), fields[|fields| - 1])
  }

  lemma CollapseByCut(name: string)
    ensures Collapse(name) ==
              if Doubled(name) && Cut(name) > 0 then TrimBlanks(TrimBlanks(name)[..Cut(name)]) else name
  {
  }

  lemma DoubledAlike(a: string, b: string)
    requires AlikeChars(a, b)
    ensures Doubled(a) <==> Doubled(b)
  {
    FieldsAlike(a, b, [], []);
    var n := |Fields(a, [])|;
    if n >= 2 {
      AlikeByChars(Fields(a, [])[n - 1], Fields(b, [])[n - 1]);
      AlikeByChars(Fields(a, [])[n - 2], Fields(b, [])[n - 2]);
    }
  }

  lemma CutAlike(a: string, b: string)
    requires AlikeChars(a, b) && Doubled(a) && Doubled(b)
    ensures Cut(a) == Cut(b)
  {
    FieldsAlike(a, b, [], []);
    CutIsLastWord(a);
    CutIsLastWord(b);
    TrimRightAlike(a, b);
  }

  /** Names that differ in case only collapse to names that differ in case only. */
  lemma CollapseAlike(a: string, b: string)
    requires Alike(a, b)
    ensures Alike(Collapse(a), Collapse(b))
  {
    AlikeByChars(a, b);
    CollapseByCut(a);
    CollapseByCut(b);
    DoubledAlike(a, b);
    if Doubled(a) && Doubled(b) {
      CutAlike(a, b);
      TrimBlanksAlike(a, b);
      if Cut(a) > 0 {
        TrimBlanksAlike(TrimBlanks(a)[..Cut(a)], TrimBlanks(b)[..Cut(a)]);
      }
    }
    AlikeByChars(Collapse(a), Collapse(b));
  }

  // ------------------------------------------------ what the collapse does

  lemma {:induction false} FieldsOfWord(v: string, w: string, word: string)
    requires NoSpace(v) && AllSpace(w)
    ensures Fields(v + w, word) == if word + v == [] then [] else [word + v]
  {
    if v != [] {
      assert (v + w)[1..] == v[1..] + w;
      FieldsOfWord(v[1..], w, word + [v[0]]);
      assert word + [v[0]] + v[1..] == word + v;
    } else {
      assert v + w == w && word + v == word;
      if w != [] {
        FieldsOfWord([], w[1..], []);
        assert [] + w[1..] == w[1..];
      }
    }
  }

  /** Text up to white space has its own words, and the rest has the others. */
  lemma {:induction false} FieldsInParts(a: string, rest: string, word: string)
    requires a != [] && EndsInSpace(a)
    ensures Fields(a + rest, word) == Fields(a, word) + Fields(rest, [])
  {
    assert (a + rest)[1..] == a[1..] + rest;
    if |a| == 1 {
      assert a[1..] + rest == rest;
      assert Fields(a[1..], []) == [];
      assert Fields(a, word) == (if word == [] then [] else [word]) + [];
    } else {
      FieldsInParts(a[1..], rest, if IsSpace(a[0]) then [] else word + [a[0]]);
    }
  }

  /** TrimBlanks drops exactly the blanks at the end. */
  lemma {:induction false} TrimBlanksExactly(s: string)
    ensures var t := TrimBlanks(s);
            t <= s && (t != [] ==> t[|t| - 1] !in " \t") && forall i | |t| <= i < |s| :: s[i] in " \t"
  {
    if s != [] && IsBlank(s[|s| - 1]) {
      TrimBlanksExactly(s[..|s| - 1]);
    }
  }

  /** The name ends in the words u and v, the same up to case, with s between them. */
  ghost predicate EndsDoubled(name: string, a: string, u: string, s: string, v: string, w: string) {
    && name == a + u + s + v + w && EndsInSpace(a) && AllSpace(s) && s != [] && AllSpace(w)
    && u != [] && NoSpace(u) && v != [] && NoSpace(v) && Alike(u, v)
  }

  lemma FieldsBeforeWord(a: string, v: string, w: string)
    requires EndsInSpace(a) && v != [] && NoSpace(v) && AllSpace(w)
    ensures Fields(a + v + w, []) == Fields(a, []) + [v]
  {
    FieldsOfWord(v, w, []);
    assert [] + v == v;
    if a == [] {
      assert a + v + w == v + w;
    } else {
      assert a + v + w == a + (v + w);
      FieldsInParts(a, v + w, []);
    }
  }

  lemma DoubledWords(name: string, a: string, u: string, s: string, v: string, w: string)
    requires EndsDoubled(name, a, u, s, v, w)
    ensures Fields(name, []) == Fields(a, []) + [u, v]
  {
    FieldsBeforeWord(a, u, s);
    FieldsBeforeWord(a + u + s, v, w);
    assert Fields(a, []) + [u] + [v] == Fields(a, []) + [u, v];
  }

  /** Such a name loses its last word and the blanks before it. */
  lemma DoubledCollapses(name: string, a: string, u: string, s: string, v: string, w: string)
    requires EndsDoubled(name, a, u, s, v, w)
    ensures Collapse(name) == TrimBlanks(a + u + s)
  {
    DoubledWords(name, a, u, s, v, w);
    CutIsLastWord(name);
    var front := a + u + s;
    WordAt(name, front, v, w);
    TrimRightStops(name, |front| + |v|);
    TrimBlanksKeeps(name, |front| + |v|);
    CollapseByCut(name);
    assert Cut(name) == |front|;
    assert TrimBlanks(name)[..|front|] == name[..|front|] == front;
  }

  /** No other name changes. */
  lemma OnlyDoubledCollapses(name: string)
    requires Collapse(name) != name
    ensures exists a, u, s, v, w :: EndsDoubled(name, a, u, s, v, w)
  {
    CollapseByCut(name);
    var a, u, s, v, w := LastTwoWords(name);
    assert EndsDoubled(name, a, u, s, v, w);
  }

  lemma LastTwoWords(name: string) returns (a: string, u: string, s: string, v: string, w: string)
    requires Doubled(name)
    ensures EndsDoubled(name, a, u, s, v, w)
  {
    var front;
    front, w := LastWordPlaced(name, []);
    var fields := Fields(name, []);
    v := fields[|fields| - 1];
    assert [] + name == name;
    FieldsBeforeWord(front, v, w);
    LastOfFront(fields, Fields(front, []), v);
    a, s := LastWordPlaced(front, []);
    u := Fields(front, [])[|Fields(front, [])| - 1];
    assert [] + front == front;
    GapIsSpace(front, a, u, s);
  }

  lemma LastOfFront(fields: seq<string>, front: seq<string>, v: string)
    requires |fields| >= 2 && fields == front + [v]
    ensures front != [] && fields[|fields| - 2] == front[|front| - 1]
  {
  }

  lemma GapIsSpace(front: string, a: string, u: string, s: string)
    requires front == a + u + s && EndsInSpace(front) && u != [] && NoSpace(u)
    ensures s != []
  {
    var f := a + u;
    assert f[|f| - 1] == u[|u| - 1];
    assert s == [] ==> front == f;
  }
}
