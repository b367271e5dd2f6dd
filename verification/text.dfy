/** The string operations the scraper relies on: whitespace normalisation
    (`normalize_space`), `str.strip()`, `str.lower()` and the substring test
    `needle in hay`. */
module Text {

  /** The code points Python's `str.isspace()` accepts, which is also the set
      the `\s` class of `re` matches in a str pattern; the plain space first. */
  const Whitespace: seq<char> :=
    [' ', '\t', '\n', '\U{0b}', '\U{0c}', '\r', '\U{1c}', '\U{1d}', '\U{1e}', '\U{1f}',
     '\U{85}', '\U{a0}', '\U{1680}', '\U{2000}', '\U{2001}', '\U{2002}', '\U{2003}',
     '\U{2004}', '\U{2005}', '\U{2006}', '\U{2007}', '\U{2008}', '\U{2009}', '\U{200a}',
     '\U{2028}', '\U{2029}', '\U{202f}', '\U{205f}', '\U{3000}']

  predicate IsSpace(c: char) {
    IsSpaceFrom(c, 0)
  }

  /** `c` is one of `Whitespace[i..]`. */
  predicate IsSpaceFrom(c: char, i: nat)
    decreases |Whitespace| - i
  {
    i < |Whitespace| && (c == Whitespace[i] || IsSpaceFrom(c, i + 1))
  }

  /** No whitespace code point lies strictly between U+0020 and U+0085, so
      no ASCII letter, digit or punctuation mark is whitespace. */
  lemma {:induction false} IsSpaceBounds(c: char, i: nat)
    requires IsSpaceFrom(c, i)
    ensures c <= ' ' || '\U{85}' <= c
    decreases |Whitespace| - i
  {
    if c != Whitespace[i] {
      IsSpaceBounds(c, i + 1);
    }
  }

  predicate NoEdgeSpace(s: string) {
    s == [] || (!IsSpace(s[0]) && !IsSpace(s[|s| - 1]))
  }

  predicate NoAdjacentSpace(s: string) {
    forall i :: 0 <= i < |s| - 1 ==> !(IsSpace(s[i]) && IsSpace(s[i + 1]))
  }

  predicate OnlyPlainSpace(s: string) {
    forall i :: 0 <= i < |s| && IsSpace(s[i]) ==> s[i] == ' '
  }

  /** The shape `normalize_space` promises: trimmed, single plain spaces. */
  predicate Normalized(s: string) {
    NoEdgeSpace(s) && NoAdjacentSpace(s) && OnlyPlainSpace(s)
  }

  predicate IsWord(w: string) {
    w != [] && forall i :: 0 <= i < |w| ==> !IsSpace(w[i])
  }

  // ---------------------------------------------------------------------
  // Substrings

  predicate OccursAt(hay: string, needle: string, k: int) {
    0 <= k && k + |needle| <= |hay| && hay[k..k + |needle|] == needle
  }

  /** Python's `needle in hay` for two strings. */
  predicate Contains(hay: string, needle: string) {
    exists k | 0 <= k <= |hay| - |needle| :: OccursAt(hay, needle, k)
  }

  // ---------------------------------------------------------------------
  // Stripping

  /** `s.lstrip()`: drops the leading whitespace and nothing else. */
  function TrimStart(s: string): (r: string)
    ensures |r| <= |s| && r == s[|s| - |r|..]
    ensures r == [] || !IsSpace(r[0])
    ensures s != [] && IsSpace(s[0]) ==> |r| < |s|
    ensures s == [] || !IsSpace(s[0]) ==> r == s
  {
    if s != [] && IsSpace(s[0]) then TrimStart(s[1..]) else s
  }

  /** What `lstrip()` drops is whitespace only. */
  lemma {:induction false} TrimStartDropsSpace(s: string)
    ensures forall i :: 0 <= i < |s| - |TrimStart(s)| ==> IsSpace(s[i])
  {
    if s != [] && IsSpace(s[0]) {
      TrimStartDropsSpace(s[1..]);
      forall i | 1 <= i < |s| - |TrimStart(s)| ensures IsSpace(s[i]) {
        assert s[i] == s[1..][i - 1];
      }
    }
  }

  /** `s.rstrip()`: drops the trailing whitespace and nothing else. */
  function TrimEnd(s: string): (r: string)
    ensures |r| <= |s| && r == s[..|r|]
    ensures r == [] || !IsSpace(r[|r| - 1])
    ensures s == [] || !IsSpace(s[|s| - 1]) ==> r == s
  {
    if s != [] && IsSpace(s[|s| - 1]) then TrimEnd(s[..|s| - 1]) else s
  }

  /** What `rstrip()` drops is whitespace only. */
  lemma {:induction false} TrimEndDropsSpace(s: string)
    ensures forall i :: |TrimEnd(s)| <= i < |s| ==> IsSpace(s[i])
  {
    if s != [] && IsSpace(s[|s| - 1]) {
      TrimEndDropsSpace(s[..|s| - 1]);
    }
  }

  /** `s.strip()`: the infix of `s` left once whitespace is removed from both
      ends; it is `s` itself exactly when `s` already has no edge whitespace. */
  function Strip(s: string): (r: string)
    ensures NoEdgeSpace(r)
    ensures Contains(s, r)
    ensures r == s <==> NoEdgeSpace(s)
  {
    var t := TrimStart(s);
    var r := TrimEnd(t);
    assert OccursAt(s, r, |s| - |t|);
    r
  }

  // ---------------------------------------------------------------------
  // normalize_space

  /** What `strip()` removes is whitespace: `s` is its stripped form with
      whitespace before and after it. */
  lemma StripDropsSpace(s: string)
    ensures exists k :: OccursAt(s, Strip(s), k)
                        && (forall i :: 0 <= i < k ==> IsSpace(s[i]))
                        && (forall i :: k + |Strip(s)| <= i < |s| ==> IsSpace(s[i]))
  {
    var t := TrimStart(s);
    var k := |s| - |t|;
    TrimStartDropsSpace(s);
    TrimEndDropsSpace(t);
    assert OccursAt(s, Strip(s), k);
    forall i | k + |Strip(s)| <= i < |s|
      ensures IsSpace(s[i])
    {
      assert s[i] == t[i - k];
    }
  }

  /** `re.sub(r"\s+", " ", s)`: every maximal run of whitespace becomes a
      single plain space; every other character is kept in place. */
  function CollapseRuns(s: string): (r: string)
    decreases |s|
  {
    if s == [] then []
    else if IsSpace(s[0]) then " " + CollapseRuns(TrimStart(s))
    else [s[0]] + CollapseRuns(s[1..])
  }

  /** The collapse leaves single plain spaces only, and keeps whether the
      string starts or ends with whitespace. */
  lemma {:induction false} CollapseRunsSpacing(s: string)
    ensures NoAdjacentSpace(CollapseRuns(s)) && OnlyPlainSpace(CollapseRuns(s))
    ensures CollapseRuns(s) == [] <==> s == []
    ensures s != [] ==> (IsSpace(CollapseRuns(s)[0]) <==> IsSpace(s[0]))
    decreases |s|
  {
    if s != [] {
      var t := if IsSpace(s[0]) then TrimStart(s) else s[1..];
      var r := CollapseRuns(t);
      CollapseRunsSpacing(t);
      var c := CollapseRuns(s);
      assert c == [if IsSpace(s[0]) then ' ' else s[0]] + r;
      forall i | 0 <= i < |c|
        ensures i > 0 ==> c[i] == r[i - 1]
      {
      }
    }
  }

  /** `normalize_space(s)` (scrape_to_ics.py:18-19): collapse whitespace runs,
      then strip. */
  function NormalizeSpace(s: string): string {
    Strip(CollapseRuns(s))
  }

  /** `normalize_space` leaves no whitespace at either end, never two
      whitespace characters in a row, and no whitespace but the plain
      space. */
  lemma NormalizeSpaceIsNormal(s: string)
    ensures Normalized(NormalizeSpace(s))
  {
    var c := CollapseRuns(s);
    CollapseRunsSpacing(s);
    InfixKeepsSpacing(c, Strip(c));
  }

  lemma InfixKeepsSpacing(s: string, r: string)
    requires Contains(s, r) && NoAdjacentSpace(s) && OnlyPlainSpace(s)
    ensures NoAdjacentSpace(r) && OnlyPlainSpace(r)
  {
    var k :| 0 <= k <= |s| - |r| && OccursAt(s, r, k);
    forall i | 0 <= i < |r|
      ensures r[i] == s[k + i]
    {
    }
  }

  /** A string already in normal form is left alone by the run collapse. */
  lemma {:induction false} CollapseRunsFixesNormal(s: string)
    requires NoAdjacentSpace(s) && OnlyPlainSpace(s)
    ensures CollapseRuns(s) == s
    decreases |s|
  {
    if s != [] {
      assert NoAdjacentSpace(s[1..]) && OnlyPlainSpace(s[1..]) by {
        forall i | 0 <= i < |s[1..]| ensures s[1..][i] == s[i + 1] { }
      }
      if IsSpace(s[0]) {
        assert s[0] == ' ';
        assert s[1..] == [] || !IsSpace(s[1]);
        assert TrimStart(s[1..]) == s[1..];
        assert TrimStart(s) == s[1..];
      }
      CollapseRunsFixesNormal(s[1..]);
      assert s == [s[0]] + s[1..];
    }
  }

  /** Normalising twice is the same as normalising once. */
  lemma NormalizeSpaceIdempotent(s: string)
    ensures NormalizeSpace(NormalizeSpace(s)) == NormalizeSpace(s)
  {
    var r := NormalizeSpace(s);
    NormalizeSpaceIsNormal(s);
    CollapseRunsFixesNormal(r);
  }

  // ---------------------------------------------------------------------
  // normalize_space as " ".join(s.split())

  /** The leading run of non-whitespace characters of `s`. */
  function FirstWord(s: string): (w: string)
    ensures |w| <= |s| && w == s[..|w|]
    ensures |w| == |s| || IsSpace(s[|w|])
    ensures s != [] && !IsSpace(s[0]) ==> w != []
  {
    if s == [] || IsSpace(s[0]) then [] else [s[0]] + FirstWord(s[1..])
  }

  /** The first word holds no whitespace. */
  lemma {:induction false} FirstWordNoSpace(s: string)
    ensures forall i :: 0 <= i < |FirstWord(s)| ==> !IsSpace(s[i])
  {
    if s != [] && !IsSpace(s[0]) {
      FirstWordNoSpace(s[1..]);
      forall i | 1 <= i < |FirstWord(s)| ensures !IsSpace(s[i]) {
        assert s[i] == s[1..][i - 1];
      }
    }
  }

  /** `s.split()`: the maximal runs of non-whitespace characters, in order. */
  function Words(s: string): seq<string>
    decreases |s|
  {
    var t := TrimStart(s);
    if t == [] then []
    else
      var w := FirstWord(t);
      [w] + Words(t[|w|..])
  }

  /** Every piece `split()` returns is a non-empty run without whitespace. */
  lemma {:induction false} WordsAreWords(s: string)
    ensures forall k :: 0 <= k < |Words(s)| ==> IsWord(Words(s)[k])
    decreases |s|
  {
    var t := TrimStart(s);
    if t != [] {
      var w := FirstWord(t);
      var rest := Words(t[|w|..]);
      assert IsWord(w) by {
        FirstWordNoSpace(t);
        forall i | 0 <= i < |w| ensures !IsSpace(w[i]) { assert w[i] == t[i]; }
      }
      WordsAreWords(t[|w|..]);
      WordsCons(w, rest);
      assert Words(s) == [w] + rest;
    }
  }

  lemma WordsCons(w: string, ws: seq<string>)
    requires IsWord(w) && forall k :: 0 <= k < |ws| ==> IsWord(ws[k])
    ensures forall k :: 0 <= k < |[w] + ws| ==> IsWord(([w] + ws)[k])
  {
    forall k | 0 <= k < |[w] + ws| ensures IsWord(([w] + ws)[k]) {
      if k > 0 {
        assert ([w] + ws)[k] == ws[k - 1];
      }
    }
  }

  /** `" ".join(ws)`. */
  function JoinWords(ws: seq<string>): string {
    if ws == [] then []
    else if |ws| == 1 then ws[0]
    else ws[0] + " " + JoinWords(ws[1..])
  }

  lemma {:induction false} JoinWordsEdges(ws: seq<string>)
    requires forall k :: 0 <= k < |ws| ==> IsWord(ws[k])
    ensures ws == [] <==> JoinWords(ws) == []
    ensures NoEdgeSpace(JoinWords(ws))
  {
    if |ws| > 1 {
      JoinWordsEdges(ws[1..]);
      var j := JoinWords(ws[1..]);
      assert JoinWords(ws) == ws[0] + (" " + j);
    }
  }

  /** A leading run of `k` non-whitespace characters passes through the
      collapse unchanged. */
  lemma {:induction false} CollapseWordPrefix(t: string, k: nat)
    requires k <= |t|
    requires forall i :: 0 <= i < k ==> !IsSpace(t[i])
    ensures CollapseRuns(t) == t[..k] + CollapseRuns(t[k..])
  {
    if k == 0 {
      assert t[..0] == [] && t[0..] == t;
    } else {
      var t' := t[1..];
      forall i | 0 <= i < k - 1
        ensures !IsSpace(t'[i])
      {
        assert t'[i] == t[i + 1];
      }
      CollapseWordPrefix(t', k - 1);
      CollapseNonSpace(t);
      PrefixOfTail(t, k);
      AppendAssoc3([t[0]], t'[..k - 1], CollapseRuns(t[k..]));
    }
  }

  /** A character other than whitespace passes through the run collapse. */
  lemma CollapseNonSpace(t: string)
    requires t != [] && !IsSpace(t[0])
    ensures CollapseRuns(t) == [t[0]] + CollapseRuns(t[1..])
  {
  }

  lemma PrefixOfTail(t: string, k: nat)
    requires 0 < k <= |t|
    ensures [t[0]] + t[1..][..k - 1] == t[..k]
    ensures t[1..][k - 1..] == t[k..]
  {
  }


  /** One plain space stands for a trailing run of whitespace. */
  function TrailMark(t: string): string {
    if t != [] && IsSpace(t[|t| - 1]) then " " else ""
  }

  lemma AppendAssoc(a: string, b: string, c: string, d: string)
    ensures a + (b + (c + d)) == (a + b + c) + d
  {
  }

  lemma AppendAssoc3(a: string, b: string, c: string)
    ensures a + (b + c) == a + b + c
  {
  }

  lemma AppendEmpty(a: string)
    ensures "" + a == a
  {
  }

  lemma JoinWordsCons(w: string, ws: seq<string>)
    requires ws != []
    ensures JoinWords([w] + ws) == w + " " + JoinWords(ws)
  {
    assert ([w] + ws)[1..] == ws;
  }

  /** `split()` ignores leading whitespace. */
  lemma WordsSkipLeadingSpace(s: string)
    ensures Words(s) == Words(TrimStart(s))
  {
    var t := TrimStart(s);
    assert t == [] || TrimStart(t) == t;
  }

  /** On a string starting with a word, `split()` returns that word first. */
  lemma WordsFirst(t: string)
    requires t != [] && !IsSpace(t[0])
    ensures Words(t) == [FirstWord(t)] + Words(t[|FirstWord(t)|..])
  {
    assert TrimStart(t) == t;
  }

  /** After a word, a tail made only of whitespace collapses to the trailing
      space mark. */
  lemma CollapseSpaceTail(t: string, k: nat)
    requires 0 < k <= |t| && !IsSpace(t[k - 1])
    requires TrimStart(t[k..]) == []
    ensures CollapseRuns(t[k..]) == TrailMark(t)
  {
    var rest := t[k..];
    if rest != [] {
      assert IsSpace(rest[0]) && IsSpace(rest[|rest| - 1]) by {
        TrimStartDropsSpace(rest);
      }
      assert t[|t| - 1] == rest[|rest| - 1];
      assert CollapseRuns(rest) == " " + CollapseRuns(TrimStart(rest));
    } else {
      assert k == |t|;
    }
  }

  lemma WordsOfOneWord(t: string)
    requires t != [] && !IsSpace(t[0])
    requires TrimStart(t[|FirstWord(t)|..]) == []
    ensures Words(t) == [FirstWord(t)]
  {
    WordsFirst(t);
    WordsSkipLeadingSpace(t[|FirstWord(t)|..]);
  }

  lemma CollapseOfOneWord(t: string)
    requires t != [] && !IsSpace(t[0])
    requires TrimStart(t[|FirstWord(t)|..]) == []
    ensures CollapseRuns(t) == FirstWord(t) + TrailMark(t)
  {
    var k := |FirstWord(t)|;
    FirstWordNoSpace(t);
    CollapseSpaceTail(t, k);
    CollapseWordPrefix(t, k);
  }

  /** The step of CollapseAsJoin for a string that is a single word,
      possibly followed by whitespace. */
  lemma CollapseOneWord(t: string)
    requires t != [] && !IsSpace(t[0])
    requires TrimStart(t[|FirstWord(t)|..]) == []
    ensures CollapseRuns(t) == JoinWords(Words(t)) + TrailMark(t)
  {
    WordsOfOneWord(t);
    CollapseOfOneWord(t);
  }

  lemma WordsOfMoreWords(t: string, u: string)
    requires t != [] && !IsSpace(t[0])
    requires u == TrimStart(t[|FirstWord(t)|..]) && u != []
    ensures Words(t) == [FirstWord(t)] + Words(u)
    ensures Words(u) != []
  {
    WordsFirst(t);
    WordsSkipLeadingSpace(t[|FirstWord(t)|..]);
    WordsFirst(u);
  }

  lemma CollapseOfMoreWords(t: string, u: string)
    requires t != [] && !IsSpace(t[0])
    requires u == TrimStart(t[|FirstWord(t)|..]) && u != []
    ensures CollapseRuns(t) == FirstWord(t) + (" " + CollapseRuns(u))
  {
    var k := |FirstWord(t)|;
    var rest := t[k..];
    assert rest != [] && IsSpace(rest[0]);
    assert CollapseRuns(t) == t[..k] + CollapseRuns(rest) by {
      FirstWordNoSpace(t);
      CollapseWordPrefix(t, k);
    }
    assert CollapseRuns(rest) == " " + CollapseRuns(u);
  }

  /** What follows the first word ends where the whole string ends. */
  lemma TrailMarkOfRest(t: string, u: string)
    requires u == TrimStart(t[|FirstWord(t)|..]) && u != []
    ensures TrailMark(t) == TrailMark(u)
  {
    var rest := t[|FirstWord(t)|..];
    assert u[|u| - 1] == rest[|rest| - 1] == t[|t| - 1];
  }

  /** The step of CollapseAsJoin for a word followed by whitespace and more
      words, given the claim for what follows the whitespace. */
  lemma CollapseMoreWords(t: string, u: string)
    requires t != [] && !IsSpace(t[0])
    requires u == TrimStart(t[|FirstWord(t)|..]) && u != []
    requires CollapseRuns(u) == JoinWords(Words(u)) + TrailMark(u)
    ensures CollapseRuns(t) == JoinWords(Words(t)) + TrailMark(t)
  {
    var w := FirstWord(t);
    var ws := Words(u);
    WordsOfMoreWords(t, u);
    CollapseOfMoreWords(t, u);
    TrailMarkOfRest(t, u);
    JoinWordsCons(w, ws);
    AppendAssoc(w, " ", JoinWords(ws), TrailMark(u));
  }

  /** Collapsing a string that does not start with whitespace yields its
      words joined by single spaces, plus one space if it ended in
      whitespace. */
  lemma {:induction false} CollapseAsJoin(t: string)
    requires t == [] || !IsSpace(t[0])
    ensures CollapseRuns(t) == JoinWords(Words(t)) + TrailMark(t)
    decreases |t|
  {
    if t != [] {
      var u := TrimStart(t[|FirstWord(t)|..]);
      if u == [] {
        CollapseOneWord(t);
      } else {
        CollapseAsJoin(u);
        CollapseMoreWords(t, u);
      }
    }
  }

  lemma TrimStartSpace(y: string)
    ensures TrimStart(" " + y) == TrimStart(y)
  {
    assert IsSpace(' ');
    assert (" " + y)[1..] == y;
  }

  lemma TrimEndSpace(y: string)
    ensures TrimEnd(y + " ") == TrimEnd(y)
  {
    assert IsSpace(' ');
    assert (y + " ")[..|y + " "| - 1] == y;
  }

  /** `lstrip` removes one optional space before a string that does not
      start with whitespace. */
  lemma TrimStartPad(pre: string, y: string)
    requires pre == "" || pre == " "
    requires y == [] || !IsSpace(y[0])
    ensures TrimStart(pre + y) == y
  {
    if pre == " " {
      TrimStartSpace(y);
    } else {
      assert pre + y == y;
    }
  }

  /** `rstrip` removes one optional space after a string that does not end
      in whitespace. */
  lemma TrimEndPad(j: string, post: string)
    requires post == "" || post == " "
    requires j == [] || !IsSpace(j[|j| - 1])
    ensures TrimEnd(j + post) == j
  {
    if post == " " {
      TrimEndSpace(j);
    } else {
      assert j + post == j;
    }
  }

  /** Stripping one optional space from each side of a string that has no
      edge whitespace gives the string back. */
  lemma StripPadded(j: string, pre: string, post: string)
    requires NoEdgeSpace(j)
    requires pre == "" || pre == " "
    requires post == "" || post == " "
    requires j == [] ==> post == ""
    ensures Strip(pre + j + post) == j
  {
    assert pre + j + post == pre + (j + post);
    assert j + post == [] || !IsSpace((j + post)[0]) by {
      if j != [] {
        assert (j + post)[0] == j[0];
      }
    }
    TrimStartPad(pre, j + post);
    TrimEndPad(j, post);
  }

  /** One space standing for the leading whitespace of `s`, if any. */
  function LeadMark(s: string): string {
    if s != [] && IsSpace(s[0]) then " " else ""
  }

  /** Leading whitespace collapses to one space before the rest. */
  lemma CollapseLeading(s: string)
    ensures CollapseRuns(s) == LeadMark(s) + CollapseRuns(TrimStart(s))
  {
    if LeadMark(s) == "" {
      assert TrimStart(s) == s;
      AppendEmpty(CollapseRuns(s));
    }
  }

  /** Collapsing gives the words joined by single spaces, with one space
      for leading and one for trailing whitespace. */
  lemma CollapseAsPaddedJoin(s: string)
    ensures var t := TrimStart(s);
      CollapseRuns(s) == LeadMark(s) + JoinWords(Words(t)) + TrailMark(t)
  {
    var t := TrimStart(s);
    CollapseLeading(s);
    CollapseAsJoin(t);
    AppendAssoc3(LeadMark(s), JoinWords(Words(t)), TrailMark(t));
  }

  /** The joined words of a string have no edge whitespace, and there are
      none only when the string has no trailing whitespace either, once the
      leading whitespace is gone. */
  lemma JoinedWordsEdges(s: string)
    ensures var t := TrimStart(s);
      NoEdgeSpace(JoinWords(Words(t))) && (JoinWords(Words(t)) == [] ==> TrailMark(t) == "")
  {
    var t := TrimStart(s);
    WordsAreWords(t);
    JoinWordsEdges(Words(t));
  }

  /** `normalize_space(s)` is Python's `" ".join(s.split())`: the words of
      `s`, in order, separated by single plain spaces. */
  lemma NormalizeSpaceJoinsWords(s: string)
    ensures NormalizeSpace(s) == JoinWords(Words(s))
  {
    var t := TrimStart(s);
    CollapseAsPaddedJoin(s);
    JoinedWordsEdges(s);
    WordsSkipLeadingSpace(s);
    StripPadded(JoinWords(Words(t)), LeadMark(s), TrailMark(t));
  }


  // ---------------------------------------------------------------------
  // Case folding

  /** Python's `str.lower()` on one character, for the scripts team names are
      written in: ASCII, Latin-1 and Latin Extended-A (U+0130 aside, whose
      lower case is two characters). */
  function LowerChar(c: char): char {
    if 'A' <= c <= 'Z' || ('\U{c0}' <= c <= '\U{de}' && c != '\U{d7}') then
      (c as int + 32) as char
    else if ('\U{100}' <= c <= '\U{12f}' || '\U{132}' <= c <= '\U{137}' || '\U{14a}' <= c <= '\U{177}')
      && c as int % 2 == 0 then
      (c as int + 1) as char
    else if ('\U{139}' <= c <= '\U{148}' || '\U{179}' <= c <= '\U{17e}') && c as int % 2 == 1 then
      (c as int + 1) as char
    else if c == '\U{178}' then
      '\U{ff}'
    else
      c
  }

  /** `s.lower()`, character by character. */
  function Lower(s: string): string {
    seq(|s|, i requires 0 <= i < |s| => LowerChar(s[i]))
  }

  /** Lowering a concatenation lowers each part. */
  lemma LowerAppend(a: string, b: string)
    ensures Lower(a + b) == Lower(a) + Lower(b)
  {
  }
}
