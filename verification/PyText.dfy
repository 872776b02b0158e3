/**
 The Python text operations that utils/check-style-clang-format.py relies on: stripping, replacing,
 expanding tabs, and reading and writing a text file line by line.
 */
module PyText {

  /** str.isspace() of one character. */
  predicate IsSpace(c: char) {
    var n := c as int;
    || 9 <= n <= 13 || 28 <= n <= 32 || n == 0x85 || n == 0xA0 || n == 0x1680
    || 0x2000 <= n <= 0x200A || n == 0x2028 || n == 0x2029 || n == 0x202F || n == 0x205F || n == 0x3000
  }

  /** The ASCII spaces, and the others by their code points. */
  lemma SpaceCharacters(c: char)
    ensures c as int < 0x80 ==> (IsSpace(c) <==> c in " \t\n\r\U{0B}\U{0C}\U{1C}\U{1D}\U{1E}\U{1F}")
    ensures c as int >= 0x80 ==>
              (IsSpace(c) <==>
               c in "\U{85}\U{A0}\U{1680}\U{2028}\U{2029}\U{202F}\U{205F}\U{3000}"
               || '\U{2000}' <= c <= '\U{200A}')
  {
  }

  ghost predicate All(s: string, p: char -> bool) {
    forall i :: 0 <= i < |s| ==> p(s[i])
  }

  // ---------------------------------------------------------------- strip

  function LStrip(s: string, p: char -> bool): string {
    if s != "" && p(s[0]) then LStrip(s[1..], p) else s
  }

  function RStrip(s: string, p: char -> bool): string {
    if s != "" && p(s[|s| - 1]) then RStrip(s[..|s| - 1], p) else s
  }

  function Strip(s: string, p: char -> bool): string {
    LStrip(RStrip(s, p), p)
  }

  /** Nothing is left to strip. */
  ghost predicate Trimmed(s: string, p: char -> bool) {
    s == "" || (!p(s[0]) && !p(s[|s| - 1]))
  }

  lemma {:induction false} LStripParts(s: string, p: char -> bool) returns (pre: string)
    ensures s == pre + LStrip(s, p) && All(pre, p)
    ensures LStrip(s, p) == "" || !p(LStrip(s, p)[0])
  {
    if s != "" && p(s[0]) {
      pre := LStripParts(s[1..], p);
      pre := [s[0]] + pre;
    } else {
      pre := "";
    }
  }

  lemma {:induction false} RStripParts(s: string, p: char -> bool) returns (post: string)
    ensures s == RStrip(s, p) + post && All(post, p)
    ensures RStrip(s, p) == "" || !p(RStrip(s, p)[|RStrip(s, p)| - 1])
  {
    if s != "" && p(s[|s| - 1]) {
      post := RStripParts(s[..|s| - 1], p);
      post := post + [s[|s| - 1]];
    } else {
      post := "";
    }
  }

  lemma {:induction false} StripParts(s: string, p: char -> bool) returns (pre: string, post: string)
    ensures s == pre + Strip(s, p) + post && All(pre, p) && All(post, p) && Trimmed(Strip(s, p), p)
  {
    post := RStripParts(s, p);
    pre := LStripParts(RStrip(s, p), p);
    assert pre + Strip(s, p) == RStrip(s, p);
  }

  lemma {:induction false} LStripOf(pre: string, core: string, p: char -> bool)
    requires All(pre, p) && (core == "" || !p(core[0]))
    ensures LStrip(pre + core, p) == core
  {
    if pre == "" {
      assert pre + core == core;
    } else {
      assert (pre + core)[1..] == pre[1..] + core;
      LStripOf(pre[1..], core, p);
    }
  }

  lemma {:induction false} RStripOf(core: string, post: string, p: char -> bool)
    requires All(post, p) && (core == "" || !p(core[|core| - 1]))
    ensures RStrip(core + post, p) == core
  {
    if post == "" {
      assert core + post == core;
    } else {
      assert (core + post)[..|core + post| - 1] == core + post[..|post| - 1];
      RStripOf(core, post[..|post| - 1], p);
    }
  }

  lemma {:induction false} StripOf(pre: string, core: string, post: string, p: char -> bool)
    requires All(pre, p) && All(post, p) && Trimmed(core, p)
    ensures Strip(pre + core + post, p) == core
  {
    if core == "" {
      RStripOf("", pre + post, p);
      assert pre + core + post == "" + (pre + post);
    } else {
      RStripOf(pre + core, post, p);
      LStripOf(pre, core, p);
    }
  }

  // ---------------------------------------------------------------- search and replace

  predicate OccursAt(s: string, pattern: string, i: int) {
    0 <= i <= |s| - |pattern| && s[i..i + |pattern|] == pattern
  }

  predicate Contains(s: string, pattern: string) {
    exists i :: 0 <= i <= |s| && OccursAt(s, pattern, i)
  }

  /** str.replace for a non-empty pattern: all occurrences, left to right. */
  function Replace(s: string, pattern: string, with: string): string
    requires pattern != ""
    decreases |s|
  {
    if |s| < |pattern| then s
    else if s[..|pattern|] == pattern then with + Replace(s[|pattern|..], pattern, with)
    else [s[0]] + Replace(s[1..], pattern, with)
  }

  lemma {:induction false} ReplaceAbsent(s: string, pattern: string, with: string)
    requires pattern != "" && pattern[0] !in s
    ensures Replace(s, pattern, with) == s
    decreases |s|
  {
    if |s| >= |pattern| {
      assert s[..|pattern|][0] == s[0] != pattern[0];
      ReplaceAbsent(s[1..], pattern, with);
    }
  }

  lemma {:induction false} ReplaceOnce(pre: string, pattern: string, post: string, with: string)
    requires pattern != "" && pattern[0] !in pre && pattern[0] !in post
    ensures Replace(pre + pattern + post, pattern, with) == pre + with + post
    decreases |pre|
  {
    var s := pre + pattern + post;
    if pre == "" {
      assert s[..|pattern|] == pattern && s[|pattern|..] == post;
      ReplaceAbsent(post, pattern, with);
    } else {
      assert s[..|pattern|][0] == pre[0] != pattern[0];
      assert s[1..] == pre[1..] + pattern + post;
      ReplaceOnce(pre[1..], pattern, post, with);
    }
  }

  // ---------------------------------------------------------------- tabs

  const TAB_SIZE := 4

  function Spaces(n: nat): (r: string)
    ensures |r| == n && forall i :: 0 <= i < n ==> r[i] == ' '
  {
    seq(n, _ => ' ')
  }

  function NextColumn(c: char, column: nat): nat {
    if c == '\t' then column + TAB_SIZE - column % TAB_SIZE
    else if c == '\n' || c == '\r' then 0
    else column + 1
  }

  /** str.expandtabs(TAB_SIZE) from a given column on. */
  function ExpandTabs(s: string, column: nat): string {
    if s == "" then ""
    else
      (if s[0] == '\t' then Spaces(TAB_SIZE - column % TAB_SIZE) else [s[0]])
      + ExpandTabs(s[1..], NextColumn(s[0], column))
  }

  ghost function ColumnAfter(s: string, column: nat): nat {
    if s == "" then column else ColumnAfter(s[1..], NextColumn(s[0], column))
  }

  lemma {:induction false} ExpandConcat(a: string, b: string, column: nat)
    ensures ExpandTabs(a + b, column) == ExpandTabs(a, column) + ExpandTabs(b, ColumnAfter(a, column))
  {
    if a == "" {
      assert a + b == b;
    } else {
      assert (a + b)[1..] == a[1..] + b;
      ExpandConcat(a[1..], b, NextColumn(a[0], column));
    }
  }

  lemma {:induction false} ExpandNone(s: string, column: nat)
    requires '\t' !in s
    ensures ExpandTabs(s, column) == s
  {
    if s != "" {
      ExpandNone(s[1..], NextColumn(s[0], column));
    }
  }

  /** What expansion introduces and keeps. */
  lemma {:induction false} ExpandCharacters(s: string, column: nat)
    ensures '\t' !in ExpandTabs(s, column)
    ensures forall c <- ExpandTabs(s, column) :: c in s || c == ' '
    ensures s != "" ==> ExpandTabs(s, column) != ""
  {
    if s != "" {
      var here := if s[0] == '\t' then Spaces(TAB_SIZE - column % TAB_SIZE) else [s[0]];
      ExpandCharacters(s[1..], NextColumn(s[0], column));
      assert forall c <- here :: c != '\t' && (c == s[0] || c == ' ');
      assert forall c <- s[1..] :: c in s;
    }
  }

  // ---------------------------------------------------------------- files

  /** open(..., "r") reads any line ending as a newline. */
  function UniversalNewlines(raw: string): string {
    if raw == "" then ""
    else if raw[0] == '\r' then
      "\n" + UniversalNewlines(if |raw| > 1 && raw[1] == '\n' then raw[2..] else raw[1..])
    else [raw[0]] + UniversalNewlines(raw[1..])
  }

  lemma {:induction false} NoCarriageReturns(raw: string)
    ensures '\r' !in UniversalNewlines(raw)
    decreases |raw|
  {
    if raw != "" {
      NoCarriageReturns(if raw[0] == '\r' && |raw| > 1 && raw[1] == '\n' then raw[2..] else raw[1..]);
    }
  }

  lemma {:induction false} ReadsBack(text: string)
    requires '\r' !in text
    ensures UniversalNewlines(text) == text
  {
    if text != "" {
      ReadsBack(text[1..]);
    }
  }

  /** Each carriage return, with the newline after it if there is one, is read as a newline; nothing else changes. */
  lemma {:induction false} NewlinesMeaning(a: string, b: string)
    requires '\r' !in a
    ensures UniversalNewlines(a + "\r\n" + b) == a + "\n" + UniversalNewlines(b)
    ensures b == "" || b[0] != '\n' ==> UniversalNewlines(a + "\r" + b) == a + "\n" + UniversalNewlines(b)
  {
    if a == "" {
      var crlf, cr := a + "\r\n" + b, a + "\r" + b;
      assert crlf[0] == '\r' && crlf[1] == '\n' && crlf[2..] == b;
      assert cr[0] == '\r' && cr[1..] == b;
    } else {
      NewlinesMeaning(a[1..], b);
      assert (a + "\r\n" + b)[1..] == a[1..] + "\r\n" + b;
      assert (a + "\r" + b)[1..] == a[1..] + "\r" + b;
      assert [a[0]] + (a[1..] + "\n" + UniversalNewlines(b)) == a + "\n" + UniversalNewlines(b);
    }
  }

  function LineLength(text: string): (n: nat)
    requires text != ""
    ensures 1 <= n <= |text|
    ensures forall i :: 0 <= i < n - 1 ==> text[i] != '\n'
    ensures text[n - 1] == '\n' || n == |text|
  {
    if text[0] == '\n' || |text| == 1 then 1 else 1 + LineLength(text[1..])
  }

  /** readlines(): every line keeps its newline, and only the last may lack one. */
  function Lines(text: string): seq<string> {
    if text == "" then [] else [text[..LineLength(text)]] + Lines(text[LineLength(text)..])
  }

  /** writelines(). */
  function Join(lines: seq<string>): string {
    if lines == [] then "" else lines[0] + Join(lines[1..])
  }

  predicate IsLine(line: string) {
    line != "" && forall i :: 0 <= i < |line| - 1 ==> line[i] != '\n'
  }

  predicate Ended(line: string) {
    line != "" && line[|line| - 1] == '\n'
  }

  ghost predicate AreLines(lines: seq<string>) {
    && (forall i :: 0 <= i < |lines| ==> IsLine(lines[i]))
    && (forall i :: 0 <= i < |lines| - 1 ==> Ended(lines[i]))
  }

  lemma {:induction false} LinesAreLines(text: string)
    ensures AreLines(Lines(text))
    decreases |text|
  {
    if text != "" {
      var n := LineLength(text);
      LinesAreLines(text[n..]);
      assert text[n..] == "" ==> Lines(text[n..]) == [];
    }
  }

  lemma JoinCons(line: string, rest: seq<string>)
    ensures Join([line] + rest) == line + Join(rest)
  {
    assert ([line] + rest)[1..] == rest;
  }

  lemma {:induction false} JoinOfLines(text: string)
    ensures Join(Lines(text)) == text
    decreases |text|
  {
    if text != "" {
      var n := LineLength(text);
      var line, rest := text[..n], text[n..];
      JoinOfLines(rest);
      JoinCons(line, Lines(rest));
      assert text == line + rest;
    }
  }

  /** A character that the text does not hold is in none of its lines. */
  lemma {:induction false} LinesLack(text: string, c: char)
    requires c !in text
    ensures forall i :: 0 <= i < |Lines(text)| ==> c !in Lines(text)[i]
    decreases |text|
  {
    if text != "" {
      LinesLack(text[LineLength(text)..], c);
    }
  }

  lemma {:induction false} LineLengthOf(line: string, rest: string)
    requires IsLine(line) && (Ended(line) || rest == "")
    ensures LineLength(line + rest) == |line|
  {
    assert forall i :: 0 <= i < |line| ==> (line + rest)[i] == line[i];
  }

  /** Reading what was written: the lines come back, except that the empty ones have vanished. */
  lemma {:induction false} LinesOfJoin(lines: seq<string>)
    requires AreLines(lines)
    ensures Lines(Join(lines)) == lines
  {
    if lines != [] {
      var line, rest := lines[0], Join(lines[1..]);
      LinesOfJoin(lines[1..]);
      assert |lines| == 1 ==> rest == "";
      LineLengthOf(line, rest);
      assert (line + rest)[..|line|] == line && (line + rest)[|line|..] == rest;
    }
  }

  ghost function NonEmpty(lines: seq<string>): seq<string> {
    if lines == [] then [] else (if lines[0] == "" then [] else [lines[0]]) + NonEmpty(lines[1..])
  }

  lemma {:induction false} JoinNonEmpty(lines: seq<string>)
    ensures Join(NonEmpty(lines)) == Join(lines)
  {
    if lines != [] {
      JoinNonEmpty(lines[1..]);
      if lines[0] == "" {
        assert NonEmpty(lines) == NonEmpty(lines[1..]);
        assert Join(lines) == Join(lines[1..]);
      } else {
        assert NonEmpty(lines)[1..] == NonEmpty(lines[1..]);
      }
    }
  }
}
