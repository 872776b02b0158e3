/**
 What the line checks of utils/check-style-clang-format.py decide and what their fixes write, in terms
 of the characters of a line, and which lines of a file the guards protect, in terms of the guard texts.
 */
module StyleVerdicts {
  import opened PyText
  import opened StyleFixer
  import opened StyleChecks

  // ---------------------------------------------------------------- tabs

  /** The number of characters since the last line break. */
  ghost function Column(text: string): nat {
    if text == "" || text[|text| - 1] == '\n' || text[|text| - 1] == '\r' then 0 else 1 + Column(text[..|text| - 1])
  }

  ghost predicate Blanks(s: string) {
    forall i :: 0 <= i < |s| ==> s[i] == ' '
  }

  lemma {:induction false} JoinAppend(parts: seq<string>, part: string)
    ensures Join(parts + [part]) == Join(parts) + part
  {
    if parts == [] {
      assert Join([part]) == part + Join([part][1..]);
    } else {
      assert (parts + [part])[1..] == parts[1..] + [part];
      JoinAppend(parts[1..], part);
    }
  }

  lemma {:induction false} ColumnAppend(text: string, c: char)
    ensures Column(text + [c]) == if c == '\n' || c == '\r' then 0 else 1 + Column(text)
  {
    assert (text + [c])[..|text|] == text;
  }

  lemma {:induction false} ColumnBlanks(text: string, blanks: string)
    requires Blanks(blanks)
    ensures Column(text + blanks) == Column(text) + |blanks|
  {
    if blanks == "" {
      assert text + blanks == text;
    } else {
      var init := blanks[..|blanks| - 1];
      ColumnBlanks(text, init);
      assert text + blanks == (text + init) + [' '];
      ColumnAppend(text + init, ' ');
    }
  }

  lemma {:induction false} ColumnAfterAppend(s: string, c: char, column: nat)
    ensures ColumnAfter(s + [c], column) == NextColumn(c, ColumnAfter(s, column))
  {
    if s == "" {
      assert (s + [c])[1..] == "";
    } else {
      assert (s + [c])[1..] == s[1..] + [c];
      ColumnAfterAppend(s[1..], c, NextColumn(s[0], column));
    }
  }

  /** What stands for the character `c` after the text `before`. */
  ghost predicate Stands(part: string, c: char, before: string) {
    if c == '\t' then Blanks(part) && 1 <= |part| <= 4 && (Column(before) + |part|) % 4 == 0 else part == [c]
  }

  /** Expansion goes character by character: a tab becomes the spaces up to the next multiple of 4. */
  lemma {:induction false} ExpandMeaning(s: string) returns (parts: seq<string>)
    ensures |parts| == |s| && ExpandTabs(s, 0) == Join(parts)
    ensures forall i :: 0 <= i < |s| ==> Stands(parts[i], s[i], Join(parts[..i]))
    ensures ColumnAfter(s, 0) == Column(ExpandTabs(s, 0))
  {
    parts := [];
    if s != "" {
      var init, c := s[..|s| - 1], s[|s| - 1];
      assert s == init + [c];
      var before := ExpandMeaning(init);
      var column := ColumnAfter(init, 0);
      var part := ExpandTabs([c], column);
      ExpandConcat(init, [c], 0);
      ExpandOne(c, column, Join(before));
      ColumnAfterAppend(init, c, 0);
      JoinAppend(before, part);
      parts := before + [part];
      forall i | 0 <= i < |s| ensures Stands(parts[i], s[i], Join(parts[..i])) {
        if i < |init| {
          assert parts[..i] == before[..i] && parts[i] == before[i];
        } else {
          assert parts[..i] == before;
        }
      }
    }
  }

  lemma {:induction false} ExpandOne(c: char, column: nat, before: string)
    requires column == Column(before)
    ensures var part := ExpandTabs([c], column);
            Stands(part, c, before) && NextColumn(c, column) == Column(before + part)
  {
    assert [c][1..] == "" && ExpandTabs("", NextColumn(c, column)) == "";
    var part := ExpandTabs([c], column);
    var here := if c == '\t' then Spaces(4 - column % 4) else [c];
    assert part == here + "" == here;
    assert part == if c == '\t' then Spaces(4 - column % 4) else [c];
    if c == '\t' {
      ColumnBlanks(before, part);
    } else {
      ColumnAppend(before, c);
    }
  }

  /**
   A line is rejected exactly for a tab.  The fix keeps every other character, in order, and puts one to
   four spaces for each tab, up to the next column that is a multiple of 4.
   */
  lemma {:induction false} TabsMeaning(line: string) returns (parts: seq<string>)
    ensures CheckTabsLine(line).compliant <==> '\t' !in line
    ensures '\t' in line ==> CheckTabsLine(line).fixed == Join(parts)
    ensures |parts| == |line| && forall i :: 0 <= i < |line| ==> Stands(parts[i], line[i], Join(parts[..i]))
  {
    parts := ExpandMeaning(line);
  }

  // ---------------------------------------------------------------- whitespace

  /**
   A line is rejected exactly if it does not end in one newline right after a character that is no space,
   or in nothing before.  The fix cuts the line after its last character that is no space and ends it.
   */
  lemma {:induction false} WhitespaceMeaning(line: string) returns (n: nat)
    ensures CheckWhitespaceLine(line).compliant <==>
            line != "" && line[|line| - 1] == '\n' && (|line| >= 2 ==> !IsSpace(line[|line| - 2]))
    ensures n <= |line| && CheckWhitespaceLine(line).fixed == line[..n] + "\n"
    ensures (forall i :: n <= i < |line| ==> IsSpace(line[i])) && (n > 0 ==> !IsSpace(line[n - 1]))
  {
    var core := RStrip(line, IsSpace);
    var post := RStripParts(line, IsSpace);
    n := |core|;
    assert line[..n] == core && forall i :: n <= i < |line| ==> line[i] == post[i - n];
    var fixed := core + "\n";
    if line != "" && line[|line| - 1] == '\n' && (|line| >= 2 ==> !IsSpace(line[|line| - 2])) {
      assert n == |line| - 1;
      assert fixed == line;
    }
    if fixed == line {
      assert fixed[|fixed| - 1] == '\n';
      assert |line| >= 2 ==> line[|line| - 2] == core[n - 1];
    }
  }

  // ---------------------------------------------------------------- emacs

  lemma {:induction false} OccursInStripped(line: string, pattern: string)
    requires pattern != "" && !IsSpace(pattern[0]) && !IsSpace(pattern[|pattern| - 1])
    ensures Contains(Strip(line, IsSpace), pattern) <==> Contains(line, pattern)
  {
    var core := Strip(line, IsSpace);
    var pre, post := StripParts(line, IsSpace);
    if i :| 0 <= i <= |core| && OccursAt(core, pattern, i) {
      assert line[|pre| + i..|pre| + i + |pattern|] == core[i..i + |pattern|];
      assert OccursAt(line, pattern, |pre| + i);
    }
    if i :| 0 <= i <= |line| && OccursAt(line, pattern, i) {
      OccursInside(pre, core, post, pattern, i);
    }
  }

  lemma SpacesAround(pre: string, core: string, post: string, k: int)
    requires All(pre, IsSpace) && All(post, IsSpace) && 0 <= k < |pre + core + post|
    requires !IsSpace((pre + core + post)[k])
    ensures |pre| <= k < |pre| + |core| && (pre + core + post)[k] == core[k - |pre|]
  {
    var line := pre + core + post;
    assert forall j :: 0 <= j < |pre| ==> line[j] == pre[j];
    assert forall j :: |pre| + |core| <= j < |line| ==> line[j] == post[j - |pre| - |core|];
  }

  lemma {:induction false} OccursInside(pre: string, core: string, post: string, pattern: string, i: int)
    requires pattern != "" && !IsSpace(pattern[0]) && !IsSpace(pattern[|pattern| - 1])
    requires All(pre, IsSpace) && All(post, IsSpace) && OccursAt(pre + core + post, pattern, i)
    ensures Contains(core, pattern)
  {
    var line, m, n := pre + core + post, |pre|, |pattern|;
    var found := line[i..i + n];
    assert found == pattern;
    assert line[i] == found[0] && line[i + n - 1] == found[n - 1];
    SpacesAround(pre, core, post, i);
    SpacesAround(pre, core, post, i + n - 1);
    assert core[i - m..i - m + n] == found;
    assert OccursAt(core, pattern, i - m);
  }

  /** A line is rejected exactly for one of the two editor marks, and then goes. */
  lemma {:induction false} EmacsMeaning(line: string)
    ensures CheckEmacsLine(line).compliant <==>
            !Contains(line, "c-file-style:") && !Contains(line, "py-indent-offset:")
    ensures !CheckEmacsLine(line).compliant ==> CheckEmacsLine(line).fixed == ""
  {
    OccursInStripped(line, "c-file-style:");
    OccursInStripped(line, "py-indent-offset:");
  }

  // ---------------------------------------------------------------- include quotes

  lemma {:induction false} BeforeNewlinePart(s: string)
    ensures BeforeNewline(s) <= s && '\n' !in BeforeNewline(s)
    ensures |BeforeNewline(s)| < |s| ==> s[|BeforeNewline(s)|] == '\n'
  {
    if s != "" && s[0] != '\n' {
      BeforeNewlinePart(s[1..]);
      assert s == [s[0]] + s[1..];
    }
  }

  /** The line starts with the include of an ns-3 header in angle brackets that closes before the line ends. */
  ghost predicate AngledAt(line: string, i: int) {
    "#include <ns3/" <= line && 14 <= i <= |line| && OccursAt(line, ".h>", i) && '\n' !in line[..i]
  }

  /** A line is rejected exactly for such an include; the fix changes nothing but the brackets, all of them. */
  lemma {:induction false} IncludeQuotesMeaning(line: string)
    ensures CheckIncludeQuotesLine(line).compliant <==> !exists i :: AngledAt(line, i)
    ensures var fixed := CheckIncludeQuotesLine(line).fixed;
            !CheckIncludeQuotesLine(line).compliant ==>
              |fixed| == |line| && forall i :: 0 <= i < |line| ==>
                fixed[i] == if line[i] == '<' || line[i] == '>' then '"' else line[i]
  {
    if "#include <ns3/" <= line {
      assert |NS3_INCLUDE| == 14;
      var rest := line[14..];
      var part := BeforeNewline(rest);
      BeforeNewlinePart(rest);
      forall i | AngledAt(line, i) ensures Contains(part, ".h>") {
        AngledInPart(line, i, part);
      }
      if i :| 0 <= i <= |part| && OccursAt(part, ".h>", i) {
        assert line[14 + i..14 + i + 3] == part[i..i + 3];
        assert OccursAt(line, ".h>", 14 + i);
        NoNewlineBefore(line, part, 14 + i);
        assert AngledAt(line, 14 + i);
      }
    }
  }

  lemma {:induction false} AngledInPart(line: string, i: int, part: string)
    requires AngledAt(line, i) && part <= line[14..] && '\n' !in part
    requires |part| < |line| - 14 ==> line[14..][|part|] == '\n'
    ensures Contains(part, ".h>")
  {
    assert line[i..i + 3][0] == line[i] && line[i..i + 3][1] == line[i + 1] && line[i..i + 3][2] == line[i + 2];
    if |part| < |line| - 14 {
      assert line[14 + |part|] == '\n';
      assert forall k :: 0 <= k < i ==> line[k] == line[..i][k];
      assert 14 + |part| >= i + 3;
    }
    assert part[i - 14..i - 14 + 3] == line[i..i + 3];
    assert OccursAt(part, ".h>", i - 14);
  }

  lemma {:induction false} NoNewlineBefore(line: string, part: string, i: int)
    requires "#include <ns3/" <= line && part <= line[14..] && '\n' !in part && 14 <= i <= 14 + |part|
    ensures '\n' !in line[..i]
  {
    var start := "#include <ns3/";
    assert '\n' !in start;
    forall k | 0 <= k < i ensures line[..i][k] != '\n' {
      if k < 14 {
        assert line[k] == start[k];
      } else {
        assert line[k] == line[14..][k - 14] == part[k - 14];
      }
    }
  }

  // ---------------------------------------------------------------- license

  /** The text inside a comment line: space, comment marks and space on either side. */
  ghost predicate Commented(
    line: string, text: string, a: string, b: string, c: string, c': string, b': string, a': string)
  {
    && line == (a + b + c) + text + (c' + b' + a')
    && All(a, IsSpace) && All(a', IsSpace) && All(c, IsSpace) && All(c', IsSpace)
    && (forall m <- b :: m == '*' || m == '#' || m == '/') && (forall m <- b' :: m == '*' || m == '#' || m == '/')
    && (b == "" ==> c == "") && (b' == "" ==> c' == "")
  }

  ghost predicate IsComment(line: string, text: string) {
    exists a, b, c, c', b', a' :: Commented(line, text, a, b, c, c', b', a')
  }

  lemma PlainByEnds(text: string, first: char, last: char)
    requires text != "" && text[0] == first && text[|text| - 1] == last
    requires !IsSpace(first) && !IsCommentMark(first) && !IsSpace(last) && !IsCommentMark(last)
    ensures PlainEnds(text)
  {
  }

  lemma FirstTextsArePlain()
    ensures PlainEnds(GPL_LICENSE_LINES[1]) && PlainEnds(GPL_LICENSE_LINES[2]) && PlainEnds(GPL_LICENSE_LINES[3])
  {
    PlainByEnds(GPL_LICENSE_LINES[1], 'i', 's');
    PlainByEnds(GPL_LICENSE_LINES[2], 'p', ';');
    PlainByEnds(GPL_LICENSE_LINES[3], 'T', ',');
  }

  lemma MiddleTextsArePlain()
    ensures PlainEnds(GPL_LICENSE_LINES[4]) && PlainEnds(GPL_LICENSE_LINES[5]) && PlainEnds(GPL_LICENSE_LINES[6])
  {
    PlainByEnds(GPL_LICENSE_LINES[4], 'b', 'f');
    PlainByEnds(GPL_LICENSE_LINES[5], 'M', 'e');
    PlainByEnds(GPL_LICENSE_LINES[6], 'G', '.');
  }

  lemma LastTextsArePlain()
    ensures PlainEnds(GPL_LICENSE_LINES[7]) && PlainEnds(GPL_LICENSE_LINES[8]) && PlainEnds(GPL_LICENSE_LINES[9])
  {
    PlainByEnds(GPL_LICENSE_LINES[7], 'Y', 'e');
    PlainByEnds(GPL_LICENSE_LINES[8], 'a', 'e');
    PlainByEnds(GPL_LICENSE_LINES[9], 'F', 'A');
  }

  lemma {:induction false} LicenseTextsArePlain(text: string)
    requires text in GPL_LICENSE_LINES
    ensures PlainEnds(text)
  {
    LicenseEnds();
    FirstTextsArePlain();
    MiddleTextsArePlain();
    LastTextsArePlain();
    var k: nat :| k < 10 && GPL_LICENSE_LINES[k] == text;
  }

  lemma {:induction false} CommentIff(line: string, text: string)
    requires PlainEnds(text)
    ensures Uncommented(line) == text <==> IsComment(line, text)
  {
    if Uncommented(line) == text {
      var a, b, c, c', b', a' := UncommentedParts(line);
      Regroup(a, b, c, text, c', b', a');
      MarksAre(b);
      MarksAre(b');
      assert Commented(line, text, a, b, c, c', b', a');
    }
    if a, b, c, c', b', a' :| Commented(line, text, a, b, c, c', b', a') {
      Regroup(a, b, c, text, c', b', a');
      AreMarks(b);
      AreMarks(b');
      UncommentedOf(a, b, c, text, c', b', a');
    }
  }

  lemma MarksAre(b: string)
    requires All(b, IsCommentMark)
    ensures forall m <- b :: m == '*' || m == '#' || m == '/'
  {
  }

  lemma AreMarks(b: string)
    requires forall m <- b :: m == '*' || m == '#' || m == '/'
    ensures All(b, IsCommentMark)
  {
    assert forall i :: 0 <= i < |b| ==> b[i] in b;
  }

  /**
   A line is rejected exactly if it is a comment that holds one of the license texts and nothing else.
   The first text is replaced by the SPDX line inside the same comment; a line with another text goes.
   */
  lemma {:induction false} LicenseMeaning(line: string)
    ensures CheckLicensesLine(line).compliant <==> forall text <- GPL_LICENSE_LINES :: !IsComment(line, text)
    ensures IsComment(line, GPL_LICENSE_LINES[0]) ==>
              exists pre, post ::
                && line == pre + GPL_LICENSE_LINES[0] + post
                && CheckLicensesLine(line).fixed == pre + "SPDX-License-Identifier: GPL-2.0-only" + post
    ensures !CheckLicensesLine(line).compliant && !IsComment(line, GPL_LICENSE_LINES[0]) ==>
              CheckLicensesLine(line).fixed == ""
  {
    forall text <- GPL_LICENSE_LINES ensures Uncommented(line) == text <==> IsComment(line, text) {
      LicenseTextsArePlain(text);
      CommentIff(line, text);
    }
    assert GPL_LICENSE_LINES[0] in GPL_LICENSE_LINES;
    if IsComment(line, GPL_LICENSE_LINES[0]) {
      LicenseEnds();
      var pre, post := ReplaceCommented(line, GPL_FIRST_LINE, SPDX_LICENSE);
    }
  }

  // ---------------------------------------------------------------- guards

  /** The line is one of the texts that switch the checks off, or on. */
  ghost predicate TurnsOff(line: string) {
    Strip(line, IsSpace) in ["// clang-format off", "# cmake-format: off", "# fmt: off"]
  }
  ghost predicate TurnsOn(line: string) {
    Strip(line, IsSpace) in ["// clang-format on", "# cmake-format: on", "# fmt: on"]
  }

  /** No guard itself, after a line that turns the checks off, with no line between that turns them on. */
  ghost predicate Protected(lines: seq<string>, i: nat)
    requires i < |lines|
  {
    && !TurnsOff(lines[i]) && !TurnsOn(lines[i])
    && exists j :: 0 <= j < i && TurnsOff(lines[j]) && forall k :: j < k < i ==> !TurnsOn(lines[k])
  }

  lemma {:induction false} RoleMeaning(line: string)
    ensures RoleOf(line) == On <==> TurnsOn(line)
    ensures RoleOf(line) == Off <==> TurnsOff(line)
  {
    if TurnsOn(line) {
      OnIsNotOff(Strip(line, IsSpace));
    }
  }

  lemma OnIsNotOff(s: string)
    requires s in ["// clang-format on", "# cmake-format: on", "# fmt: on"]
    ensures s !in ["// clang-format off", "# cmake-format: off", "# fmt: off"]
  {
    assert s[|s| - 1] == 'n';
  }

  lemma {:induction false} ProtectedIff(lines: seq<string>, i: nat)
    requires i < |lines|
    ensures SwitchedOff(Roles(lines), i) <==> Protected(lines, i)
  {
    var roles := Roles(lines);
    forall k | 0 <= k < |lines|
      ensures (roles[k] == On <==> TurnsOn(lines[k])) && (roles[k] == Off <==> TurnsOff(lines[k]))
    {
      RoleMeaning(lines[k]);
    }
  }

  /**
   A check that respects the guards accepts a file exactly if it accepts every line that is not
   protected; its fix keeps every protected line and every good line, and replaces all others.
   */
  lemma {:induction false} GuardsMeaning(check: Check, lines: seq<string>)
    requires check.respectsGuards
    ensures Compliant(check, lines, true) <==>
            forall i :: 0 <= i < |lines| ==> Protected(lines, i) || check.line(lines[i]).compliant
    ensures forall i :: 0 <= i < |lines| ==>
              FixLines(check, lines, true)[i] ==
              if Protected(lines, i) || check.line(lines[i]).compliant then lines[i] else check.line(lines[i]).fixed
  {
    VerdictIsFullScan(check, lines);
    forall i | 0 <= i < |lines|
      ensures LineCompliant(check, lines, i) <==> Protected(lines, i) || check.line(lines[i]).compliant
      ensures FixLines(check, lines, true)[i] ==
              if Protected(lines, i) || check.line(lines[i]).compliant then lines[i] else check.line(lines[i]).fixed
    {
      ProtectedIff(lines, i);
      GuardedLinesAreKept(check, lines, i);
    }
  }

  ghost predicate NoGuards(lines: seq<string>) {
    forall i :: 0 <= i < |lines| ==> !TurnsOff(lines[i]) && !TurnsOn(lines[i])
  }

  /** Between an "off" and an "on" line exactly the body is protected, whatever it contains. */
  lemma {:induction false} BodyIsProtected(pre: seq<string>, off: string, body: seq<string>, on: string,
                                           post: seq<string>, i: nat)
    requires TurnsOff(off) && TurnsOn(on) && NoGuards(pre) && NoGuards(body) && NoGuards(post)
    requires i < |pre + [off] + body + [on] + post|
    ensures Protected(pre + [off] + body + [on] + post, i) <==> |pre| < i <= |pre| + |body|
  {
    var lines, n, m := pre + [off] + body + [on] + post, |pre|, |pre| + |body| + 1;
    assert forall k :: 0 <= k < n ==> lines[k] == pre[k];
    assert lines[n] == off && lines[m] == on;
    assert forall k :: n < k < m ==> lines[k] == body[k - n - 1];
    assert forall k :: m < k < |lines| ==> lines[k] == post[k - m - 1];
    if n < i < m {
      assert TurnsOff(lines[n]) && forall k :: n < k < i ==> !TurnsOn(lines[k]);
    } else if m < i {
      forall j | 0 <= j < i && TurnsOff(lines[j]) ensures j < m && TurnsOn(lines[m]) {
        OnIsNotOff(Strip(on, IsSpace));
      }
    } else if i == n || i == m {
    } else {
      assert forall j :: 0 <= j < i ==> !TurnsOff(lines[j]);
    }
  }

  /**
   The fix of a file with one region between an "off" and an "on" text, for any check that respects the
   guards: the body of the region is kept, and every bad line around it is replaced.
   */
  lemma {:induction false} RegionIsKept(check: Check, pre: seq<string>, off: string, body: seq<string>, on: string,
                                        post: seq<string>)
    requires check.respectsGuards
    requires TurnsOff(off) && TurnsOn(on) && NoGuards(pre) && NoGuards(body) && NoGuards(post)
    ensures var lines := pre + [off] + body + [on] + post;
            && (Compliant(check, lines, true) <==>
                forall i :: 0 <= i < |lines| && !(|pre| < i <= |pre| + |body|) ==> check.line(lines[i]).compliant)
            && forall i :: 0 <= i < |lines| ==>
                 FixLines(check, lines, true)[i] ==
                 if |pre| < i <= |pre| + |body| || check.line(lines[i]).compliant then lines[i]
                 else check.line(lines[i]).fixed
  {
    var lines := pre + [off] + body + [on] + post;
    GuardsMeaning(check, lines);
    forall i | 0 <= i < |lines| ensures Protected(lines, i) <==> |pre| < i <= |pre| + |body| {
      BodyIsProtected(pre, off, body, on, post, i);
    }
  }

  // ---------------------------------------------------------------- files

  lemma GuardedChecks(check: Check)
    requires check == INCLUDE_QUOTES || check == LICENSE || check == EMACS || check == TABS
    ensures check.respectsGuards
  {
  }

  ghost predicate AllGood(check: Check, lines: seq<string>) {
    forall i :: 0 <= i < |lines| ==> check.line(lines[i]).compliant
  }

  lemma {:induction false} AroundIsGood(check: Check, pre: seq<string>, off: string, body: seq<string>, on: string,
                                        post: seq<string>, i: nat)
    requires AllGood(check, pre) && AllGood(check, [off]) && AllGood(check, [on]) && AllGood(check, post)
    requires i < |pre + [off] + body + [on] + post| && !(|pre| < i <= |pre| + |body|)
    ensures check.line((pre + [off] + body + [on] + post)[i]).compliant
  {
    var line, n := (pre + [off] + body + [on] + post)[i], |pre| + |body| + 2;
    assert line == if i < |pre| then pre[i] else if i == |pre| then [off][0]
                   else if i == n - 1 then [on][0] else post[i - n];
  }

  /** A file whose only bad lines are in one protected region is accepted and left alone, by each guarded check. */
  lemma {:induction false} RegionFileIsKept(check: Check, pre: seq<string>, off: string, body: seq<string>, on: string,
                                            post: seq<string>)
    requires check == INCLUDE_QUOTES || check == LICENSE || check == EMACS || check == TABS
    requires TurnsOff(off) && TurnsOn(on) && NoGuards(pre) && NoGuards(body) && NoGuards(post)
    requires AreLines(pre + [off] + body + [on] + post) && '\r' !in Join(pre + [off] + body + [on] + post)
    requires AllGood(check, pre) && AllGood(check, [off]) && AllGood(check, [on]) && AllGood(check, post)
    ensures var file := Join(pre + [off] + body + [on] + post);
            FileCompliant(check, file) && FixFile(check, file) == file
  {
    GuardedChecks(check);
    var lines := pre + [off] + body + [on] + post;
    RegionIsKept(check, pre, off, body, on, post);
    forall i | 0 <= i < |lines| && !(|pre| < i <= |pre| + |body|) ensures check.line(lines[i]).compliant {
      AroundIsGood(check, pre, off, body, on, post, i);
    }
    GoodFileIsKept(check, lines);
  }

  lemma {:induction false} GoodFileIsKept(check: Check, lines: seq<string>)
    requires Compliant(check, lines, true) && AreLines(lines) && '\r' !in Join(lines)
    ensures FileCompliant(check, Join(lines)) && FixFile(check, Join(lines)) == Join(lines)
  {
    ReadsBack(Join(lines));
    LinesOfJoin(lines);
  }

  /** After the fix, no line outside the protected regions holds a tab. */
  lemma {:induction false} TabsAreGone(file: string)
    ensures var lines := ReadLines(FixFile(TABS, file));
            forall i :: 0 <= i < |lines| ==> Protected(lines, i) || '\t' !in lines[i]
  {
    FixIsFinal(TABS, file);
    GuardsMeaning(TABS, ReadLines(FixFile(TABS, file)));
  }

  ghost predicate CleanEnd(line: string) {
    Ended(line) && (|line| >= 2 ==> !IsSpace(line[|line| - 2]))
  }

  lemma {:induction false} CompliantHasCleanEnds(lines: seq<string>)
    requires Compliant(WHITESPACE, lines, true)
    ensures forall i :: 0 <= i < |lines| ==> CleanEnd(lines[i])
  {
    if lines != [] {
      CompliantHasCleanEnds(lines[1..]);
      var _ := WhitespaceMeaning(lines[0]);
      assert CleanEnd(lines[0]);
      assert forall i :: 1 <= i < |lines| ==> lines[i] == lines[1..][i - 1];
    }
  }

  /** After the fix, every line ends in a newline, and a space comes before none of them. */
  lemma {:induction false} TrailingSpaceIsGone(file: string)
    ensures var lines := ReadLines(FixFile(WHITESPACE, file));
            forall i :: 0 <= i < |lines| ==> CleanEnd(lines[i])
  {
    FixIsFinal(WHITESPACE, file);
    CompliantHasCleanEnds(ReadLines(FixFile(WHITESPACE, file)));
  }

  /** A check that ignores the guards looks at every line and replaces every bad one. */
  lemma {:induction false} UnguardedMeaning(check: Check, lines: seq<string>)
    requires !check.respectsGuards
    ensures Compliant(check, lines, true) <==> forall i :: 0 <= i < |lines| ==> check.line(lines[i]).compliant
    ensures forall i :: 0 <= i < |lines| ==>
              FixLines(check, lines, true)[i] ==
              if check.line(lines[i]).compliant then lines[i] else check.line(lines[i]).fixed
  {
    if lines != [] {
      UnguardedMeaning(check, lines[1..]);
      assert forall i :: 1 <= i < |lines| ==> lines[i] == lines[1..][i - 1];
      var fixed := FixLines(check, lines, true);
      assert forall i :: 1 <= i < |lines| ==> fixed[i] == FixLines(check, lines[1..], true)[i - 1];
    }
  }
}
