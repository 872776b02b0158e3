/**
 Every line check of utils/check-style-clang-format.py gives good fixes, hence the file theorems of
 StyleFixer hold for it; and expanding tabs keeps a file free of trailing whitespace.
 */
module StyleChecks {
  import opened PyText
  import opened StyleFixer

  /** A line is a body without newline, followed by a newline or by nothing. */
  lemma {:induction false} LineBody(line: string) returns (body: string, end: string)
    requires IsLine(line)
    ensures line == body + end && '\n' !in body && end == if Ended(line) then "\n" else ""
  {
    if Ended(line) {
      body, end := line[..|line| - 1], "\n";
    } else {
      body, end := line, "";
    }
  }

  lemma {:induction false} LineOf(body: string, end: string)
    requires '\n' !in body && (end == "\n" || (end == "" && body != ""))
    ensures IsLine(body + end) && (Ended(body + end) <==> end == "\n")
  {
  }

  // ---------------------------------------------------------------- whitespace

  lemma {:induction false} WhitespaceFix(line: string)
    requires IsLine(line) && '\r' !in line
    ensures GoodFix(WHITESPACE, line, CheckWhitespaceLine(line).fixed)
  {
    var core := RStrip(line, IsSpace);
    var post := RStripParts(line, IsSpace);
    var fixed := core + "\n";
    assert forall i :: 0 <= i < |core| ==> core[i] == line[i];
    assert '\n' !in core && '\r' !in core;
    LineOf(core, "\n");
    RStripOf(core, "\n", IsSpace);
  }

  // ---------------------------------------------------------------- tabs

  lemma {:induction false} ExpandSpace(s: string, column: nat)
    requires All(s, IsSpace)
    ensures All(ExpandTabs(s, column), IsSpace)
  {
    ExpandCharacters(s, column);
    assert forall c <- s :: IsSpace(c);
    forall i | 0 <= i < |ExpandTabs(s, column)| ensures IsSpace(ExpandTabs(s, column)[i]) {
      assert ExpandTabs(s, column)[i] in ExpandTabs(s, column);
    }
  }

  /** Expanding tabs around a text without tabs leaves the stripped text. */
  lemma {:induction false} ExpandKeepsCore(line: string)
    requires '\t' !in Strip(line, IsSpace)
    ensures Strip(ExpandTabs(line, 0), IsSpace) == Strip(line, IsSpace)
  {
    var core := Strip(line, IsSpace);
    var pre, post := StripParts(line, IsSpace);
    var c1 := ColumnAfter(pre + core, 0);
    ExpandConcat(pre + core, post, 0);
    ExpandConcat(pre, core, 0);
    ExpandNone(core, ColumnAfter(pre, 0));
    ExpandSpace(pre, 0);
    ExpandSpace(post, c1);
    StripOf(ExpandTabs(pre, 0), core, ExpandTabs(post, c1), IsSpace);
  }

  lemma {:induction false} GuardsHaveNoTabs(s: string)
    requires IsGuardOn(s) || IsGuardOff(s)
    ensures '\t' !in s
  {
  }

  lemma {:induction false} ExpandLine(body: string, end: string)
    requires '\n' !in body && (end == "\n" || end == "")
    ensures ExpandTabs(body + end, 0) == ExpandTabs(body, 0) + end
    ensures '\n' !in ExpandTabs(body, 0)
  {
    ExpandConcat(body, end, 0);
    ExpandNone(end, ColumnAfter(body, 0));
    ExpandCharacters(body, 0);
  }

  lemma {:induction false} TabsFix(line: string)
    requires IsLine(line) && '\r' !in line && '\t' in line
    ensures GoodFix(TABS, line, CheckTabsLine(line).fixed)
  {
    var fixed := ExpandTabs(line, 0);
    var body, end := LineBody(line);
    ExpandLine(body, end);
    ExpandCharacters(body, 0);
    ExpandCharacters(line, 0);
    LineOf(ExpandTabs(body, 0), end);
    if RoleOf(line) != Neither {
      GuardsHaveNoTabs(Strip(line, IsSpace));
      ExpandKeepsCore(line);
    }
  }

  // ---------------------------------------------------------------- emacs and include quotes

  lemma {:induction false} Occurrence(s: string, pattern: string, i: nat)
    requires OccursAt(s, pattern, i) && |pattern| > 1
    ensures s[i + |pattern| - 1] == pattern[|pattern| - 1] && s[i + |pattern| - 2] == pattern[|pattern| - 2]
  {
    var n := |pattern|;
    assert s[i..i + n][n - 1] == s[i + n - 1] && s[i..i + n][n - 2] == s[i + n - 2];
  }

  lemma {:induction false} GuardColons(s: string)
    requires IsGuardOn(s) || IsGuardOff(s)
    ensures forall j :: 0 < j < |s| && s[j] == ':' ==> j < 16 && s[j - 1] == 't'
  {
    if s == "// clang-format on" || s == "// clang-format off" {
    } else if s == "# fmt: on" || s == "# fmt: off" {
    } else {
      assert s == "# cmake-format: on" || s == "# cmake-format: off";
    }
  }

  lemma {:induction false} GuardsAreNotEmacs(s: string)
    requires forall j :: 0 < j < |s| && s[j] == ':' ==> j < 16 && s[j - 1] == 't'
    ensures !Contains(s, "c-file-style:") && !Contains(s, "py-indent-offset:")
  {
    forall i | OccursAt(s, "c-file-style:", i) ensures false {
      Occurrence(s, "c-file-style:", i);
    }
    forall i | OccursAt(s, "py-indent-offset:", i) ensures false {
      Occurrence(s, "py-indent-offset:", i);
    }
  }

  lemma {:induction false} EmacsFix(line: string)
    requires IsLine(line) && !CheckEmacsLine(line).compliant
    ensures GoodFix(EMACS, line, CheckEmacsLine(line).fixed)
  {
    if RoleOf(line) != Neither {
      GuardColons(Strip(line, IsSpace));
      GuardsAreNotEmacs(Strip(line, IsSpace));
      assert false;
    }
  }

  lemma {:induction false} RStripKeeps(s: string, p: char -> bool, n: nat)
    requires 0 < n <= |s| && !p(s[n - 1])
    ensures n <= |RStrip(s, p)| && RStrip(s, p)[..n] == s[..n]
  {
    if p(s[|s| - 1]) {
      RStripKeeps(s[..|s| - 1], p, n);
    }
  }

  lemma {:induction false} IncludeIsNoGuard(line: string)
    requires NS3_INCLUDE <= line
    ensures RoleOf(line) == Neither
  {
    assert line[0] == '#' && line[1] == 'i';
    RStripKeeps(line, IsSpace, 2);
    var core := Strip(line, IsSpace);
    assert core == RStrip(line, IsSpace);
    assert core[0] == core[..2][0] && core[1] == core[..2][1];
  }

  lemma {:induction false} IncludeQuotesFix(line: string)
    requires IsLine(line) && '\r' !in line && IsAngledInclude(line)
    ensures GoodFix(INCLUDE_QUOTES, line, CheckIncludeQuotesLine(line).fixed)
  {
    var fixed := QuoteBrackets(line);
    IncludeIsNoGuard(line);
    assert NS3_INCLUDE[9] == '<' && line[9] == '<' && fixed[9] == '"';
    assert forall i :: 0 <= i < |line| ==>
        (fixed[i] == '\n' <==> line[i] == '\n') && (fixed[i] == '\r' <==> line[i] == '\r');
  }

  // ---------------------------------------------------------------- license

  lemma {:induction false} StripShortens(s: string, p: char -> bool)
    ensures |Strip(s, p)| <= |s|
  {
    var pre, post := StripParts(s, p);
  }

  lemma LicenseTextIsLong(s: string)
    requires s in GPL_LICENSE_LINES
    ensures |s| >= 42
  {
  }

  lemma {:induction false} LicenseIsNoGuard(line: string)
    requires Uncommented(line) in GPL_LICENSE_LINES
    ensures RoleOf(line) == Neither
  {
    LicenseTextIsLong(Uncommented(line));
    StripShortens(Strip(line, IsSpace), IsCommentMark);
    StripShortens(Strip(Strip(line, IsSpace), IsCommentMark), IsSpace);
  }

  /** The comment around a license text, layer by layer. */
  ghost predicate Layers(a: string, b: string, c: string) {
    All(a, IsSpace) && All(b, IsCommentMark) && All(c, IsSpace) && (b == "" ==> c == "")
  }

  ghost predicate PlainEnds(text: string) {
    && text != ""
    && !IsSpace(text[0]) && !IsCommentMark(text[0])
    && !IsSpace(text[|text| - 1]) && !IsCommentMark(text[|text| - 1])
  }

  lemma {:induction false} NothingBefore(c: string, rest: string, p: char -> bool)
    requires All(c, p) && c + rest != "" && !p((c + rest)[0])
    ensures c == ""
  {
  }

  lemma {:induction false} NothingAfter(rest: string, c: string, p: char -> bool)
    requires All(c, p) && rest + c != "" && !p((rest + c)[|rest + c| - 1])
    ensures c == ""
  {
  }

  lemma {:induction false} UncommentedParts(line: string)
    returns (a: string, b: string, c: string, c': string, b': string, a': string)
    requires PlainEnds(Uncommented(line))
    ensures Layers(a, b, c) && Layers(a', b', c')
    ensures line == a + (b + (c + Uncommented(line) + c') + b') + a'
  {
    var s1 := Strip(line, IsSpace);
    var s2 := Strip(s1, IsCommentMark);
    var text := Uncommented(line);
    a, a' := StripParts(line, IsSpace);
    b, b' := StripParts(s1, IsCommentMark);
    c, c' := StripParts(s2, IsSpace);
    assert s1 != "";
    if b == "" {
      assert s1 == c + (text + c' + b');
      NothingBefore(c, text + c' + b', IsSpace);
    }
    if b' == "" {
      assert s1 == (b + c + text) + c';
      NothingAfter(b + c + text, c', IsSpace);
    }
  }

  lemma {:induction false} UncommentedOf(
    a: string, b: string, c: string, text: string, c': string, b': string, a': string)
    requires Layers(a, b, c) && Layers(a', b', c') && PlainEnds(text)
    ensures Uncommented(a + (b + (c + text + c') + b') + a') == text
  {
    var t2 := c + text + c';
    var t1 := b + t2 + b';
    assert t2[0] == (if c != "" then c[0] else text[0]);
    assert t2[|t2| - 1] == (if c' != "" then c'[|c'| - 1] else text[|text| - 1]);
    assert t1[0] == (if b != "" then b[0] else text[0]);
    assert t1[|t1| - 1] == (if b' != "" then b'[|b'| - 1] else text[|text| - 1]);
    StripOf(a, t1, a', IsSpace);
    StripOf(b, t2, b', IsCommentMark);
    StripOf(c, text, c', IsSpace);
  }

  lemma {:induction false} LayersLack(a: string, b: string, c: string, x: char)
    requires Layers(a, b, c) && !IsSpace(x) && !IsCommentMark(x)
    ensures x !in a && x !in b && x !in c
  {
  }

  /** Replacing the text of a comment line keeps its surroundings. */
  lemma {:induction false} ReplaceCommented(line: string, text: string, other: string)
    returns (pre: string, post: string)
    requires Uncommented(line) == text && PlainEnds(text) && PlainEnds(other)
    ensures line == pre + text + post && Replace(line, text, other) == pre + other + post
    ensures Uncommented(pre + other + post) == other
  {
    var a, b, c, c', b', a' := UncommentedParts(line);
    LayersLack(a, b, c, text[0]);
    LayersLack(a', b', c', text[0]);
    pre, post := a + b + c, c' + b' + a';
    Regroup(a, b, c, text, c', b', a');
    Regroup(a, b, c, other, c', b', a');
    Pieces(a, b, c, text[0]);
    Pieces(c', b', a', text[0]);
    ReplaceOnce(pre, text, post, other);
    UncommentedOf(a, b, c, other, c', b', a');
  }

  lemma {:induction false} Regroup(a: string, b: string, c: string, x: string, d: string, e: string, f: string)
    ensures (a + b + c) + x + (d + e + f) == a + (b + (c + x + d) + e) + f
  {
  }

  lemma {:induction false} Pieces(a: string, b: string, c: string, x: char)
    requires x !in a && x !in b && x !in c
    ensures x !in a + b + c
  {
  }

  lemma LicenseEnds()
    ensures PlainEnds(GPL_FIRST_LINE) && PlainEnds(SPDX_LICENSE)
  {
    assert GPL_FIRST_LINE[0] == 'T' && |GPL_FIRST_LINE| == 68 && GPL_FIRST_LINE[67] == 'y';
    assert SPDX_LICENSE[0] == 'S' && |SPDX_LICENSE| == 37 && SPDX_LICENSE[36] == 'y';
  }

  /** Exchanging a text inside a line for another keeps the line a line. */
  lemma {:induction false} LineExchange(pre: string, text: string, other: string, post: string)
    requires IsLine(pre + text + post) && '\r' !in pre + text + post
    requires PlainEnds(text) && PlainEnds(other) && '\n' !in other && '\r' !in other
    ensures IsLine(pre + other + post) && '\r' !in pre + other + post
    ensures Ended(pre + text + post) <==> Ended(pre + other + post)
  {
    var line, exchanged := pre + text + post, pre + other + post;
    forall i | 0 <= i < |exchanged| - 1 ensures exchanged[i] != '\n' {
      if i < |pre| {
        assert exchanged[i] == line[i];
      } else if i < |pre| + |other| {
        assert exchanged[i] == other[i - |pre|];
      } else {
        assert exchanged[i] == line[i - |other| + |text|];
      }
    }
    assert '\r' !in pre && '\r' !in post by {
      assert forall i :: 0 <= i < |pre| ==> line[i] == pre[i];
      assert forall i :: 0 <= i < |post| ==> line[|pre| + |text| + i] == post[i];
    }
    if post == "" {
      assert exchanged[|exchanged| - 1] == other[|other| - 1] && line[|line| - 1] == text[|text| - 1];
    } else {
      assert exchanged[|exchanged| - 1] == post[|post| - 1] == line[|line| - 1];
    }
  }

  lemma SpdxIsOneLine()
    ensures '\n' !in SPDX_LICENSE && '\r' !in SPDX_LICENSE
  {
  }

  lemma SpdxIsNotGpl()
    ensures SPDX_LICENSE !in GPL_LICENSE_LINES
  {
    assert |SPDX_LICENSE| == 37;
  }

  lemma {:induction false} LicenseFirstLine(line: string)
    requires IsLine(line) && '\r' !in line && Uncommented(line) == GPL_FIRST_LINE
    ensures var fixed := Replace(line, GPL_FIRST_LINE, SPDX_LICENSE);
            && IsLine(fixed) && '\r' !in fixed && (Ended(line) ==> Ended(fixed)) && Uncommented(fixed) == SPDX_LICENSE
  {
    LicenseEnds();
    var pre, post := ReplaceCommented(line, GPL_FIRST_LINE, SPDX_LICENSE);
    SpdxIsOneLine();
    LineExchange(pre, GPL_FIRST_LINE, SPDX_LICENSE, post);
  }

  lemma {:induction false} LicenseFix(line: string)
    requires IsLine(line) && '\r' !in line && Uncommented(line) in GPL_LICENSE_LINES
    ensures GoodFix(LICENSE, line, CheckLicensesLine(line).fixed)
  {
    LicenseIsNoGuard(line);
    SpdxIsNotGpl();
    if Uncommented(line) == GPL_FIRST_LINE {
      LicenseFirstLine(line);
    }
  }

  // ---------------------------------------------------------------- main results

  /** The five checks of this model. */
  ghost predicate IsModelled(check: Check) {
    check == INCLUDE_QUOTES || check == LICENSE || check == EMACS || check == WHITESPACE || check == TABS
  }

  lemma {:induction false} ModelledChecksAreGood(check: Check)
    requires IsModelled(check)
    ensures GoodCheck(check)
  {
    forall line | IsLine(line) && '\r' !in line && !check.line(line).compliant
      ensures GoodFix(check, line, check.line(line).fixed)
    {
      if check == INCLUDE_QUOTES {
        IncludeQuotesFix(line);
      } else if check == LICENSE {
        LicenseFix(line);
      } else if check == EMACS {
        EmacsFix(line);
      } else if check == WHITESPACE {
        WhitespaceFix(line);
      } else {
        TabsFix(line);
      }
    }
  }

  /** For each of the checks: a fixed file is compliant when it is read again, and fixing it again changes nothing. */
  lemma {:induction false} FixIsFinal(check: Check, file: string)
    requires IsModelled(check)
    ensures FileCompliant(check, FixFile(check, file))
    ensures FixFile(check, FixFile(check, file)) == FixFile(check, file)
  {
    ModelledChecksAreGood(check);
    FixedFileIsCompliant(check, file);
  }

  lemma {:induction false} ExpandKeepsEnd(line: string)
    requires IsLine(line) && CheckWhitespaceLine(line).compliant
    ensures CheckWhitespaceLine(ExpandTabs(line, 0)).compliant
  {
    var core := RStrip(line, IsSpace);
    var _ := RStripParts(line, IsSpace);
    assert line == core + "\n";
    assert '\n' !in core by {
      assert forall i :: 0 <= i < |core| ==> core[i] == line[i];
    }
    ExpandLine(core, "\n");
    if core != "" {
      var init, last := core[..|core| - 1], core[|core| - 1];
      assert core == init + [last];
      ExpandConcat(init, [last], 0);
      ExpandNone([last], ColumnAfter(init, 0));
    }
    RStripOf(ExpandTabs(core, 0), "\n", IsSpace);
  }

  lemma {:induction false} WhitespaceOneMore(line: string, rest: seq<string>)
    ensures Compliant(WHITESPACE, [line] + rest, true) <==>
            CheckWhitespaceLine(line).compliant && Compliant(WHITESPACE, rest, true)
  {
    assert ([line] + rest)[1..] == rest;
  }

  lemma {:induction false} TabsKeepLine(line: string, enabled: bool)
    requires IsLine(line) && CheckWhitespaceLine(line).compliant
    ensures FixLine(TABS, enabled, line) != "" && CheckWhitespaceLine(FixLine(TABS, enabled, line)).compliant
  {
    ExpandKeepsEnd(line);
    ExpandCharacters(line, 0);
  }

  lemma {:induction false} TabsKeepWhitespaceLines(lines: seq<string>, enabled: bool)
    requires AreLines(lines) && Compliant(WHITESPACE, lines, true)
    ensures Compliant(WHITESPACE, NonEmpty(FixLines(TABS, lines, enabled)), true)
  {
    if lines != [] {
      var e := EnabledAfter(TABS, enabled, lines[0]);
      var fixed := FixLine(TABS, e, lines[0]);
      assert lines == [lines[0]] + lines[1..];
      WhitespaceOneMore(lines[0], lines[1..]);
      TabsKeepWhitespaceLines(lines[1..], e);
      TabsKeepLine(lines[0], e);
      var tail := NonEmpty(FixLines(TABS, lines[1..], e));
      assert FixLines(TABS, lines, enabled)[1..] == FixLines(TABS, lines[1..], e);
      assert NonEmpty(FixLines(TABS, lines, enabled)) == [fixed] + tail;
      WhitespaceOneMore(fixed, tail);
    }
  }

  /** Fixing tabs does not bring trailing whitespace back. */
  lemma {:induction false} TabsKeepWhitespace(file: string)
    requires FileCompliant(WHITESPACE, file)
    ensures FileCompliant(WHITESPACE, FixFile(TABS, file))
  {
    if !FileCompliant(TABS, file) {
      ModelledChecksAreGood(TABS);
      ReadsFixed(TABS, file);
      TabsKeepWhitespaceLines(ReadLines(file), true);
    }
  }

  /** The two passes in the order of the script leave a file that both checks accept. */
  lemma {:induction false} WhitespaceThenTabs(file: string)
    ensures var fixed := FixFile(TABS, FixFile(WHITESPACE, file));
            FileCompliant(WHITESPACE, fixed) && FileCompliant(TABS, fixed)
  {
    FixIsFinal(WHITESPACE, file);
    TabsKeepWhitespace(FixFile(WHITESPACE, file));
    FixIsFinal(TABS, FixFile(WHITESPACE, file));
  }
}
