/**
 The line-by-line checks and fixes of utils/check-style-clang-format.py.

 Each `Check...Line` function is a line check of the source, and `CheckManuallyFile` is its loop over a
 file, for any line check, with or without the clang-format guards.  The results are about whole files:
 a fixed file, written and read again, is compliant.
 */
module StyleFixer {
  import opened PyText

  datatype LineResult = LineResult(compliant: bool, fixed: string)

  predicate IsGuardOn(s: string) {
    s == "// clang-format on" || s == "# cmake-format: on" || s == "# fmt: on"
  }

  predicate IsGuardOff(s: string) {
    s == "// clang-format off" || s == "# cmake-format: off" || s == "# fmt: off"
  }

  const GPL_FIRST_LINE := "This program is free software;" + " you can redistribute it and/or modify"
  const GPL_LICENSE_LINES := [
    GPL_FIRST_LINE,
    "it under the terms of the GNU General" + " Public License version 2 as",
    "published by the Free Software Foundation;",
    "This program is distributed in the hope" + " that it will be useful,",
    "but WITHOUT ANY WARRANTY; without even" + " the implied warranty of",
    "MERCHANTABILITY or FITNESS FOR A" + " PARTICULAR PURPOSE.  See the",
    "GNU General Public License for more details.",
    "You should have received a copy of the" + " GNU General Public License",
    "along with this program; if not, write" + " to the Free Software",
    "Foundation, Inc., 59 Temple Place, Suite" + " 330, Boston, MA  02111-1307  USA"]
  const SPDX_LICENSE := "SPDX-License-Identifier: GPL-2.0-only"

  // ---------------------------------------------------------------- the line checks

  predicate IsCommentMark(c: char) {
    c == '*' || c == '#' || c == '/'
  }

  /** The text of a line without surrounding space and comment marks. */
  function Uncommented(line: string): string {
    Strip(Strip(Strip(line, IsSpace), IsCommentMark), IsSpace)
  }

  function BeforeNewline(s: string): string {
    if s == "" || s[0] == '\n' then "" else [s[0]] + BeforeNewline(s[1..])
  }

  const NS3_INCLUDE := "#include <ns3/"

  /** The line matches ^#include <ns3/.*\.h> . */
  predicate IsAngledInclude(line: string) {
    NS3_INCLUDE <= line && Contains(BeforeNewline(line[|NS3_INCLUDE|..]), ".h>")
  }

  function QuoteBrackets(s: string): (r: string)
    ensures |r| == |s|
    ensures forall i :: 0 <= i < |s| ==> r[i] == if s[i] == '<' || s[i] == '>' then '"' else s[i]
  {
    seq(|s|, i requires 0 <= i < |s| => if s[i] == '<' || s[i] == '>' then '"' else s[i])
  }

  function CheckIncludeQuotesLine(line: string): LineResult {
    if IsAngledInclude(line) then LineResult(false, QuoteBrackets(line)) else LineResult(true, line)
  }

  function CheckLicensesLine(line: string): LineResult {
    if Uncommented(line) !in GPL_LICENSE_LINES then LineResult(true, line)
    else if Uncommented(line) == GPL_FIRST_LINE then LineResult(false, Replace(line, GPL_FIRST_LINE, SPDX_LICENSE))
    else LineResult(false, "")
  }

  function CheckEmacsLine(line: string): LineResult {
    var stripped := Strip(line, IsSpace);
    if Contains(stripped, "c-file-style:") || Contains(stripped, "py-indent-offset:")
    then LineResult(false, "") else LineResult(true, line)
  }

  function CheckWhitespaceLine(line: string): LineResult {
    var fixed := RStrip(line, IsSpace) + "\n";
    LineResult(fixed == line, fixed)
  }

  function CheckTabsLine(line: string): LineResult {
    if '\t' in line then LineResult(false, ExpandTabs(line, 0)) else LineResult(true, line)
  }

  // ---------------------------------------------------------------- the file loop

  datatype Role = On | Off | Neither

  function RoleOf(line: string): Role {
    var stripped := Strip(line, IsSpace);
    if IsGuardOn(stripped) then On else if IsGuardOff(stripped) then Off else Neither
  }

  /** A line check together with whether it respects the guards. */
  datatype Check = Check(line: string -> LineResult, respectsGuards: bool)

  const INCLUDE_QUOTES := Check(CheckIncludeQuotesLine, true)
  const LICENSE := Check(CheckLicensesLine, true)
  const EMACS := Check(CheckEmacsLine, true)
  const WHITESPACE := Check(CheckWhitespaceLine, false)
  const TABS := Check(CheckTabsLine, true)

  function EnabledAfter(check: Check, enabled: bool, line: string): bool {
    if !check.respectsGuards then enabled
    else match RoleOf(line)
      case On => true
      case Off => false
      case Neither => enabled
  }

  predicate IsChecked(check: Check, enabledAfter: bool, line: string) {
    !check.respectsGuards || enabledAfter || RoleOf(line) != Neither
  }

  /** The verdict on the lines of a file, from a given guard state on. */
  predicate Compliant(check: Check, lines: seq<string>, enabled: bool) {
    lines == [] ||
    (var e := EnabledAfter(check, enabled, lines[0]);
     && (IsChecked(check, e, lines[0]) ==> check.line(lines[0]).compliant)
     && Compliant(check, lines[1..], e))
  }

  function FixLine(check: Check, enabledAfter: bool, line: string): string {
    if IsChecked(check, enabledAfter, line) && !check.line(line).compliant then check.line(line).fixed else line
  }

  function FixLines(check: Check, lines: seq<string>, enabled: bool): (r: seq<string>)
    ensures |r| == |lines|
  {
    if lines == [] then []
    else
      var e := EnabledAfter(check, enabled, lines[0]);
      [FixLine(check, e, lines[0])] + FixLines(check, lines[1..], e)
  }

  function ReadLines(file: string): seq<string> {
    Lines(UniversalNewlines(file))
  }

  predicate FileCompliant(check: Check, file: string) {
    Compliant(check, ReadLines(file), true)
  }

  /** The contents of the file after fix mode. */
  function FixFile(check: Check, file: string): string {
    if FileCompliant(check, file) then file else Join(FixLines(check, ReadLines(file), true))
  }

  /** The guard handling at the top of the loop: the new state of the flag, and whether to skip the line. */
  method PassGuard(check: Check, line: string, enabled: bool) returns (clangFormatEnabled: bool, skip: bool)
    ensures clangFormatEnabled == EnabledAfter(check, enabled, line)
    ensures skip <==> !IsChecked(check, clangFormatEnabled, line)
  {
    clangFormatEnabled, skip := enabled, false;
    if check.respectsGuards {
      var lineStripped := Strip(line, IsSpace);
      if IsGuardOn(lineStripped) {
        clangFormatEnabled := true;
      } else if IsGuardOff(lineStripped) {
        clangFormatEnabled := false;
      }
      skip := !clangFormatEnabled && !(IsGuardOn(lineStripped) || IsGuardOff(lineStripped));
    }
  }

  /** The verdict on one line and what it becomes; a skipped line is compliant. */
  method CheckLine(check: Check, line: string, enabled: bool)
    returns (clangFormatEnabled: bool, isLineCompliant: bool, lineFixed: string)
    ensures clangFormatEnabled == EnabledAfter(check, enabled, line)
    ensures isLineCompliant <==> (IsChecked(check, clangFormatEnabled, line) ==> check.line(line).compliant)
    ensures FixLine(check, clangFormatEnabled, line) == if isLineCompliant then line else lineFixed
  {
    var skip;
    clangFormatEnabled, skip := PassGuard(check, line, enabled);
    isLineCompliant, lineFixed := true, line;
    if !skip {
      var LineResult(compliant, fixed) := check.line(line);
      isLineCompliant, lineFixed := compliant, fixed;
    }
  }

  /** One line of the scan. */
  lemma {:induction false} ScanStep(check: Check, lines: seq<string>, i: nat, enabled: bool, done: seq<string>)
    requires i < |lines|
    ensures var e := EnabledAfter(check, enabled, lines[i]);
            && done + FixLines(check, lines[i..], enabled) ==
               (done + [FixLine(check, e, lines[i])]) + FixLines(check, lines[i + 1..], e)
            && (Compliant(check, lines[i..], enabled) <==>
                (IsChecked(check, e, lines[i]) ==> check.line(lines[i]).compliant)
                && Compliant(check, lines[i + 1..], e))
  {
    assert lines[i..][0] == lines[i] && lines[i..][1..] == lines[i + 1..];
  }

  lemma Advance(before: seq<string>, after: seq<string>, i: nat)
    requires i < |before| && |after| == |before| && after == before[i := after[i]]
    ensures after[..i + 1] == before[..i] + [after[i]]
  {
  }

  /** The body of the loop: the line at `i` is checked and replaced by its fix. */
  method ScanLine(check: Check, fileLines: seq<string>, i: nat, enabled: bool, ghost lines: seq<string>)
    returns (clangFormatEnabled: bool, isLineCompliant: bool, newLines: seq<string>)
    requires i < |fileLines| == |lines| && fileLines[i..] == lines[i..]
    ensures |newLines| == |lines| && newLines[i + 1..] == lines[i + 1..]
    ensures Compliant(check, lines[i..], enabled) <==>
            isLineCompliant && Compliant(check, lines[i + 1..], clangFormatEnabled)
    ensures newLines[..i + 1] + FixLines(check, lines[i + 1..], clangFormatEnabled) ==
            fileLines[..i] + FixLines(check, lines[i..], enabled)
  {
    assert fileLines[i] == lines[i] by {
      assert fileLines[i..][0] == lines[i..][0];
    }
    ScanStep(check, lines, i, enabled, fileLines[..i]);
    var lineFixed;
    clangFormatEnabled, isLineCompliant, lineFixed := CheckLine(check, fileLines[i], enabled);
    newLines := if isLineCompliant then fileLines else fileLines[i := lineFixed];
    Advance(fileLines, newLines, i);
    assert newLines[i + 1..] == fileLines[i..][1..] == lines[i..][1..];
  }

  /** The loop over the lines; in check mode without verbose output it stops at the first bad line. */
  method ScanLines(check: Check, lines: seq<string>, fix: bool, verbose: bool)
    returns (isFileCompliant: bool, fileLines: seq<string>)
    ensures isFileCompliant <==> Compliant(check, lines, true)
    ensures fix || verbose ==> fileLines == FixLines(check, lines, true)
  {
    isFileCompliant, fileLines := true, lines;
    var clangFormatEnabled := true;
    assert lines[0..] == lines && lines[..0] == [];
    for i := 0 to |lines|
      invariant |fileLines| == |lines| && fileLines[i..] == lines[i..]
      invariant Compliant(check, lines, true) <==> isFileCompliant && Compliant(check, lines[i..], clangFormatEnabled)
      invariant FixLines(check, lines, true) == fileLines[..i] + FixLines(check, lines[i..], clangFormatEnabled)
    {
      var isLineCompliant;
      clangFormatEnabled, isLineCompliant, fileLines := ScanLine(check, fileLines, i, clangFormatEnabled, lines);
      if !isLineCompliant {
        isFileCompliant := false;
        if !fix && !verbose {
          return;
        }
      }
    }
    assert lines[|lines|..] == [] && fileLines[..|lines|] == fileLines;
  }

  /** check_manually_file: the verdict, and the contents that the file has afterwards. */
  method CheckManuallyFile(check: Check, file: string, fix: bool, verbose: bool)
    returns (isFileCompliant: bool, newFile: string)
    ensures isFileCompliant <==> FileCompliant(check, file)
    ensures newFile == if fix then FixFile(check, file) else file
    ensures isFileCompliant || !fix ==> newFile == file
  {
    var fileLines;
    isFileCompliant, fileLines := ScanLines(check, ReadLines(file), fix, verbose);
    newFile := file;
    if fix && !isFileCompliant {
      newFile := Join(fileLines);
    }
  }

  // ---------------------------------------------------------------- what every line check guarantees

  /** What the fix of a line must be for the file theorems: gone, or a compliant line in the same place. */
  ghost predicate GoodFix(check: Check, line: string, fixed: string) {
    && (fixed != "" ==>
        IsLine(fixed) && '\r' !in fixed && (Ended(line) ==> Ended(fixed)) && check.line(fixed).compliant)
    && (check.respectsGuards && RoleOf(line) != Neither ==> fixed != "" && RoleOf(fixed) == RoleOf(line))
  }

  ghost predicate GoodCheck(check: Check) {
    forall line :: IsLine(line) && '\r' !in line && !check.line(line).compliant ==>
      GoodFix(check, line, check.line(line).fixed)
  }

  // ---------------------------------------------------------------- files

  lemma {:induction false} FixedAreLines(check: Check, lines: seq<string>, enabled: bool)
    requires GoodCheck(check) && AreLines(lines) && forall i :: 0 <= i < |lines| ==> '\r' !in lines[i]
    ensures AreLines(NonEmpty(FixLines(check, lines, enabled)))
    ensures '\r' !in Join(FixLines(check, lines, enabled))
  {
    if lines != [] {
      var e := EnabledAfter(check, enabled, lines[0]);
      var fixed := FixLine(check, e, lines[0]);
      FixedAreLines(check, lines[1..], e);
      assert fixed != "" ==> IsLine(fixed) && '\r' !in fixed && (Ended(lines[0]) ==> Ended(fixed));
      assert FixLines(check, lines, enabled)[1..] == FixLines(check, lines[1..], e);
    }
  }

  /**
   Checking the fixed lines from a state that is enabled only if the fix was: a fix may turn a line
   into a guard, and that can only switch the check off earlier than before.
   */
  lemma {:induction false} FixedAreCompliant(check: Check, lines: seq<string>, enabled: bool, enabled': bool)
    requires GoodCheck(check) && AreLines(lines) && forall i :: 0 <= i < |lines| ==> '\r' !in lines[i]
    requires enabled' ==> enabled
    ensures Compliant(check, NonEmpty(FixLines(check, lines, enabled)), enabled')
  {
    if lines != [] {
      var line, rest := lines[0], lines[1..];
      var e := EnabledAfter(check, enabled, line);
      var fixed := FixLine(check, e, line);
      assert FixLines(check, lines, enabled)[1..] == FixLines(check, rest, e);
      var tail := NonEmpty(FixLines(check, rest, e));
      if fixed == "" {
        assert NonEmpty(FixLines(check, lines, enabled)) == tail;
        FixedAreCompliant(check, rest, e, enabled');
      } else {
        var all := NonEmpty(FixLines(check, lines, enabled));
        assert all == [fixed] + tail && all[1..] == tail;
        var e' := EnabledAfter(check, enabled', fixed);
        FixedAreCompliant(check, rest, e, e');
      }
    }
  }

  /** Fixing a file, writing it and reading it again gives a compliant file, which a second fix leaves alone. */
  lemma {:induction false} FixedFileIsCompliant(check: Check, file: string)
    requires GoodCheck(check)
    ensures FileCompliant(check, FixFile(check, file))
    ensures FixFile(check, FixFile(check, file)) == FixFile(check, file)
  {
    if !FileCompliant(check, file) {
      ReadsFixed(check, file);
      FixedAreCompliant(check, ReadLines(file), true, true);
    }
  }

  lemma {:induction false} ReadsFixed(check: Check, file: string)
    requires GoodCheck(check)
    ensures var lines := ReadLines(file);
            && AreLines(lines) && (forall i :: 0 <= i < |lines| ==> '\r' !in lines[i])
            && ReadLines(Join(FixLines(check, lines, true))) == NonEmpty(FixLines(check, lines, true))
  {
    var text, lines := UniversalNewlines(file), ReadLines(file);
    NoCarriageReturns(file);
    LinesAreLines(text);
    LinesLack(text, '\r');
    var fixed := FixLines(check, lines, true);
    FixedAreLines(check, lines, true);
    ReadsBack(Join(fixed));
    JoinNonEmpty(fixed);
    LinesOfJoin(NonEmpty(fixed));
  }

  ghost function Roles(lines: seq<string>): (roles: seq<Role>)
    ensures |roles| == |lines| && forall i :: 0 <= i < |lines| ==> roles[i] == RoleOf(lines[i])
  {
    seq(|lines|, i requires 0 <= i < |lines| => RoleOf(lines[i]))
  }

  /** Line `i` lies in a region that a guard has switched off: after an "off" and before the next "on". */
  ghost predicate SwitchedOff(roles: seq<Role>, i: nat)
    requires i < |roles|
  {
    roles[i] == Neither && exists j :: 0 <= j < i && roles[j] == Off && forall k :: j < k < i ==> roles[k] != On
  }

  /** The state of the guard flag after the first `n` lines. */
  ghost function FlagAfter(roles: seq<Role>, n: nat): bool
    requires n <= |roles|
  {
    if n == 0 then true
    else match roles[n - 1]
      case On => true
      case Off => false
      case Neither => FlagAfter(roles, n - 1)
  }

  lemma {:induction false} FlagIsOff(roles: seq<Role>, n: nat)
    requires n <= |roles|
    ensures !FlagAfter(roles, n) <==>
            exists j :: 0 <= j < n && roles[j] == Off && forall k :: j < k < n ==> roles[k] != On
  {
    if n > 0 {
      FlagIsOff(roles, n - 1);
    }
  }

  ghost predicate LineCompliant(check: Check, lines: seq<string>, i: nat)
    requires i < |lines|
  {
    !SwitchedOff(Roles(lines), i) ==> check.line(lines[i]).compliant
  }

  lemma {:induction false} LineStep(check: Check, lines: seq<string>, i: nat)
    requires check.respectsGuards && i < |lines|
    ensures var e := EnabledAfter(check, FlagAfter(Roles(lines), i), lines[i]);
            && FlagAfter(Roles(lines), i + 1) == e
            && (IsChecked(check, e, lines[i]) <==> !SwitchedOff(Roles(lines), i))
  {
    FlagIsOff(Roles(lines), i);
  }

  // One line of the scan, in terms of the flag after the lines before it.

  lemma {:induction false} FixStep(check: Check, lines: seq<string>, i: nat, flag: bool, flag': bool)
    requires check.respectsGuards && i < |lines|
    requires flag == FlagAfter(Roles(lines), i) && flag' == FlagAfter(Roles(lines), i + 1)
    ensures FixLines(check, lines[i..], flag) ==
            [FixLine(check, flag', lines[i])] + FixLines(check, lines[i + 1..], flag')
  {
    LineStep(check, lines, i);
    assert lines[i..][0] == lines[i] && lines[i..][1..] == lines[i + 1..];
  }

  lemma {:induction false} VerdictStep(check: Check, lines: seq<string>, i: nat, flag: bool, flag': bool)
    requires check.respectsGuards && i < |lines|
    requires flag == FlagAfter(Roles(lines), i) && flag' == FlagAfter(Roles(lines), i + 1)
    ensures Compliant(check, lines[i..], flag) <==>
            LineCompliant(check, lines, i) && Compliant(check, lines[i + 1..], flag')
  {
    LineStep(check, lines, i);
    assert lines[i..][0] == lines[i] && lines[i..][1..] == lines[i + 1..];
  }

  /** The fix of the whole file, seen from line `i` on. */
  lemma {:induction false} FixFrom(check: Check, lines: seq<string>, i: nat)
    requires check.respectsGuards && i <= |lines|
    ensures FixLines(check, lines, true)[i..] == FixLines(check, lines[i..], FlagAfter(Roles(lines), i))
  {
    if i == 0 {
      assert lines[0..] == lines;
    } else {
      var all := FixLines(check, lines, true);
      FixFrom(check, lines, i - 1);
      FixStep(check, lines, i - 1, FlagAfter(Roles(lines), i - 1), FlagAfter(Roles(lines), i));
      assert all[i..] == all[i - 1..][1..];
    }
  }

  ghost predicate CompliantFrom(check: Check, lines: seq<string>, i: nat) {
    forall k :: i <= k < |lines| ==> LineCompliant(check, lines, k)
  }

  lemma OneMoreCompliant(check: Check, lines: seq<string>, i: nat)
    requires i < |lines|
    ensures CompliantFrom(check, lines, i) <==> LineCompliant(check, lines, i) && CompliantFrom(check, lines, i + 1)
  {
  }

  /** The verdict on the lines from `i` on. */
  lemma {:induction false} VerdictFrom(check: Check, lines: seq<string>, i: nat, flag: bool)
    requires check.respectsGuards && i <= |lines| && flag == FlagAfter(Roles(lines), i)
    ensures Compliant(check, lines[i..], flag) <==> CompliantFrom(check, lines, i)
    decreases |lines| - i
  {
    if i < |lines| {
      var flag' := FlagAfter(Roles(lines), i + 1);
      VerdictFrom(check, lines, i + 1, flag');
      VerdictStep(check, lines, i, flag, flag');
      OneMoreCompliant(check, lines, i);
    }
  }

  /** With guards, a fix leaves every switched-off line as it is and replaces every other bad line by its fix. */
  lemma {:induction false} GuardedLinesAreKept(check: Check, lines: seq<string>, i: nat)
    requires check.respectsGuards && i < |lines|
    ensures FixLines(check, lines, true)[i] ==
            if LineCompliant(check, lines, i) then lines[i] else check.line(lines[i]).fixed
  {
    FixFrom(check, lines, i);
    LineStep(check, lines, i);
    assert lines[i..][0] == lines[i];
    assert FixLines(check, lines, true)[i] == FixLines(check, lines, true)[i..][0];
  }

  /** The verdict is that of a full scan: every line that is not switched off is compliant. */
  lemma {:induction false} VerdictIsFullScan(check: Check, lines: seq<string>)
    requires check.respectsGuards
    ensures Compliant(check, lines, true) <==> forall i :: 0 <= i < |lines| ==> LineCompliant(check, lines, i)
  {
    VerdictFrom(check, lines, 0, true);
    assert lines[0..] == lines;
  }
}
