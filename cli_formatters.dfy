/** The command-line tool's output formats: `formatUnix`, `formatStylish`,
    and the records `formatJson` and `formatSonar` serialise. */
module CliFormatters {
  import opened Wrappers
  import opened Text
  import opened Types

  /** The issues of a run per file, in the insertion order a `Map` is
      iterated in. */
  type FileIssues = seq<(string, seq<LintIssue>)>

  /** One file's issues, each with the file's path. */
  function Tag(file: string, issues: seq<LintIssue>): (r: seq<(string, LintIssue)>)
    ensures |r| == |issues|
    ensures forall k :: 0 <= k < |r| ==> r[k] == (file, issues[k])
  {
    seq(|issues|, k requires 0 <= k < |issues| => (file, issues[k]))
  }

  /** Every issue of the run with its file, file by file: the order of the
      nested loops of every formatter. */
  function Flat(files: FileIssues): seq<(string, LintIssue)> {
    if files == [] then []
    else Flat(files[..|files| - 1]) + Tag(files[|files| - 1].0, files[|files| - 1].1)
  }

  /** The issue count of the run. */
  function TotalIssues(files: FileIssues): nat {
    if files == [] then 0 else TotalIssues(files[..|files| - 1]) + |files[|files| - 1].1|
  }

  lemma {:induction false} FlatLength(files: FileIssues)
    ensures |Flat(files)| == TotalIssues(files)
  {
    if files != [] {
      FlatLength(files[..|files| - 1]);
    }
  }

  /** One more file in the outer loop. */
  lemma FlatStep(files: FileIssues, i: nat)
    requires i < |files|
    ensures Flat(files[..i + 1]) == Flat(files[..i]) + Tag(files[i].0, files[i].1)
  {
    assert files[..i + 1][..i] == files[..i];
  }

  /** One more issue in the inner loop. */
  lemma TagStep(file: string, issues: seq<LintIssue>, j: nat)
    requires j < |issues|
    ensures Tag(file, issues[..j + 1]) == Tag(file, issues[..j]) + [(file, issues[j])]
  {
  }

  /** The word both text formats print: `error` for errors, `warning` for
      every other severity. */
  function SeverityWord(s: Severity): (w: string)
    ensures w == "error" <==> s == Error
    ensures w == "warning" <==> s != Error
  {
    if s == Error then "error" else "warning"
  }

  // ---------------------------------------------------------------------
  // Unix
  // ---------------------------------------------------------------------

  /** `file:L:C: severity: message [ruleId]`, with 1-based line and column. */
  function UnixLine(file: string, issue: LintIssue): string {
    file + ":" + NatToString(issue.range.start.line + 1) + ":" + NatToString(issue.range.start.column + 1)
    + UnixTail(issue)
  }

  /** What follows the position: `: severity: message [ruleId]`. */
  function UnixTail(issue: LintIssue): (r: string)
    ensures |r| > 0 && r[0] == ':'
  {
    ": " + SeverityWord(issue.severity) + ": " + issue.message + " [" + issue.ruleId + "]"
  }

  /** One line per issue, in loop order. */
  function UnixLines(files: FileIssues): (r: seq<string>)
    ensures |r| == |Flat(files)|
    ensures forall k :: 0 <= k < |r| ==> r[k] == UnixLine(Flat(files)[k].0, Flat(files)[k].1)
  {
    var all := Flat(files);
    seq(|all|, k requires 0 <= k < |all| => UnixLine(all[k].0, all[k].1))
  }

  /** `formatUnix`: the nested loops push one line per issue; the lines are
      joined with line feeds. */
  method FormatUnix(files: FileIssues) returns (out: string)
    ensures out == Join(UnixLines(files), "\n")
  {
    var lines: seq<string> := [];
    ghost var done: seq<(string, LintIssue)> := [];
    for i := 0 to |files|
      invariant done == Flat(files[..i])
      invariant |lines| == |done|
      invariant forall k :: 0 <= k < |lines| ==> lines[k] == UnixLine(done[k].0, done[k].1)
    {
      var (file, fileIssues) := files[i];
      assert done + Tag(file, fileIssues[..0]) == done;
      for j := 0 to |fileIssues|
        invariant done == Flat(files[..i]) + Tag(file, fileIssues[..j])
        invariant |lines| == |done|
        invariant forall k :: 0 <= k < |lines| ==> lines[k] == UnixLine(done[k].0, done[k].1)
      {
        var issue := fileIssues[j];
        lines := lines + [UnixLine(file, issue)];
        TagStep(file, fileIssues, j);
        done := done + [(file, issue)];
      }
      assert fileIssues[..|fileIssues|] == fileIssues;
      FlatStep(files, i);
    }
    assert files[..|files|] == files;
    assert lines == UnixLines(files);
    out := Join(lines, "\n");
  }

  /** The end of the run of digits starting at `i`. */
  function DigitEnd(s: string, i: nat): (j: nat)
    requires i <= |s|
    ensures i <= j <= |s|
    decreases |s| - i
  {
    if i < |s| && IsDigit(s[i]) then DigitEnd(s, i + 1) else i
  }

  /** A run of digits that ends at `j` is the run `DigitEnd` finds. */
  lemma {:induction false} DigitEndExact(s: string, i: nat, j: nat)
    requires i <= j <= |s|
    requires forall k :: i <= k < j ==> IsDigit(s[k])
    requires j < |s| ==> !IsDigit(s[j])
    ensures DigitEnd(s, i) == j
    decreases j - i
  {
    if i < j {
      DigitEndExact(s, i + 1, j);
    }
  }

  /** Reading a number back at position `i` of `s`, where `s` holds the
      rendering of `n` up to `j`, followed by a non-digit. */
  lemma ReadBack(s: string, i: nat, j: nat, n: nat)
    requires j == i + |NatToString(n)| && j < |s| && !IsDigit(s[j])
    requires s[i..j] == NatToString(n)
    ensures DigitEnd(s, i) == j
    ensures ParseDecimal(s[i..j]) == n
  {
    var t := NatToString(n);
    forall k | i <= k < j ensures IsDigit(s[k]) {
      assert s[k] == t[k - i];
    }
    DigitEndExact(s, i, j);
    DecimalRoundTrip(n);
  }

  /** A reader of the position field: the digits from `i` up to a `:`,
      then the digits after it; `None` when either run is empty or the
      `:` is missing. */
  function ReadPosition(l: string, i: nat): Option<(nat, nat)>
    requires i <= |l|
  {
    var j := DigitEnd(l, i);
    if j == i || j == |l| || l[j] != ':' then None
    else
      var k := DigitEnd(l, j + 1);
      if k == j + 1 then None
      else Some((ParseDecimal(l[i..j]), ParseDecimal(l[j + 1..k])))
  }

  /** Two rendered numbers separated by `:` at `j`, the second ending at
      `k` before a non-digit, read back as those numbers. */
  lemma ReadTwo(l: string, i: nat, j: nat, k: nat, m: nat, n: nat)
    requires j == i + |NatToString(m)| && k == j + 1 + |NatToString(n)| && k < |l|
    requires l[i..j] == NatToString(m) && l[j] == ':'
    requires l[j + 1..k] == NatToString(n) && !IsDigit(l[k])
    ensures ReadPosition(l, i) == Some((m, n))
  {
    ReadBack(l, i, j, m);
    ReadBack(l, j + 1, k, n);
    ReadPositionIs(l, i, j, k);
  }

  /** The reader at work: two non-empty runs of digits around a `:`. */
  lemma ReadPositionIs(l: string, i: nat, j: nat, k: nat)
    requires i < j < k <= |l| && k > j + 1
    requires DigitEnd(l, i) == j && l[j] == ':' && DigitEnd(l, j + 1) == k
    ensures ReadPosition(l, i) == Some((ParseDecimal(l[i..j]), ParseDecimal(l[j + 1..k])))
  {
  }

  /** Where the fields of `u + a + ":" + b + rest` lie. */
  lemma ConcatFields(u: string, a: string, b: string, rest: string, j: nat, k: nat)
    requires |rest| > 0 && j == |u| + |a| && k == j + 1 + |b|
    ensures var l := u + a + ":" + b + rest;
            && k < |l| && l[|u|..j] == a && l[j] == ':' && l[j + 1..k] == b && l[k] == rest[0]
  {
    var l := u + a + ":" + b + rest;
    assert l[|u|..j] == a;
    assert l[j + 1..k] == b;
  }

  /** The two numbers of `L:C` followed by a non-digit read back as `L`
      and `C`, whatever precedes them. */
  lemma ReadTwoConcat(u: string, m: nat, n: nat, rest: string)
    requires |rest| > 0 && !IsDigit(rest[0])
    ensures ReadPosition(u + NatToString(m) + ":" + NatToString(n) + rest, |u|) == Some((m, n))
  {
    var a, b := NatToString(m), NatToString(n);
    var j := |u| + |a|;
    var k := j + 1 + |b|;
    ConcatFields(u, a, b, rest, j, k);
    ReadTwo(u + a + ":" + b + rest, |u|, j, k, m, n);
  }

  /** The numbers after the file name and its `:` read back as the 1-based
      line and column. */
  lemma UnixLineReadsBack(file: string, issue: LintIssue)
    ensures ReadPosition(UnixLine(file, issue), |file| + 1)
            == Some((issue.range.start.line + 1, issue.range.start.column + 1))
  {
    ReadTwoConcat(file + ":", issue.range.start.line + 1, issue.range.start.column + 1, UnixTail(issue));
  }

  // ---------------------------------------------------------------------
  // Stylish
  // ---------------------------------------------------------------------

  /** The escape sequences; all of them empty without colour. */
  datatype Palette = Palette(reset: string, red: string, yellow: string, cyan: string, gray: string, bold: string)

  function Colors(useColor: bool): (c: Palette)
    ensures !useColor ==> c == Palette("", "", "", "", "", "")
    ensures useColor ==> forall e :: e in [c.reset, c.red, c.yellow, c.cyan, c.gray, c.bold] ==> |e| >= 4 && e[0] == '\U{1B}'
  {
    if useColor then Palette("\U{1B}[0m", "\U{1B}[31m", "\U{1B}[33m", "\U{1B}[36m", "\U{1B}[90m", "\U{1B}[1m")
    else Palette("", "", "", "", "", "")
  }

  /** The line that opens a file's block: its path relative to the
      working directory, in bold. */
  function FileHeader(relativePath: string, c: Palette): string {
    "\n" + c.bold + relativePath + c.reset
  }

  function StylishLine(issue: LintIssue, c: Palette): string {
    var severityColor := if issue.severity == Error then c.red else c.yellow;
    "  " + c.gray + NatToString(issue.range.start.line + 1) + ":" + NatToString(issue.range.start.column + 1) + c.reset + "  "
    + severityColor + SeverityWord(issue.severity) + c.reset + "  " + issue.message + "  " + c.gray + issue.ruleId + c.reset
  }

  /** One line per issue of a file. */
  function StylishLines(issues: seq<LintIssue>, c: Palette): (r: seq<string>)
    ensures |r| == |issues|
  {
    if issues == [] then []
    else StylishLines(issues[..|issues| - 1], c) + [StylishLine(issues[|issues| - 1], c)]
  }

  /** The k-th stylish line of a file is the line of its k-th issue. */
  lemma {:induction false} StylishLinesAre(issues: seq<LintIssue>, c: Palette)
    ensures forall k :: 0 <= k < |issues| ==> StylishLines(issues, c)[k] == StylishLine(issues[k], c)
  {
    if issues != [] {
      StylishLinesAre(issues[..|issues| - 1], c);
    }
  }

  /** The blocks of all files: a header, then one line per issue. */
  function StylishBody(files: FileIssues, c: Palette, relative: string -> string): seq<string> {
    if files == [] then []
    else
      var last := files[|files| - 1];
      StylishBody(files[..|files| - 1], c, relative) + [FileHeader(relative(last.0), c)] + StylishLines(last.1, c)
  }

  /** The issues counted as errors, and the ones counted as warnings. */
  function ErrorCount(issues: seq<(string, LintIssue)>): nat {
    if issues == [] then 0
    else ErrorCount(issues[..|issues| - 1]) + (if issues[|issues| - 1].1.severity == Error then 1 else 0)
  }

  function WarningCount(issues: seq<(string, LintIssue)>): nat {
    if issues == [] then 0
    else WarningCount(issues[..|issues| - 1]) + (if issues[|issues| - 1].1.severity != Error then 1 else 0)
  }

  /** Every issue is counted exactly once, as an error or as a warning. */
  lemma {:induction false} CountsAddUp(issues: seq<(string, LintIssue)>)
    ensures ErrorCount(issues) + WarningCount(issues) == |issues|
  {
    if issues != [] {
      CountsAddUp(issues[..|issues| - 1]);
    }
  }

  /** The summary line: the problem count with the error and warning
      counts, or that there are none. */
  function Summary(errors: nat, warnings: nat, c: Palette): string {
    if errors > 0 || warnings > 0 then
      var summaryColor := if errors > 0 then c.red else c.yellow;
      "\n" + summaryColor + c.bold + "\U{2716} " + NatToString(errors + warnings) + " problem(s)" + c.reset + " "
      + "(" + NatToString(errors) + " error(s), " + NatToString(warnings) + " warning(s))\n"
    else
      "\n" + c.cyan + "\U{2713} No problems found" + c.reset + "\n"
  }

  /** The lines of `formatStylish`: the blocks, then the summary. */
  function StylishOutput(files: FileIssues, useColor: bool, relative: string -> string): seq<string> {
    var c := Colors(useColor);
    var all := Flat(files);
    StylishBody(files, c, relative) + [Summary(ErrorCount(all), WarningCount(all), c)]
  }

  /** The inner loop of `formatStylish`: a line per issue of one file, and
      the error and warning counters carried on over its issues. */
  method StylishFile(file: string, fileIssues: seq<LintIssue>, c: Palette, ghost done0: seq<(string, LintIssue)>,
                     errors0: nat, warnings0: nat)
    returns (block: seq<string>, errors: nat, warnings: nat, ghost done: seq<(string, LintIssue)>)
    requires errors0 == ErrorCount(done0) && warnings0 == WarningCount(done0)
    ensures block == StylishLines(fileIssues, c)
    ensures done == done0 + Tag(file, fileIssues)
    ensures errors == ErrorCount(done) && warnings == WarningCount(done)
  {
    block, errors, warnings, done := [], errors0, warnings0, done0;
    assert done0 + Tag(file, fileIssues[..0]) == done0;
    for j := 0 to |fileIssues|
      invariant done == done0 + Tag(file, fileIssues[..j])
      invariant block == StylishLines(fileIssues[..j], c)
      invariant errors == ErrorCount(done) && warnings == WarningCount(done)
    {
      var issue := fileIssues[j];
      block := block + [StylishLine(issue, c)];
      assert fileIssues[..j + 1][..j] == fileIssues[..j];
      if issue.severity == Error {
        errors := errors + 1;
      } else {
        warnings := warnings + 1;
      }
      TagStep(file, fileIssues, j);
      assert (done + [(file, issue)])[..|done|] == done;
      done := done + [(file, issue)];
    }
    assert fileIssues[..|fileIssues|] == fileIssues;
  }

  /** One more file block. */
  lemma StylishBodyStep(files: FileIssues, i: nat, c: Palette, relative: string -> string)
    requires i < |files|
    ensures StylishBody(files[..i + 1], c, relative)
            == StylishBody(files[..i], c, relative) + [FileHeader(relative(files[i].0), c)] + StylishLines(files[i].1, c)
  {
    assert files[..i + 1][..i] == files[..i];
  }

  /** `formatStylish`: the loops push a header per file and a line per
      issue and count errors and warnings; the summary closes the output. */
  method FormatStylish(files: FileIssues, useColor: bool, relative: string -> string) returns (out: string)
    ensures out == Join(StylishOutput(files, useColor, relative), "\n")
  {
    var c := Colors(useColor);
    var lines: seq<string> := [];
    var totalErrors := 0;
    var totalWarnings := 0;
    ghost var done: seq<(string, LintIssue)> := [];
    for i := 0 to |files|
      invariant done == Flat(files[..i])
      invariant lines == StylishBody(files[..i], c, relative)
      invariant totalErrors == ErrorCount(done) && totalWarnings == WarningCount(done)
    {
      var (file, fileIssues) := files[i];
      var block;
      block, totalErrors, totalWarnings, done := StylishFile(file, fileIssues, c, done, totalErrors, totalWarnings);
      lines := lines + [FileHeader(relative(file), c)] + block;
      StylishBodyStep(files, i, c, relative);
      FlatStep(files, i);
    }
    assert files[..|files|] == files;
    lines := lines + [Summary(totalErrors, totalWarnings, c)];
    out := Join(lines, "\n");
  }

  /** Without colour the summary is plain text. */
  lemma PlainSummary(errors: nat, warnings: nat)
    ensures errors + warnings > 0 ==>
              Summary(errors, warnings, Colors(false))
              == "\n" + "\U{2716} " + NatToString(errors + warnings) + " problem(s)" + " "
                 + "(" + NatToString(errors) + " error(s), " + NatToString(warnings) + " warning(s))\n"
    ensures errors + warnings == 0 ==> Summary(errors, warnings, Colors(false)) == "\n" + "\U{2713} No problems found" + "\n"
  {
    var c := Colors(false);
    if errors + warnings > 0 {
      PlainProblems(errors, warnings, c);
    } else {
      PlainClean(c);
    }
  }

  lemma PlainProblems(errors: nat, warnings: nat, c: Palette)
    requires errors + warnings > 0 && c == Palette("", "", "", "", "", "")
    ensures Summary(errors, warnings, c)
            == "\n" + "\U{2716} " + NatToString(errors + warnings) + " problem(s)" + " "
               + "(" + NatToString(errors) + " error(s), " + NatToString(warnings) + " warning(s))\n"
  {
    var color := if errors > 0 then c.red else c.yellow;
    assert color == [] && c.bold == [] && c.reset == [];
  }

  lemma PlainClean(c: Palette)
    requires c == Palette("", "", "", "", "", "")
    ensures Summary(0, 0, c) == "\n" + "\U{2713} No problems found" + "\n"
  {
    assert c.cyan == [] && c.reset == [];
  }

  /** The summary reports the number of issues of the run when there are
      any, and "No problems found" otherwise; without colour it is plain text. */
  lemma SummaryCounts(files: FileIssues)
    ensures var all := Flat(files);
            var s := Summary(ErrorCount(all), WarningCount(all), Colors(false));
            && (TotalIssues(files) > 0 ==>
                  s == "\n" + "\U{2716} " + NatToString(TotalIssues(files)) + " problem(s)" + " "
                       + "(" + NatToString(ErrorCount(all)) + " error(s), " + NatToString(WarningCount(all)) + " warning(s))\n")
            && (TotalIssues(files) == 0 ==> s == "\n" + "\U{2713} No problems found" + "\n")
  {
    var all := Flat(files);
    CountsAddUp(all);
    FlatLength(files);
    PlainSummary(ErrorCount(all), WarningCount(all));
  }

  // ---------------------------------------------------------------------
  // JSON and SonarQube records
  // ---------------------------------------------------------------------

  /** The `fix` member of a JSON record: the text and the offsets, which
      are left out when undefined. */
  datatype JsonFix = JsonFix(text: string, start: Option<nat>, end: Option<nat>)

  datatype JsonIssue = JsonIssue(
    filePath: string, ruleId: string, severity: string, message: string,
    line: nat, column: nat, endLine: nat, endColumn: nat,
    fix: Option<JsonFix>)

  /** The record of one issue: the severity as configured, 1-based lines
      and columns, and the fix or `null`. */
  function JsonOf(file: string, issue: LintIssue): (j: JsonIssue)
    ensures j.fix.None? <==> issue.fix.None?
  {
    JsonIssue(
      file, issue.ruleId, SeverityName(issue.severity), issue.message,
      issue.range.start.line + 1, issue.range.start.column + 1,
      issue.range.end.line + 1, issue.range.end.column + 1,
      match issue.fix
      case None => None
      case Some(f) => Some(JsonFix(f.text, f.range.start.offset, f.range.end.offset)))
  }

  function JsonRecords(files: FileIssues): (r: seq<JsonIssue>)
    ensures |r| == |Flat(files)|
    ensures forall k :: 0 <= k < |r| ==> r[k] == JsonOf(Flat(files)[k].0, Flat(files)[k].1)
  {
    var all := Flat(files);
    seq(|all|, k requires 0 <= k < |all| => JsonOf(all[k].0, all[k].1))
  }

  /** `formatJson`: the nested loops push one record per issue. */
  method FormatJson(files: FileIssues) returns (result: seq<JsonIssue>)
    ensures result == JsonRecords(files)
  {
    result := [];
    ghost var done: seq<(string, LintIssue)> := [];
    for i := 0 to |files|
      invariant done == Flat(files[..i])
      invariant |result| == |done|
      invariant forall k :: 0 <= k < |result| ==> result[k] == JsonOf(done[k].0, done[k].1)
    {
      var (file, fileIssues) := files[i];
      assert done + Tag(file, fileIssues[..0]) == done;
      for j := 0 to |fileIssues|
        invariant done == Flat(files[..i]) + Tag(file, fileIssues[..j])
        invariant |result| == |done|
        invariant forall k :: 0 <= k < |result| ==> result[k] == JsonOf(done[k].0, done[k].1)
      {
        var issue := fileIssues[j];
        result := result + [JsonOf(file, issue)];
        TagStep(file, fileIssues, j);
        done := done + [(file, issue)];
      }
      assert fileIssues[..|fileIssues|] == fileIssues;
      FlatStep(files, i);
    }
    assert files[..|files|] == files;
  }

  /** The severities SonarQube knows. */
  function SonarSeverity(s: Severity): (r: string)
    ensures r == "MAJOR" <==> s == Error
    ensures r == "MINOR" <==> s == Warn
    ensures r == "INFO" <==> s == Info || s == Off
  {
    match s
    case Error => "MAJOR"
    case Warn => "MINOR"
    case _ => "INFO"
  }

  datatype SonarIssue = SonarIssue(
    engineId: string, ruleId: string, severity: string, issueType: string,
    message: string, filePath: string,
    startLine: nat, startColumn: nat, endLine: nat, endColumn: nat)

  /** The generic-issue record of one issue: 1-based lines, 0-based columns. */
  function SonarOf(file: string, issue: LintIssue): SonarIssue {
    SonarIssue(
      "pascallint", issue.ruleId, SonarSeverity(issue.severity), "CODE_SMELL",
      issue.message, file,
      issue.range.start.line + 1, issue.range.start.column,
      issue.range.end.line + 1, issue.range.end.column)
  }

  function SonarRecords(files: FileIssues): (r: seq<SonarIssue>)
    ensures |r| == |Flat(files)|
    ensures forall k :: 0 <= k < |r| ==> r[k] == SonarOf(Flat(files)[k].0, Flat(files)[k].1)
  {
    var all := Flat(files);
    seq(|all|, k requires 0 <= k < |all| => SonarOf(all[k].0, all[k].1))
  }

  /** `formatSonar`: the nested loops push one record per issue into
      `result.issues`. */
  method FormatSonar(files: FileIssues) returns (issues: seq<SonarIssue>)
    ensures issues == SonarRecords(files)
  {
    issues := [];
    ghost var done: seq<(string, LintIssue)> := [];
    for i := 0 to |files|
      invariant done == Flat(files[..i])
      invariant |issues| == |done|
      invariant forall k :: 0 <= k < |issues| ==> issues[k] == SonarOf(done[k].0, done[k].1)
    {
      var (file, fileIssues) := files[i];
      assert done + Tag(file, fileIssues[..0]) == done;
      for j := 0 to |fileIssues|
        invariant done == Flat(files[..i]) + Tag(file, fileIssues[..j])
        invariant |issues| == |done|
        invariant forall k :: 0 <= k < |issues| ==> issues[k] == SonarOf(done[k].0, done[k].1)
      {
        var issue := fileIssues[j];
        issues := issues + [SonarOf(file, issue)];
        TagStep(file, fileIssues, j);
        done := done + [(file, issue)];
      }
      assert fileIssues[..|fileIssues|] == fileIssues;
      FlatStep(files, i);
    }
    assert files[..|files|] == files;
  }

  /** The JSON and SonarQube records of a run list the same issues in the
      same order; lines agree, and SonarQube's columns are one less. */
  lemma JsonSonarAgree(files: FileIssues)
    ensures |JsonRecords(files)| == |SonarRecords(files)| == TotalIssues(files)
    ensures forall k :: 0 <= k < |JsonRecords(files)| ==>
              var j := JsonRecords(files)[k];
              var s := SonarRecords(files)[k];
              && s.filePath == j.filePath && s.ruleId == j.ruleId && s.message == j.message
              && s.startLine == j.line && s.startColumn + 1 == j.column
              && s.endLine == j.endLine && s.endColumn + 1 == j.endColumn
              && (s.severity == "MAJOR" <==> j.severity == "error")
  {
    FlatLength(files);
    forall k | 0 <= k < |JsonRecords(files)|
      ensures var s := SonarRecords(files)[k]; var j := JsonRecords(files)[k];
              s.severity == "MAJOR" <==> j.severity == "error"
    {
      var sev := Flat(files)[k].1.severity;
      assert JsonRecords(files)[k].severity == SeverityName(sev);
      assert SeverityName(sev) == "error" <==> sev == Error;
    }
  }

  /** The unix line of the k-th issue reads back as the k-th JSON record's
      line and column. */
  lemma UnixJsonAgree(files: FileIssues, k: nat)
    requires k < |Flat(files)|
    ensures var j := JsonRecords(files)[k];
            ReadPosition(UnixLines(files)[k], |j.filePath| + 1) == Some((j.line, j.column))
  {
    var p := Flat(files)[k];
    UnixLineReadsBack(p.0, p.1);
  }
}
