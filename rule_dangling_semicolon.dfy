/** The `dangling-semicolon` rule: a `then` or `do` directly followed by a
    semicolon (an empty statement) inside an `if`, `while` or `for`. */
module DanglingSemicolon {
  import opened Wrappers
  import opened Text
  import opened Types

  const Id := "dangling-semicolon"
  const Meta := RuleMeta("Detect unintended empty statement (dangling semicolon)", ErrorCategory, true)
  const DefaultSeverity := Error

  /** The message names the statement, right after the opening quote. */
  function Message(statementType: string): (m: string)
    ensures MatchesAt(m, "semicolon", 11)
    ensures MatchesAt(m, statementType, 28)
  {
    "Unexpected semicolon after '" + statementType + "' creates an empty statement."
  }

  lemma MessageNamesStatement(statementType: string)
    ensures Contains(Message(statementType), statementType)
    ensures Contains(Message(statementType), "semicolon")
  {
    ContainsAt(Message(statementType), statementType, 28);
    ContainsAt(Message(statementType), "semicolon", 11);
  }

  /** The case-insensitive pattern `\b<kw>\s*;` matches at index `i`, for a
      lower-case keyword `kw` that starts with a letter. */
  predicate KeywordSemicolonAt(s: string, kw: string, i: nat) {
    i + |kw| <= |s|
    && ToLower(s[i..i + |kw|]) == kw
    && (i == 0 || !IsWordChar(s[i - 1]))
    && var j := SkipSpaces(s, i + |kw|); j < |s| && s[j] == ';'
  }

  /** A match starts with the keyword's first letter, in either case. */
  lemma FirstLetter(s: string, kw: string, i: nat)
    requires KeywordSemicolonAt(s, kw, i) && |kw| > 0
    ensures LowerChar(s[i]) == kw[0]
  {
    assert ToLower(s[i..i + |kw|])[0] == LowerChar(s[i]);
  }

  /** `s.match(pattern).index`: the leftmost match at or after `from`. */
  function FindKeywordSemicolon(s: string, kw: string, from: nat): (r: Option<nat>)
    requires from <= |s|
    ensures r.Some? ==> from <= r.value && KeywordSemicolonAt(s, kw, r.value)
    ensures r.Some? ==> forall j :: from <= j < r.value ==> !KeywordSemicolonAt(s, kw, j)
    ensures r.None? ==> forall j :: from <= j ==> !KeywordSemicolonAt(s, kw, j)
    decreases |s| - from
  {
    if KeywordSemicolonAt(s, kw, from) then Some(from)
    else if from == |s| then None
    else FindKeywordSemicolon(s, kw, from + 1)
  }

  /** The index, inside `s`, of the semicolon that ends the leftmost match:
      the last character of `match[0]`. */
  function SemicolonIndex(s: string, kw: string): (r: Option<nat>)
    ensures r.Some? ==> r.value < |s| && s[r.value] == ';'
    ensures r.Some? <==> exists i :: KeywordSemicolonAt(s, kw, i)
  {
    match FindKeywordSemicolon(s, kw, 0)
    case None => None
    case Some(i) => Some(SkipSpaces(s, i + |kw|))
  }

  /** The report for one pattern: a one-character range over the semicolon,
      with a fix that deletes it. */
  function PatternReports(n: Node, source: string, statementType: string, kw: string): (r: seq<Report>)
    ensures |r| <= 1
    ensures |r| == 1 <==> SemicolonIndex(n.text, kw).Some?
    ensures forall k :: 0 <= k < |r| ==> r[k].fix == Some(Fix(r[k].range, ""))
    ensures |r| == 1 ==>
              var k := SemicolonIndex(n.text, kw).value;
              var p := r[0].range.start;
              && n.text[k] == ';'
              && p == OffsetPosition(source, n.startIndex + k)
              && r[0].range.end == Position(p.line, p.column + 1, Some(n.startIndex + k + 1))
              && r[0].fix == Some(Fix(r[0].range, ""))
              && r[0].message == Message(statementType)
  {
    match SemicolonIndex(n.text, kw)
    case None => []
    case Some(k) =>
      var semicolonOffset := n.startIndex + k;
      var p := OffsetPosition(source, semicolonOffset);
      var range := Range(p, Position(p.line, p.column + 1, Some(semicolonOffset + 1)));
      [Fixed(Message(statementType), range, "")]
  }

  /** `checkDanglingSemicolon`: the `then` pattern, then the `do` pattern.
      A `then;` match gives the first report and a `do;` match the last,
      each on its own semicolon as `PatternReports` states. */
  function CheckDanglingSemicolon(n: Node, source: string, statementType: string): (r: seq<Report>)
    ensures |r| == (if SemicolonIndex(n.text, "then").Some? then 1 else 0)
                 + (if SemicolonIndex(n.text, "do").Some? then 1 else 0)
    ensures forall k :: 0 <= k < |r| ==> r[k].fix == Some(Fix(r[k].range, ""))
    ensures SemicolonIndex(n.text, "then").Some? ==> r[0] == PatternReports(n, source, statementType, "then")[0]
    ensures SemicolonIndex(n.text, "do").Some? ==> r[|r| - 1] == PatternReports(n, source, statementType, "do")[0]
  {
    var a := PatternReports(n, source, statementType, "then");
    var b := PatternReports(n, source, statementType, "do");
    a + b
  }

  /** The listener: one handler per control statement, each naming its statement. */
  function Create(ctx: Context): (l: Listener)
    ensures Keys(l) == ["if_statement", "while_statement", "for_statement"]
    ensures forall i :: 0 <= i < 3 ==> l.entries[i].1.Single?
    ensures forall n: Node, s: bool :: l.entries[0].1.handler(n, s) == CheckDanglingSemicolon(n, ctx.sourceCode, "if")
    ensures forall n: Node, s: bool :: l.entries[1].1.handler(n, s) == CheckDanglingSemicolon(n, ctx.sourceCode, "while")
    ensures forall n: Node, s: bool :: l.entries[2].1.handler(n, s) == CheckDanglingSemicolon(n, ctx.sourceCode, "for")
  {
    Listener([
      ("if_statement", Single((n: Node, s: bool) => CheckDanglingSemicolon(n, ctx.sourceCode, "if"))),
      ("while_statement", Single((n: Node, s: bool) => CheckDanglingSemicolon(n, ctx.sourceCode, "while"))),
      ("for_statement", Single((n: Node, s: bool) => CheckDanglingSemicolon(n, ctx.sourceCode, "for")))
    ], false)
  }

  /** In `if x > 0 then;` the `then` pattern ends on the semicolon at index
      13, and the `do` pattern does not match. */
  lemma DanglingThenMatches()
    ensures SemicolonIndex("if x > 0 then;", "then") == Some(13)
    ensures SemicolonIndex("if x > 0 then;", "do") == None
  {
    var t := "if x > 0 then;";
    assert t[9..13] == "then";
    assert ToLower("then") == "then";
    assert SkipSpaces(t, 13) == 13;
    assert KeywordSemicolonAt(t, "then", 9);
    forall j: nat | j < 9 ensures LowerChar(t[j]) != 't' {
      assert j == 0 || j == 1 || j == 2 || j == 3 || j == 4 || j == 5 || j == 6 || j == 7 || j == 8;
    }
    forall j: nat | j < 9 ensures !KeywordSemicolonAt(t, "then", j) {
      if KeywordSemicolonAt(t, "then", j) {
        FirstLetter(t, "then", j);
        assert false;
      }
    }
    assert FindKeywordSemicolon(t, "then", 0) == Some(9);
    forall j: nat | j < 14 ensures LowerChar(t[j]) != 'd' {
      assert j == 0 || j == 1 || j == 2 || j == 3 || j == 4 || j == 5 || j == 6 || j == 7
          || j == 8 || j == 9 || j == 10 || j == 11 || j == 12 || j == 13;
    }
    forall j: nat ensures !KeywordSemicolonAt(t, "do", j) {
      if KeywordSemicolonAt(t, "do", j) {
        FirstLetter(t, "do", j);
        assert false;
      }
    }
    assert FindKeywordSemicolon(t, "do", 0) == None;
  }

  /** `if x > 0 then; y := 1;` with the `if` node spanning its first 14
      characters: one report, on the semicolon at offset 13, line 0,
      column 13, whose message mentions the semicolon and whose fix
      deletes it. */
  lemma DanglingThenExample(source: string, n: Node)
    requires source == "if x > 0 then; y := 1;"
    requires n == Node("if_statement", "if x > 0 then;", Point(0, 0), Point(0, 14), 0, 14, [], [], [])
    ensures var r := CheckDanglingSemicolon(n, source, "if");
            |r| == 1 && r[0].range.start == Position(0, 13, Some(13))
            && r[0].range.end == Position(0, 14, Some(14))
            && r[0].fix == Some(Fix(r[0].range, ""))
            && Contains(r[0].message, "semicolon")
  {
    DanglingThenMatches();
    MessageNamesStatement("if");
    ExampleSemicolonPosition(source);
    OnlyThenReport(n, source, "if", 13);
  }

  /** The semicolon of the example sits on line 0, column 13. */
  lemma ExampleSemicolonPosition(source: string)
    requires source == "if x > 0 then; y := 1;"
    ensures OffsetPosition(source, 13) == Position(0, 13, Some(13))
  {
    var pre := ClampedTake(source, 13);
    assert pre == "if x > 0 then";
    FirstLineHasNoBreak();
  }

  /** When only the `then` pattern matches, the one report covers the
      semicolon and its fix deletes it. */
  lemma OnlyThenReport(n: Node, source: string, statementType: string, k: nat)
    requires SemicolonIndex(n.text, "then") == Some(k) && SemicolonIndex(n.text, "do") == None
    ensures var r := CheckDanglingSemicolon(n, source, statementType);
            var p := OffsetPosition(source, n.startIndex + k);
            && |r| == 1 && r[0].range.start == p
            && r[0].range.end == Position(p.line, p.column + 1, Some(n.startIndex + k + 1))
            && r[0].fix == Some(Fix(r[0].range, ""))
            && r[0].message == Message(statementType)
  {
    ThenOnly(n, source, statementType);
    var r := PatternReports(n, source, statementType, "then");
    assert |r| == 1 && SemicolonIndex(n.text, "then").value == k;
  }

  /** Without a `do` match the reports are those of the `then` pattern. */
  lemma ThenOnly(n: Node, source: string, statementType: string)
    requires SemicolonIndex(n.text, "do") == None
    ensures CheckDanglingSemicolon(n, source, statementType) == PatternReports(n, source, statementType, "then")
  {
    var a := PatternReports(n, source, statementType, "then");
    assert PatternReports(n, source, statementType, "do") == [];
    assert a + [] == a;
  }

  lemma FirstLineHasNoBreak()
    ensures CountChar("if x > 0 then", '\n') == 0
    ensures LastIndexOfChar("if x > 0 then", '\n') == -1
  {
    assert '\n' !in "if x > 0 then";
    CountAbsent("if x > 0 then", '\n');
  }

  /** In `while x do;` the `do` pattern ends on the semicolon at index 10,
      and the `then` pattern does not match. */
  lemma DanglingDoMatches()
    ensures SemicolonIndex("while x do;", "do") == Some(10)
    ensures SemicolonIndex("while x do;", "then") == None
  {
    var t := "while x do;";
    assert t[8..10] == "do";
    assert ToLower("do") == "do";
    assert SkipSpaces(t, 10) == 10;
    assert KeywordSemicolonAt(t, "do", 8);
    forall j: nat | j < 8 ensures LowerChar(t[j]) != 'd' {
      assert j == 0 || j == 1 || j == 2 || j == 3 || j == 4 || j == 5 || j == 6 || j == 7;
    }
    forall j: nat | j < 8 ensures !KeywordSemicolonAt(t, "do", j) {
      if KeywordSemicolonAt(t, "do", j) {
        FirstLetter(t, "do", j);
        assert false;
      }
    }
    assert FindKeywordSemicolon(t, "do", 0) == Some(8);
    forall j: nat | j < 11 ensures LowerChar(t[j]) != 't' {
      assert j == 0 || j == 1 || j == 2 || j == 3 || j == 4 || j == 5 || j == 6 || j == 7
          || j == 8 || j == 9 || j == 10;
    }
    forall j: nat ensures !KeywordSemicolonAt(t, "then", j) {
      if KeywordSemicolonAt(t, "then", j) {
        FirstLetter(t, "then", j);
        assert false;
      }
    }
    assert FindKeywordSemicolon(t, "then", 0) == None;
  }

  /** `while x do; y := 1;` with the `while` node spanning its first 11
      characters: one report, on the semicolon at offset 10, line 0,
      column 10, naming the `while` statement, whose fix deletes it. */
  lemma DanglingDoExample(source: string, n: Node)
    requires source == "while x do; y := 1;"
    requires n == Node("while_statement", "while x do;", Point(0, 0), Point(0, 11), 0, 11, [], [], [])
    ensures var r := CheckDanglingSemicolon(n, source, "while");
            |r| == 1 && r[0].range.start == Position(0, 10, Some(10))
            && r[0].range.end == Position(0, 11, Some(11))
            && r[0].fix == Some(Fix(r[0].range, ""))
            && Contains(r[0].message, "while") && Contains(r[0].message, "semicolon")
  {
    DanglingDoMatches();
    MessageNamesStatement("while");
    DoExampleSemicolonPosition(source);
    var r := CheckDanglingSemicolon(n, source, "while");
    var d := PatternReports(n, source, "while", "do");
    assert |r| == 1 && r[0] == d[0];
  }

  /** The semicolon of the `while` example sits on line 0, column 10. */
  lemma DoExampleSemicolonPosition(source: string)
    requires source == "while x do; y := 1;"
    ensures OffsetPosition(source, 10) == Position(0, 10, Some(10))
  {
    var pre := ClampedTake(source, 10);
    assert pre == "while x do";
    assert '\n' !in "while x do";
    CountAbsent("while x do", '\n');
  }
}
