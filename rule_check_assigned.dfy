/** The `check-assigned` rule: a call that frees a variable (`X.Free` or
    `FreeAndNil(X)`) with no `Assigned(X)` or `X <> nil` test on the five
    lines above it. */
module CheckAssigned {
  import opened Wrappers
  import opened Text
  import opened Types

  const Id := "check-assigned"
  const Meta := RuleMeta("Suggest checking Assigned before Free", BestPractice, false)
  const DefaultSeverity := Info

  /** `/^(\w+)\.Free$/i` and its captured identifier. */
  function MatchDotFree(text: string): (r: Option<string>)
    ensures r.Some? ==>
              var k := |r.value|;
              && k >= 1 && |text| == k + 5 && r.value == text[..k] && AllWordChars(r.value)
              && text[k] == '.' && ToLower(text[k + 1..]) == "free"
  {
    var k := WordRun(text, 0);
    if k == 0 || |text| != k + 5 || text[k] != '.' || ToLower(text[k + 1..]) != "free" then None
    else Some(text[..k])
  }

  /** `text` is a `FreeAndNil` call of the word `w`: `FreeAndNil` in any
      letter case, blanks, `(` at `open`, blanks, `w` at `start`, blanks,
      and a closing `)` that ends the text. */
  predicate FreeAndNilCallAt(text: string, w: string, open: nat, start: nat) {
    && 10 <= open < start && start + |w| < |text|
    && ToLower(text[..10]) == "freeandnil" && AllSpace(text[10..open]) && text[open] == '('
    && AllSpace(text[open + 1..start]) && text[start..start + |w|] == w
    && AllSpace(text[start + |w|..|text| - 1]) && text[|text| - 1] == ')'
    && |w| >= 1 && AllWordChars(w)
  }

  /** `/^FreeAndNil\s*\(\s*(\w+)\s*\)$/i` and its captured identifier;
      `FreeAndNilSound` and `FreeAndNilComplete` show that a match is
      exactly a `FreeAndNil` call whose word is the capture. */
  function MatchFreeAndNil(text: string): (r: Option<string>)
    ensures r.Some? ==>
              && |text| >= 10 && ToLower(text[..10]) == "freeandnil"
              && |r.value| >= 1 && AllWordChars(r.value)
              && text[|text| - 1] == ')'
  {
    if |text| < 10 || ToLower(text[..10]) != "freeandnil" then None
    else
      var open := SkipSpaces(text, 10);
      if open == |text| || text[open] != '(' then None
      else
        var start := SkipSpaces(text, open + 1);
        var k := WordRun(text, start);
        if k == 0 then None
        else
          var close := SkipSpaces(text, start + k);
          if close + 1 != |text| || text[close] != ')' then None
          else Some(text[start..start + k])
  }

  /** The freed variable: the `.Free` capture, else the `FreeAndNil` one. */
  function FreedVariable(text: string): Option<string> {
    match MatchDotFree(text)
    case Some(v) => Some(v)
    case None => MatchFreeAndNil(text)
  }

  /** The two patterns never both match: a text matching `FreeAndNil(...)`
      has no `.` right after its leading word. */
  lemma PatternsExclusive(text: string)
    ensures !(MatchDotFree(text).Some? && MatchFreeAndNil(text).Some?)
  {
  }

  /** `w.Free`, in any letter case of `Free`, matches with `w` captured. */
  lemma DotFreeComplete(w: string, f: string)
    requires |w| >= 1 && AllWordChars(w) && |f| == 4 && ToLower(f) == "free"
    ensures MatchDotFree(w + "." + f) == Some(w)
  {
    var s := w + "." + f;
    assert s[..|w|] == w && s[|w|] == '.' && s[|w| + 1..] == f;
    assert forall j :: 0 <= j < |w| ==> s[j] == w[j];
    WordRunExact(s, 0, |w|);
  }

  /** A `FreeAndNil` call in any letter case and with any blanks around
      the parentheses matches, with its word captured. */
  lemma FreeAndNilComplete(f: string, b1: string, b2: string, w: string, b3: string)
    requires ToLower(f) == "freeandnil" && AllSpace(b1) && AllSpace(b2) && AllSpace(b3)
    requires |w| >= 1 && AllWordChars(w)
    ensures MatchFreeAndNil(f + b1 + "(" + b2 + w + b3 + ")") == Some(w)
  {
    var s := f + b1 + "(" + b2 + w + b3 + ")";
    var open, start := |f| + |b1|, |f| + |b1| + 1 + |b2|;
    CallPieces(f, b1, b2, w, b3);
    CallAtMatches(s, w, open, start);
  }

  /** Where the pieces of a `FreeAndNil` call lie in the text. */
  lemma CallPieces(f: string, b1: string, b2: string, w: string, b3: string)
    requires ToLower(f) == "freeandnil" && AllSpace(b1) && AllSpace(b2) && AllSpace(b3)
    requires |w| >= 1 && AllWordChars(w)
    ensures FreeAndNilCallAt(f + b1 + "(" + b2 + w + b3 + ")", w, |f| + |b1|, |f| + |b1| + 1 + |b2|)
  {
    var s := f + b1 + "(" + b2 + w + b3 + ")";
    var open, start := |f| + |b1|, |f| + |b1| + 1 + |b2|;
    assert s[..10] == f;
    assert s[10..open] == b1;
    assert s[open + 1..start] == b2;
    assert s[start..start + |w|] == w;
    assert s[start + |w|..|s| - 1] == b3;
  }

  /** A `FreeAndNil` call matches with its word captured. */
  lemma CallAtMatches(text: string, w: string, open: nat, start: nat)
    requires FreeAndNilCallAt(text, w, open, start)
    ensures MatchFreeAndNil(text) == Some(w)
  {
    CallRuns(text, w, open, start);
    MatchFreeAndNilAt(text, open, start, |w|);
  }

  /** The pattern matches with capture `w` exactly when the text is a
      `FreeAndNil` call of `w`. */
  lemma FreeAndNilIff(text: string, w: string)
    ensures MatchFreeAndNil(text) == Some(w) <==> exists open: nat, start: nat :: FreeAndNilCallAt(text, w, open, start)
  {
    if MatchFreeAndNil(text) == Some(w) {
      MatchShape(text, SkipSpaces(text, 10), SkipSpaces(text, SkipSpaces(text, 10) + 1));
    }
    if exists open: nat, start: nat :: FreeAndNilCallAt(text, w, open, start) {
      var open: nat, start: nat :| FreeAndNilCallAt(text, w, open, start);
      CallAtMatches(text, w, open, start);
    }
  }

  /** The runs the matcher skips and reads in a `FreeAndNil` call. */
  lemma CallRuns(text: string, w: string, open: nat, start: nat)
    requires FreeAndNilCallAt(text, w, open, start)
    ensures SkipSpaces(text, 10) == open
    ensures SkipSpaces(text, open + 1) == start
    ensures WordRun(text, start) == |w|
    ensures SkipSpaces(text, start + |w|) + 1 == |text|
  {
    BlankRun(text, 10, text[10..open]);
    assert text[start] == w[0];
    BlankRun(text, open + 1, text[open + 1..start]);
    CallWordRun(text, w, open, start);
    BlankRun(text, start + |w|, text[start + |w|..|text| - 1]);
  }

  /** The word of a call is followed by a blank or by the `)`. */
  lemma CallWordRun(text: string, w: string, open: nat, start: nat)
    requires FreeAndNilCallAt(text, w, open, start)
    ensures WordRun(text, start) == |w|
  {
    var e := start + |w|;
    if e < |text| - 1 {
      assert text[e] == text[e..|text| - 1][0];
    }
    WordRunIs(text, start, w);
  }

  /** The matcher's steps, given where each run ends. */
  lemma MatchFreeAndNilAt(text: string, open: nat, start: nat, k: nat)
    requires 10 <= open < |text| && ToLower(text[..10]) == "freeandnil"
    requires SkipSpaces(text, 10) == open && text[open] == '('
    requires start <= |text| && SkipSpaces(text, open + 1) == start
    requires k > 0 && WordRun(text, start) == k
    requires SkipSpaces(text, start + k) + 1 == |text| && text[|text| - 1] == ')'
    ensures MatchFreeAndNil(text) == Some(text[start..start + k])
  {
    assert text[open] == '(' && text[SkipSpaces(text, start + k)] == ')';
  }

  /** Blanks `b` at `k` followed by a non-space are skipped exactly. */
  lemma BlankRun(s: string, k: nat, b: string)
    requires k + |b| < |s| && s[k..k + |b|] == b && AllSpace(b) && !IsSpace(s[k + |b|])
    ensures SkipSpaces(s, k) == k + |b|
  {
    assert forall m :: k <= m < k + |b| ==> s[m] == b[m - k];
    SkipSpacesExact(s, k, k + |b|);
  }

  /** A word `w` at `k` followed by a non-word character is the run found there. */
  lemma WordRunIs(s: string, k: nat, w: string)
    requires k + |w| < |s| && s[k..k + |w|] == w && AllWordChars(w) && !IsWordChar(s[k + |w|])
    ensures WordRun(s, k) == |w|
  {
    assert forall m :: k <= m < k + |w| ==> s[m] == w[m - k];
    WordRunExact(s, k, |w|);
  }

  /** Every match has the shape of `FreeAndNilComplete`: the text splits
      into the keyword, blanks, `(`, blanks, the capture, blanks and `)`. */
  lemma FreeAndNilSound(text: string)
    requires MatchFreeAndNil(text).Some?
    ensures exists open: nat, start: nat ::
              var w := MatchFreeAndNil(text).value;
              && FreeAndNilCallAt(text, w, open, start)
              && text == text[..10] + text[10..open] + "(" + text[open + 1..start] + w + text[start + |w|..|text| - 1] + ")"
  {
    var w := MatchFreeAndNil(text).value;
    var open := SkipSpaces(text, 10);
    var start := SkipSpaces(text, open + 1);
    MatchShape(text, open, start);
    CallSplits(text, w, open, start);
  }

  /** The matcher's runs, read back as the pieces of a call. */
  lemma MatchShape(text: string, open: nat, start: nat)
    requires MatchFreeAndNil(text).Some?
    requires open == SkipSpaces(text, 10) && start == SkipSpaces(text, open + 1)
    ensures FreeAndNilCallAt(text, MatchFreeAndNil(text).value, open, start)
  {
    var k := WordRun(text, start);
    var close := SkipSpaces(text, start + k);
    assert MatchFreeAndNil(text).value == text[start..start + k];
    assert AllSpace(text[10..open]);
    assert AllSpace(text[open + 1..start]);
    assert AllSpace(text[start + k..close]);
    assert AllWordChars(text[start..start + k]);
  }

  lemma CallSplits(text: string, w: string, open: nat, start: nat)
    requires FreeAndNilCallAt(text, w, open, start)
    ensures text == text[..10] + text[10..open] + "(" + text[open + 1..start] + w + text[start + |w|..|text| - 1] + ")"
  {
    assert text[..open] == text[..10] + text[10..open];
    assert text[..open + 1] == text[..open] + "(";
    assert text[..start] == text[..open + 1] + text[open + 1..start];
    assert text[..start + |w|] == text[..start] + w;
    assert text[..|text| - 1] == text[..start + |w|] + text[start + |w|..|text| - 1];
    assert text == text[..|text| - 1] + ")";
  }

  /** The line guards `v`: it holds `assigned(v` or `v <> nil`, ignoring case. */
  predicate GuardsVariable(line: string, v: string) {
    var l := ToLower(line);
    Contains(l, "assigned(" + ToLower(v)) || Contains(l, ToLower(v) + " <> nil")
  }

  /** The first line the rule looks at: `Math.max(0, lineStart - 5)`. */
  function WindowStart(lineStart: nat): nat {
    if lineStart < 5 then 0 else lineStart - 5
  }

  /** Some existing, non-empty line among the five before `lineStart` guards `v`. */
  predicate HasAssignedCheck(lines: seq<string>, lineStart: nat, v: string) {
    exists i :: WindowStart(lineStart) <= i < lineStart && i < |lines| && lines[i] != "" && GuardsVariable(lines[i], v)
  }

  /** The window scan as the source writes it: a loop that stops at the
      first guarding line. */
  method ScanForAssigned(lines: seq<string>, lineStart: nat, varName: string) returns (hasAssignedCheck: bool)
    ensures hasAssignedCheck == HasAssignedCheck(lines, lineStart, varName)
  {
    hasAssignedCheck := false;
    var i := WindowStart(lineStart);
    while i < lineStart
      invariant WindowStart(lineStart) <= i <= lineStart || (lineStart == 0 && i == 0)
      invariant forall j :: WindowStart(lineStart) <= j < i && j < |lines| && lines[j] != "" ==> !GuardsVariable(lines[j], varName)
    {
      if i < |lines| {
        var line := lines[i];
        if line != "" && Contains(ToLower(line), "assigned(" + ToLower(varName)) {
          hasAssignedCheck := true;
          return;
        }
        if line != "" && Contains(ToLower(line), ToLower(varName) + " <> nil") {
          hasAssignedCheck := true;
          return;
        }
      }
      i := i + 1;
    }
  }

  function Message(varName: string): string {
    "Consider checking 'Assigned(" + varName + ")' before freeing."
  }

  /** The `call_expression` handler: one report, without a fix, exactly when
      the call frees a variable that no line in the window guards. */
  function CheckCall(n: Node, source: string): (r: seq<Report>)
    ensures |r| <= 1
    ensures |r| == 1 <==>
              FreedVariable(n.text).Some?
              && !HasAssignedCheck(Split(source, '\n'), n.startPosition.row, FreedVariable(n.text).value)
    ensures |r| == 1 ==> r[0].range == NodeRange(n) && r[0].fix.None?
  {
    match FreedVariable(n.text)
    case None => []
    case Some(v) =>
      if HasAssignedCheck(Split(source, '\n'), n.startPosition.row, v) then []
      else [Plain(Message(v), NodeRange(n))]
  }

  function Create(ctx: Context): (l: Listener)
    ensures Keys(l) == ["call_expression"] && l.entries[0].1.Single?
    ensures forall n: Node, s: bool :: l.entries[0].1.handler(n, s) == CheckCall(n, ctx.sourceCode)
  {
    Listener([("call_expression", Single((n: Node, s: bool) => CheckCall(n, ctx.sourceCode)))], false)
  }

  /** A guard six or more lines above the call is outside the window; a
      call on the first line is always reported. */
  lemma WindowIsFiveLines(lines: seq<string>, lineStart: nat, v: string)
    ensures lineStart == 0 ==> !HasAssignedCheck(lines, lineStart, v)
    ensures HasAssignedCheck(lines, lineStart, v) ==>
              exists i :: lineStart - 5 <= i < lineStart && 0 <= i < |lines| && GuardsVariable(lines[i], v)
  {
  }
}
