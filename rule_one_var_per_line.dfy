/** The `one-var-per-line` rule: a variable declaration naming several
    variables before its type. */
module OneVarPerLine {
  import opened Wrappers
  import opened Text
  import opened Types

  const Id := "one-var-per-line"
  const Meta := RuleMeta("Enforce one variable declaration per line", Style, false)
  const DefaultSeverity := Info

  function Message(count: nat): (m: string)
    ensures MatchesAt(m, NatToString(count), 20)
  {
    "Multiple variables (" + NatToString(count) + ") declared on one line. Consider one variable per line."
  }

  /** The `variable_declaration` handler: with `c` the number of commas
      before the first colon, one report naming `c + 1` variables when `c`
      is positive; no report without a colon. */
  function CheckVariableDeclaration(n: Node): (r: seq<Report>)
    ensures |r| <= 1
    ensures |r| == 1 <==>
              var colon := IndexOf(n.text, ":");
              colon != -1 && exists i :: 0 <= i < colon && n.text[i] == ','
    ensures |r| == 1 ==>
              var colon := IndexOf(n.text, ":");
              && r[0].range == NodeRange(n) && r[0].fix.None?
              && Contains(r[0].message, NatToString(CountChar(n.text[..colon], ',') + 1))
  {
    var text := n.text;
    var colonIndex := IndexOf(text, ":");
    if colonIndex == -1 then []
    else
      var commaCount := CountChar(text[..colonIndex], ',');
      CommasBeforeIff(text, colonIndex);
      if commaCount > 0 then
        var m := Message(commaCount + 1);
        ContainsAt(m, NatToString(commaCount + 1), 20);
        [Plain(m, NodeRange(n))]
      else
        []
  }

  /** Some comma lies before `colon` exactly when the prefix counts one. */
  lemma CommasBeforeIff(text: string, colon: nat)
    requires colon <= |text|
    ensures CountChar(text[..colon], ',') > 0 <==> exists i :: 0 <= i < colon && text[i] == ','
  {
    var t := text[..colon];
    CountZeroIff(t, ',');
    assert forall i :: 0 <= i < colon ==> t[i] == text[i];
  }

  lemma CountZeroIff(s: string, c: char)
    ensures CountChar(s, c) > 0 <==> exists i :: 0 <= i < |s| && s[i] == c
  {
    if CountChar(s, c) == 0 {
      CountZero(s, c);
    } else {
      if forall i :: 0 <= i < |s| ==> s[i] != c {
        CountAbsent(s, c);
      }
    }
  }

  function Create(ctx: Context): (l: Listener)
    ensures Keys(l) == ["variable_declaration"] && l.entries[0].1.Single?
    ensures forall n: Node, s: bool :: l.entries[0].1.handler(n, s) == CheckVariableDeclaration(n)
  {
    Listener([("variable_declaration", Single((n: Node, s: bool) => CheckVariableDeclaration(n)))], false)
  }
}
