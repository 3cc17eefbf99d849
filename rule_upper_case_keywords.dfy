/** The `upper-case-keywords` rule: a leaf whose text is a Pascal keyword
    in any case other than all lower case. */
module UpperCaseKeywords {
  import opened Wrappers
  import opened Text
  import opened Types

  const Id := "upper-case-keywords"
  const Meta := RuleMeta("Enforce consistent keyword casing", Style, true)
  const DefaultSeverity := Info

  const Keywords: set<string> := {
    "begin", "end", "if", "then", "else", "case", "of",
    "for", "to", "downto", "do", "while", "repeat", "until",
    "try", "except", "finally", "raise",
    "procedure", "function", "var", "const", "type",
    "class", "interface", "implementation", "unit", "uses",
    "and", "or", "not", "xor", "div", "mod", "shl", "shr",
    "nil", "true", "false", "inherited", "self",
    "array", "record", "set", "file", "string",
    "in", "is", "as", "with", "property", "read", "write",
    "private", "protected", "public", "published", "strict",
    "virtual", "override", "reintroduce", "abstract", "dynamic",
    "overload", "inline", "forward", "external", "cdecl", "stdcall"
  }

  function Message(text: string, lowerText: string): string {
    "Keyword '" + text + "' should be lowercase '" + lowerText + "'."
  }

  /** The `'*'` handler: a leaf (no named children) whose lower-cased text
      is a keyword and differs from the text gets one report, with a fix
      that writes the keyword in lower case. */
  function CheckNode(n: Node): (r: seq<Report>)
    ensures |r| <= 1
    ensures |r| == 1 <==> |n.namedChildren| == 0 && ToLower(n.text) in Keywords && n.text != ToLower(n.text)
    ensures |r| == 1 ==> r[0].range == NodeRange(n) && r[0].fix == Some(Fix(NodeRange(n), ToLower(n.text)))
  {
    var text := n.text;
    var lowerText := ToLower(text);
    if |n.namedChildren| > 0 then []
    else if lowerText !in Keywords then []
    else if text == lowerText then []
    else [Fixed(Message(text, lowerText), NodeRange(n), lowerText)]
  }

  /** A reported keyword has an upper-case letter in it. */
  lemma ReportedHasUpperCase(n: Node)
    requires |CheckNode(n)| == 1
    ensures exists i :: 0 <= i < |n.text| && IsUpper(n.text[i])
  {
    var l := ToLower(n.text);
    var i :| 0 <= i < |n.text| && n.text[i] != l[i];
    assert l[i] == LowerChar(n.text[i]);
  }

  /** Applying the fix settles the report: the same leaf with the fixed
      text is not reported. */
  lemma FixSettlesReport(n: Node)
    ensures CheckNode(n.(text := ToLower(n.text))) == []
  {
    ToLowerIdempotent(n.text);
  }

  function Create(ctx: Context): (l: Listener)
    ensures Keys(l) == ["*"] && l.entries[0].1.Single?
    ensures forall n: Node, s: bool :: l.entries[0].1.handler(n, s) == CheckNode(n)
  {
    Listener([("*", Single((n: Node, s: bool) => CheckNode(n)))], false)
  }
}
