/** The `no-empty-finally` rule: a `finally` clause with nothing in it but
    its keywords, comments and blank text. */
module NoEmptyFinally {
  import opened Wrappers
  import opened Text
  import opened Types

  const Id := "no-empty-finally"
  const Meta := RuleMeta("Disallow empty finally blocks", ErrorCategory, false)
  const DefaultSeverity := Warn
  const Message := "Empty finally block detected."

  /** The filter of the handler: a child that is not the `finally` or `end`
      keyword, not a comment, and whose trimmed text is not empty. */
  predicate IsMeaningful(c: Node) {
    c.nodeType != "finally" && c.nodeType != "end" && c.nodeType != "comment" && Trim(c.text) != ""
  }

  /** What the filter removes, stated without trimming. */
  predicate IsFiller(c: Node) {
    c.nodeType == "finally" || c.nodeType == "end" || c.nodeType == "comment" || AllSpace(c.text)
  }

  function MeaningfulChildren(cs: seq<Node>): (r: seq<Node>)
    ensures |r| <= |cs|
    ensures forall c :: c in r <==> c in cs && IsMeaningful(c)
  {
    if cs == [] then []
    else (if IsMeaningful(cs[0]) then [cs[0]] else []) + MeaningfulChildren(cs[1..])
  }

  /** The filter leaves nothing exactly when every child is filler. */
  lemma NothingMeaningfulIff(cs: seq<Node>)
    ensures MeaningfulChildren(cs) == [] <==> forall i :: 0 <= i < |cs| ==> IsFiller(cs[i])
  {
    forall i | 0 <= i < |cs| ensures IsMeaningful(cs[i]) <==> !IsFiller(cs[i]) {
      TrimEmptyIff(cs[i].text);
    }
    if MeaningfulChildren(cs) != [] {
      var c := MeaningfulChildren(cs)[0];
      assert c in MeaningfulChildren(cs);
    }
  }

  /** The `finally_clause` handler: one report over the clause when all its
      named children are filler, none otherwise. */
  function CheckFinallyClause(n: Node): (r: seq<Report>)
    ensures |r| <= 1
    ensures |r| == 1 <==> forall i :: 0 <= i < |n.namedChildren| ==> IsFiller(n.namedChildren[i])
    ensures |r| == 1 ==> r[0].range == NodeRange(n) && r[0].fix.None? && r[0].message == Message
  {
    NothingMeaningfulIff(n.namedChildren);
    if |MeaningfulChildren(n.namedChildren)| == 0 then [Plain(Message, NodeRange(n))] else []
  }

  function Create(ctx: Context): (l: Listener)
    ensures Keys(l) == ["finally_clause"] && l.entries[0].1.Single?
    ensures forall n: Node, s: bool :: l.entries[0].1.handler(n, s) == CheckFinallyClause(n)
  {
    Listener([("finally_clause", Single((n: Node, s: bool) => CheckFinallyClause(n)))], false)
  }
}
