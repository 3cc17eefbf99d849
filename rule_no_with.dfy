/** The `no-with` rule: every `with` statement is reported. */
module NoWith {
  import opened Wrappers
  import opened Text
  import opened Types

  const Id := "no-with"
  const Meta := RuleMeta("Disallow with statement", ErrorCategory, false)
  const DefaultSeverity := Error
  const Message := "Avoid using `with` statement."

  /** The `with` handler: one report per node, over the node's span, with no fix. */
  function CheckWith(n: Node): (r: seq<Report>)
    ensures |r| == 1
    ensures r[0].range == NodeRange(n) && r[0].fix.None?
    ensures Contains(r[0].message, "with")
  {
    assert MatchesAt(Message, "with", 13);
    ContainsAt(Message, "with", 13);
    [Plain(Message, NodeRange(n))]
  }

  /** The listener subscribes to the node type `with` only. */
  function Create(ctx: Context): (l: Listener)
    ensures Keys(l) == ["with"] && !l.state
    ensures l.entries[0].1.Single?
    ensures forall n: Node, s: bool :: l.entries[0].1.handler(n, s) == CheckWith(n)
  {
    Listener([("with", Single((n: Node, s: bool) => CheckWith(n)))], false)
  }
}
