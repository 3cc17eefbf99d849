/** The `empty-begin-end` rule: a `begin ... end` block holding only its
    keywords and comments. */
module EmptyBeginEnd {
  import opened Wrappers
  import opened Text
  import opened Types

  const Id := "empty-begin-end"
  const Meta := RuleMeta("Detect empty begin...end blocks", BestPractice, true)
  const DefaultSeverity := Warn
  const Message := "Empty begin...end block detected."
  const FixText := "{ empty block removed }"

  predicate IsKeywordOrComment(c: Node) {
    c.nodeType == "kBegin" || c.nodeType == "kEnd" || c.nodeType == "comment"
  }

  function MeaningfulChildren(cs: seq<Node>): (r: seq<Node>)
    ensures |r| == 0 <==> forall i :: 0 <= i < |cs| ==> IsKeywordOrComment(cs[i])
  {
    if cs == [] then []
    else
      var rest := MeaningfulChildren(cs[1..]);
      assert forall i :: 1 <= i < |cs| ==> cs[i] == cs[1..][i - 1];
      (if IsKeywordOrComment(cs[0]) then [] else [cs[0]]) + rest
  }

  /** The `block` handler: one report over the block, with a fix replacing
      the block by a comment, when nothing but keywords and comments is in it. */
  function CheckBlock(n: Node): (r: seq<Report>)
    ensures |r| <= 1
    ensures |r| == 1 <==> forall i :: 0 <= i < |n.namedChildren| ==> IsKeywordOrComment(n.namedChildren[i])
    ensures |r| == 1 ==> r[0].range == NodeRange(n) && r[0].fix == Some(Fix(NodeRange(n), FixText))
  {
    if |MeaningfulChildren(n.namedChildren)| == 0 then [Fixed(Message, NodeRange(n), FixText)] else []
  }

  function Create(ctx: Context): (l: Listener)
    ensures Keys(l) == ["block"] && l.entries[0].1.Single?
    ensures forall n: Node, s: bool :: l.entries[0].1.handler(n, s) == CheckBlock(n)
  {
    Listener([("block", Single((n: Node, s: bool) => CheckBlock(n)))], false)
  }

  function Leaf(nodeType: string, text: string): Node {
    Node(nodeType, text, Point(0, 0), Point(0, 0), 0, 0, [], [], [])
  }

  /** A block whose named children are `kBegin` and `kEnd` gets one report
      with a fix; adding a statement child removes it. */
  lemma BlockExamples(empty: Node, full: Node)
    requires empty.namedChildren == [Leaf("kBegin", "begin"), Leaf("kEnd", "end")]
    requires full.namedChildren == [Leaf("kBegin", "begin"), Leaf("statement", "x := 1;"), Leaf("kEnd", "end")]
    ensures |CheckBlock(empty)| == 1 && CheckBlock(empty)[0].fix.Some?
    ensures CheckBlock(full) == []
  {
    assert !IsKeywordOrComment(full.namedChildren[1]);
  }
}
