/** The `unreachable-code` rule: the first statement after a terminating
    statement in a compound statement. */
module UnreachableCode {
  import opened Wrappers
  import opened Text
  import opened Types

  const Id := "unreachable-code"
  const Meta := RuleMeta("Detect unreachable code after return, raise, or exit", ErrorCategory, false)
  const DefaultSeverity := Error
  const Message := "Unreachable code detected."

  /** `w` occurs in `s` at `i` between word boundaries: `/\bw\b/` for a word `w`. */
  predicate WholeWordAt(s: string, w: string, i: nat) {
    MatchesAt(s, w, i)
    && (i == 0 || !IsWordChar(s[i - 1]))
    && (i + |w| == |s| || !IsWordChar(s[i + |w|]))
  }

  predicate HasWholeWord(s: string, w: string) {
    exists i :: 0 <= i <= |s| && WholeWordAt(s, w, i)
  }

  /** `isTerminatingStatement`: an exit or raise node, a text that starts
      with `exit`, `raise` or `halt`, or a call whose text has the word `exit`;
      every test ignores case. */
  predicate IsTerminating(n: Node) {
    var text := ToLower(n.text);
    var t := ToLower(n.nodeType);
    t == "exit_statement" || t == "raise_statement"
    || StartsWith(text, "exit") || StartsWith(text, "raise") || StartsWith(text, "halt")
    || (t == "call_statement" && HasWholeWord(text, "exit"))
  }

  /** The index of the first terminating statement at or after `k`. */
  function FirstTerminatorFrom(cs: seq<Node>, k: nat): (r: Option<nat>)
    requires k <= |cs|
    ensures r.Some? ==> k <= r.value < |cs| && IsTerminating(cs[r.value])
    ensures r.Some? ==> forall j :: k <= j < r.value ==> !IsTerminating(cs[j])
    ensures r.None? ==> forall j :: k <= j < |cs| ==> !IsTerminating(cs[j])
    decreases |cs| - k
  {
    if k == |cs| then None
    else if IsTerminating(cs[k]) then Some(k)
    else FirstTerminatorFrom(cs, k + 1)
  }

  /** The `compound_statement` handler: when the first terminating child is
      not the last, one report over the child right after it. */
  function CheckCompound(n: Node): (r: seq<Report>)
    ensures |r| <= 1
    ensures |r| == 1 <==> exists k :: 0 <= k < |n.namedChildren| - 1 && IsTerminating(n.namedChildren[k])
    ensures |r| == 1 ==>
              exists k :: 0 <= k < |n.namedChildren| - 1
                && IsTerminating(n.namedChildren[k])
                && (forall j :: 0 <= j < k ==> !IsTerminating(n.namedChildren[j]))
                && r[0].range == NodeRange(n.namedChildren[k + 1])
    ensures |r| == 1 ==> r[0].fix.None? && r[0].message == Message
  {
    var cs := n.namedChildren;
    match FirstTerminatorFrom(cs, 0)
    case Some(k) =>
      if k + 1 < |cs| then [Plain(Message, NodeRange(cs[k + 1]))] else []
    case None => []
  }

  /** The handler as the source writes it: a scan with a flag that stops at
      the first report. */
  method ScanCompound(n: Node) returns (r: seq<Report>)
    ensures r == CheckCompound(n)
  {
    var children := n.namedChildren;
    var foundTerminator := false;
    r := [];
    var i := 0;
    while i < |children|
      invariant 0 <= i <= |children|
      invariant r == []
      invariant foundTerminator ==> 0 < i && FirstTerminatorFrom(children, 0) == Some(i - 1)
      invariant !foundTerminator ==> forall j :: 0 <= j < i ==> !IsTerminating(children[j])
    {
      var child := children[i];
      if foundTerminator {
        r := [Plain(Message, NodeRange(child))];
        return;
      }
      if IsTerminating(child) {
        foundTerminator := true;
      }
      i := i + 1;
    }
  }

  function Create(ctx: Context): (l: Listener)
    ensures Keys(l) == ["compound_statement"] && l.entries[0].1.Single?
    ensures forall n: Node, s: bool :: l.entries[0].1.handler(n, s) == CheckCompound(n)
  {
    Listener([("compound_statement", Single((n: Node, s: bool) => CheckCompound(n)))], false)
  }
}
