/** The `no-exit-in-finally` rule: `Exit`, `Raise` and `Break` while a
    `finally` clause is open. Its `create` closure keeps one mutable flag. */
module NoExitInFinally {
  import opened Wrappers
  import opened Text
  import opened Types

  const Id := "no-exit-in-finally"
  const Meta := RuleMeta("Disallow exit, raise, or break in finally blocks", ErrorCategory, true)
  const DefaultSeverity := Error
  const ExitMessage := "Do not use Exit in finally block."
  const RaiseMessage := "Do not use Raise in finally block."
  const BreakMessage := "Do not use Break in finally block."
  const ExitFixText := "{ Error: Exit in finally }"

  /** The flag after `enter` and after `leave` of a `finally_clause`. */
  function EnterFinally(n: Node, inFinallyBlock: bool): bool { true }
  function LeaveFinally(n: Node, inFinallyBlock: bool): bool { false }

  /** `exit_statement`: reported only inside a finally clause, with a fix
      that replaces the statement by a comment. */
  function CheckExit(n: Node, inFinallyBlock: bool): (r: seq<Report>)
    ensures |r| == (if inFinallyBlock then 1 else 0)
    ensures inFinallyBlock ==>
              r[0].range == NodeRange(n) && r[0].fix == Some(Fix(NodeRange(n), ExitFixText))
              && r[0].message == ExitMessage
  {
    if inFinallyBlock then [Fixed(ExitMessage, NodeRange(n), ExitFixText)] else []
  }

  /** `raise_statement`: reported only inside a finally clause, no fix. */
  function CheckRaise(n: Node, inFinallyBlock: bool): (r: seq<Report>)
    ensures |r| == (if inFinallyBlock then 1 else 0)
    ensures inFinallyBlock ==> r[0].range == NodeRange(n) && r[0].fix.None? && r[0].message == RaiseMessage
  {
    if inFinallyBlock then [Plain(RaiseMessage, NodeRange(n))] else []
  }

  /** `break_statement`: reported only inside a finally clause, no fix. */
  function CheckBreak(n: Node, inFinallyBlock: bool): (r: seq<Report>)
    ensures |r| == (if inFinallyBlock then 1 else 0)
    ensures inFinallyBlock ==> r[0].range == NodeRange(n) && r[0].fix.None? && r[0].message == BreakMessage
  {
    if inFinallyBlock then [Plain(BreakMessage, NodeRange(n))] else []
  }

  /** The object `create` returns. `finally_clause` maps to an
      `{enter, leave}` object, not to a function; the other three keys map
      to handlers that read the captured flag. */
  function Create(ctx: Context): (l: Listener)
    ensures Keys(l) == ["finally_clause", "exit_statement", "raise_statement", "break_statement"]
    ensures DistinctKeys(l) && !l.state
    ensures l.entries[0].1.EnterLeave?
    ensures forall i :: 1 <= i < 4 ==> l.entries[i].1.Single?
    ensures forall n: Node, s: bool :: l.entries[1].1.handler(n, s) == CheckExit(n, s)
    ensures forall n: Node, s: bool :: l.entries[2].1.handler(n, s) == CheckRaise(n, s)
    ensures forall n: Node, s: bool :: l.entries[3].1.handler(n, s) == CheckBreak(n, s)
  {
    Listener([
      ("finally_clause", EnterLeave(EnterFinally, LeaveFinally)),
      ("exit_statement", Single(CheckExit)),
      ("raise_statement", Single(CheckRaise)),
      ("break_statement", Single(CheckBreak))
    ], false)
  }

  /** The closure `create` builds: the captured flag and the handlers that
      read or set it. */
  class FinallyTracker {
    var inFinallyBlock: bool

    constructor ()
      ensures !inFinallyBlock
    {
      inFinallyBlock := false;
    }

    method Enter(n: Node)
      modifies this
      ensures inFinallyBlock == EnterFinally(n, old(inFinallyBlock))
    {
      inFinallyBlock := true;
    }

    method Leave(n: Node)
      modifies this
      ensures inFinallyBlock == LeaveFinally(n, old(inFinallyBlock))
    {
      inFinallyBlock := false;
    }

    method OnExit(n: Node) returns (r: seq<Report>)
      ensures r == CheckExit(n, inFinallyBlock)
    {
      r := [];
      if inFinallyBlock {
        r := [Fixed(ExitMessage, NodeRange(n), ExitFixText)];
      }
    }

    method OnRaise(n: Node) returns (r: seq<Report>)
      ensures r == CheckRaise(n, inFinallyBlock)
    {
      r := [];
      if inFinallyBlock {
        r := [Plain(RaiseMessage, NodeRange(n))];
      }
    }

    method OnBreak(n: Node) returns (r: seq<Report>)
      ensures r == CheckBreak(n, inFinallyBlock)
    {
      r := [];
      if inFinallyBlock {
        r := [Plain(BreakMessage, NodeRange(n))];
      }
    }
  }

  /** The flag is one boolean, not a depth counter: leaving an inner
      `finally` clause clears it although the outer clause is still open,
      so an `Exit` after the inner clause goes unreported. */
  method NestedFinallyScenario(outer: Node, inner: Node, exitNode: Node) returns (r: seq<Report>)
    ensures r == []
  {
    var t := new FinallyTracker();
    t.Enter(outer);
    t.Enter(inner);
    t.Leave(inner);
    r := t.OnExit(exitNode);
  }
}
