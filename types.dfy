/** The shared data model of the linter: severities, positions, ranges,
    fixes, issues, syntax-tree nodes, rule listeners and rule descriptors. */
module Types {
  import opened Wrappers
  import opened Text

  datatype Severity = Error | Warn | Info | Off

  /** The configuration spelling of a severity. */
  function SeverityName(s: Severity): (r: string)
    ensures r == "error" <==> s == Error
    ensures r == "warn" <==> s == Warn
    ensures r == "info" <==> s == Info
    ensures r == "off" <==> s == Off
  {
    match s
    case Error => "error"
    case Warn => "warn"
    case Info => "info"
    case Off => "off"
  }

  /** A source position; `offset` is optional, as in the source's `offset?: number`. */
  datatype Position = Position(line: nat, column: nat, offset: Option<nat>)

  datatype Range = Range(start: Position, end: Position)

  datatype Fix = Fix(range: Range, text: string)

  datatype LintIssue = LintIssue(
    ruleId: string,
    message: string,
    severity: Severity,
    range: Range,
    fix: Option<Fix>,
    suggestions: Option<seq<Fix>>)

  /** What a rule hands to `context.report`: an issue without `ruleId` and `severity`. */
  datatype Report = Report(
    message: string,
    range: Range,
    fix: Option<Fix>,
    suggestions: Option<seq<Fix>>)

  /** A plain report with no fix and no suggestions. */
  function Plain(message: string, range: Range): (r: Report)
    ensures r.fix.None? && r.suggestions.None?
  {
    Report(message, range, None, None)
  }

  /** A report whose fix replaces the report's own range with `text`. */
  function Fixed(message: string, range: Range, text: string): (r: Report)
    ensures r.fix == Some(Fix(r.range, text)) && r.suggestions.None?
  {
    Report(message, range, Some(Fix(range, text)), None)
  }

  /** Line and column of `offset` in `source`, counted as the rules count them:
      the pieces of `source.substring(0, offset).split('\n')`. */
  function OffsetPosition(source: string, offset: nat): (p: Position)
    ensures p.offset == Some(offset)
    ensures p.line == CountChar(ClampedTake(source, offset), '\n')
    ensures var t := ClampedTake(source, offset);
            p.column == |t| - (LastIndexOfChar(t, '\n') + 1)
  {
    var t := ClampedTake(source, offset);
    var lines := Split(t, '\n');
    SplitCount(t, '\n');
    SplitLast(t, '\n');
    Position(|lines| - 1, |lines[|lines| - 1]|, Some(offset))
  }

  // ---------------------------------------------------------------------
  // Syntax-tree nodes
  // ---------------------------------------------------------------------

  datatype Point = Point(row: nat, column: nat)

  /** A syntax-tree node as rules see it: type tag, text, span, all
      children, named children and field-named children. */
  datatype Node = Node(
    nodeType: string,
    text: string,
    startPosition: Point,
    endPosition: Point,
    startIndex: nat,
    endIndex: nat,
    children: seq<Node>,
    namedChildren: seq<Node>,
    fields: seq<Field>)

  datatype Field = Field(name: string, child: Node)

  /** `node.childForFieldName(name)`: the first child stored under `name`. */
  function ChildForFieldName(n: Node, name: string): (r: Option<Node>)
    ensures r.Some? <==> exists i :: 0 <= i < |n.fields| && n.fields[i].name == name
  {
    FirstField(n.fields, name)
  }

  function FirstField(fs: seq<Field>, name: string): (r: Option<Node>)
    ensures r.Some? <==> exists i :: 0 <= i < |fs| && fs[i].name == name
    ensures r.Some? ==> exists i :: 0 <= i < |fs| && fs[i].name == name && fs[i].child == r.value
  {
    if fs == [] then None
    else if fs[0].name == name then Some(fs[0].child)
    else
      var r := FirstField(fs[1..], name);
      assert forall i :: 1 <= i < |fs| ==> fs[i] == fs[1..][i - 1];
      r
  }

  /** The range every node-level report uses: start/end row, column and index. */
  function NodeRange(n: Node): (r: Range)
    ensures r.start.offset == Some(n.startIndex) && r.end.offset == Some(n.endIndex)
    ensures r.start.line == n.startPosition.row && r.start.column == n.startPosition.column
    ensures r.end.line == n.endPosition.row && r.end.column == n.endPosition.column
  {
    Range(
      Position(n.startPosition.row, n.startPosition.column, Some(n.startIndex)),
      Position(n.endPosition.row, n.endPosition.column, Some(n.endIndex)))
  }

  // ---------------------------------------------------------------------
  // Rules and listeners
  // ---------------------------------------------------------------------

  datatype Category = ErrorCategory | BestPractice | Style

  datatype RuleMeta = RuleMeta(description: string, category: Category, fixable: bool)

  /** What `create` may read: `getSourceCode()` and `getFilename()`.
      `report` is modelled by handlers returning their reports. */
  datatype Context = Context(sourceCode: string, filename: string)

  /** A handler gets the visited node and the current value of the state its
      `create` closure captured; the only captured mutable state of any rule
      is one boolean flag. */
  type Handler = (Node, bool) -> seq<Report>

  /** A listener value is a handler function or an `{enter, leave}` object
      whose methods give the new value of the captured state. */
  datatype ListenerValue =
    | Single(handler: Handler)
    | EnterLeave(enter: (Node, bool) -> bool, leave: (Node, bool) -> bool)

  /** The object returned by `create`: its keys in insertion order and the
      initial value of the captured state. */
  datatype Listener = Listener(entries: seq<(string, ListenerValue)>, state: bool)

  function Keys(l: Listener): (ks: seq<string>)
    ensures |ks| == |l.entries|
    ensures forall i :: 0 <= i < |ks| ==> ks[i] == l.entries[i].0
  {
    seq(|l.entries|, i requires 0 <= i < |l.entries| => l.entries[i].0)
  }

  /** Object keys are distinct. */
  predicate DistinctKeys(l: Listener) {
    forall i, j :: 0 <= i < j < |l.entries| ==> l.entries[i].0 != l.entries[j].0
  }

  /** `listener[key]`. */
  function Lookup(l: Listener, key: string): (r: Option<ListenerValue>)
    ensures r.Some? <==> key in Keys(l)
  {
    LookupIn(l.entries, key)
  }

  function LookupIn(es: seq<(string, ListenerValue)>, key: string): (r: Option<ListenerValue>)
    ensures r.Some? <==> exists i :: 0 <= i < |es| && es[i].0 == key
  {
    if es == [] then None
    else if es[0].0 == key then Some(es[0].1)
    else
      var r := LookupIn(es[1..], key);
      assert forall i :: 1 <= i < |es| ==> es[i] == es[1..][i - 1];
      r
  }

  /** A rule descriptor: `LintRule` with its `create` factory. */
  datatype Rule = Rule(id: string, meta: RuleMeta, defaultSeverity: Severity, create: Context -> Listener)
}
