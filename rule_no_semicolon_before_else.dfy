/** The `no-semicolon-before-else` rule: a semicolon that is the last
    non-blank character before the `else` of an `if` statement. */
module NoSemicolonBeforeElse {
  import opened Wrappers
  import opened Text
  import opened Types

  const Id := "no-semicolon-before-else"
  const Meta := RuleMeta("Disallow semicolon before 'else' keyword", ErrorCategory, true)
  const DefaultSeverity := Error
  const Message := "Unexpected semicolon before 'else'."

  predicate IsElse(c: Node) {
    c.nodeType == "else" || ToLower(c.text) == "else"
  }

  /** `children.find(...)`: the first `else` child. */
  function FindElse(cs: seq<Node>): (r: Option<Node>)
    ensures r.Some? ==> exists i :: 0 <= i < |cs| && cs[i] == r.value && IsElse(r.value)
                          && forall j :: 0 <= j < i ==> !IsElse(cs[j])
    ensures r.None? ==> forall i :: 0 <= i < |cs| ==> !IsElse(cs[i])
  {
    if cs == [] then None
    else if IsElse(cs[0]) then Some(cs[0])
    else
      var r := FindElse(cs[1..]);
      assert forall i :: 1 <= i < |cs| ==> cs[i] == cs[1..][i - 1];
      if r.Some? then
        ghost var i :| 0 <= i < |cs[1..]| && cs[1..][i] == r.value && IsElse(r.value)
                       && forall j :: 0 <= j < i ==> !IsElse(cs[1..][j]);
        assert cs[i + 1] == r.value;
        r
      else r
  }

  /** The source before `offset` with trailing whitespace removed. */
  function TextBefore(source: string, offset: nat): string {
    TrimEnd(ClampedTake(source, offset))
  }

  /** The line and column as the rule computes them: from the pieces of the
      text up to and including the semicolon, the last piece's length less one. */
  function SemicolonPosition(source: string, semicolonIndex: nat): (p: Position)
    requires semicolonIndex < |source| && source[semicolonIndex] == ';'
    ensures p == OffsetPosition(source, semicolonIndex)
  {
    var t := source[..semicolonIndex + 1];
    var lines := Split(t, '\n');
    SplitLast(t, '\n');
    SplitCount(t, '\n');
    SplitLast(source[..semicolonIndex], '\n');
    var u := source[..semicolonIndex];
    assert t == u + [';'];
    LastIndexAppend(u, ';', '\n');
    CountAppend(u, ';', '\n');
    Position(|lines| - 1, |lines[|lines| - 1]| - 1, Some(semicolonIndex))
  }

  lemma LastIndexAppend(u: string, c: char, d: char)
    requires c != d
    ensures LastIndexOfChar(u + [c], d) == LastIndexOfChar(u, d)
  {
    var t := u + [c];
    var k := LastIndexOfChar(t, d);
    var m := LastIndexOfChar(u, d);
    assert forall j :: 0 <= j < |u| ==> t[j] == u[j];
    if m != -1 {
      assert t[m] == d;
      assert k >= m;
    }
  }

  lemma {:induction false} CountAppend(u: string, c: char, d: char)
    requires c != d
    ensures CountChar(u + [c], d) == CountChar(u, d)
  {
    if u != [] {
      assert (u + [c])[1..] == u[1..] + [c];
      CountAppend(u[1..], c, d);
    } else {
      assert CountChar([c], d) == 0 + CountChar([], d) by {
        assert [c][1..] == [];
      }
    }
  }

  /** When the trimmed text before `offset` ends with `;`, its last `;` is
      that final character, and only whitespace follows it up to `offset`. */
  lemma LastSemicolonBefore(source: string, offset: nat)
    requires EndsWith(TextBefore(source, offset), ";")
    ensures var b := TextBefore(source, offset);
            var k := LastIndexOfChar(b, ';');
            && k == |b| - 1 && k < |source| && k < offset && source[k] == ';'
            && forall j :: k < j < offset && j < |source| ==> IsSpace(source[j])
  {
    var b := TextBefore(source, offset);
    var t := ClampedTake(source, offset);
    assert b[|b| - 1] == ';';
    assert t[|b| - 1] == source[|b| - 1];
    forall j | |b| <= j < offset && j < |source| ensures IsSpace(source[j]) {
      assert t[j] == source[j];
    }
  }

  /** The `if_statement` handler: when the text before the first `else`
      child, trailing whitespace removed, ends with `;`, one report over
      that semicolon, with a fix deleting it. */
  function CheckIfStatement(n: Node, source: string): (r: seq<Report>)
    ensures |r| <= 1
    ensures |r| == 1 <==> FindElse(n.children).Some? && EndsWith(TextBefore(source, FindElse(n.children).value.startIndex), ";")
    ensures |r| == 1 ==> r[0].range.start.offset.Some?
    ensures |r| == 1 ==>
              var e := FindElse(n.children).value;
              var k := r[0].range.start.offset.value;
              && k < |source| && k < e.startIndex && source[k] == ';'
              && (forall j :: k < j < e.startIndex && j < |source| ==> IsSpace(source[j]))
              && r[0].range.start == OffsetPosition(source, k)
              && r[0].range.end == Position(r[0].range.start.line, r[0].range.start.column + 1, Some(k + 1))
              && r[0].fix == Some(Fix(r[0].range, ""))
  {
    match FindElse(n.children)
    case None => []
    case Some(e) =>
      var beforeElse := TextBefore(source, e.startIndex);
      if !EndsWith(beforeElse, ";") then []
      else
        var semicolonIndex := LastIndexOfChar(beforeElse, ';');
        LastSemicolonBefore(source, e.startIndex);
        var p := SemicolonPosition(source, semicolonIndex);
        var range := Range(p, Position(p.line, p.column + 1, Some(semicolonIndex + 1)));
        [Fixed(Message, range, "")]
  }

  function Create(ctx: Context): (l: Listener)
    ensures Keys(l) == ["if_statement"] && l.entries[0].1.Single?
    ensures forall n: Node, s: bool :: l.entries[0].1.handler(n, s) == CheckIfStatement(n, ctx.sourceCode)
  {
    Listener([("if_statement", Single((n: Node, s: bool) => CheckIfStatement(n, ctx.sourceCode)))], false)
  }
}
