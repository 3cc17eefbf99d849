/** The `camel-case` rule: variable and parameter names must be camelCase
    or snake_case, unless they carry a Delphi prefix or are all upper case. */
module CamelCase {
  import opened Wrappers
  import opened Text
  import opened Types

  const Id := "camel-case"
  const Meta := RuleMeta("Enforce camelCase naming for local variables and parameters", Style, false)
  const DefaultSeverity := Info

  /** A first letter among `F`, `A`, `T`, `I`, `E` followed by an upper-case letter. */
  predicate HasSkippedPrefix(name: string) {
    |name| > 1 && name[0] in ['F', 'A', 'T', 'I', 'E'] && IsUpper(name[1])
  }

  /** `/^[a-z][a-zA-Z0-9]*$/`. */
  predicate IsCamelCase(name: string) {
    |name| >= 1 && IsLower(name[0]) && forall i :: 1 <= i < |name| ==> IsAlnum(name[i])
  }

  /** `/^[a-z][a-z0-9_]*$/`. */
  predicate IsSnakeCase(name: string) {
    |name| >= 1 && IsLower(name[0])
    && forall i :: 1 <= i < |name| ==> IsLower(name[i]) || IsDigit(name[i]) || name[i] == '_'
  }

  /** `/^[A-Z][A-Z0-9]*$/`: a constant-like name. */
  predicate IsAllUpper(name: string) {
    |name| >= 1 && IsUpper(name[0]) && forall i :: 1 <= i < |name| ==> IsUpper(name[i]) || IsDigit(name[i])
  }

  function Message(kind: string, name: string): (m: string)
    ensures MatchesAt(m, kind, 0) && MatchesAt(m, name, |kind| + 2)
  {
    kind + " '" + name + "' should use camelCase naming convention."
  }

  /** `checkCamelCaseName`: one report over `node` for a name of two or
      more characters that has no skipped prefix, is neither camelCase nor
      snake_case, and is not all upper case. */
  function CheckName(name: string, node: Node, kind: string): (r: seq<Report>)
    ensures |r| <= 1
    ensures |r| == 1 <==>
              |name| > 1 && !HasSkippedPrefix(name) && !IsCamelCase(name) && !IsSnakeCase(name) && !IsAllUpper(name)
    ensures |r| == 1 ==> r[0].range == NodeRange(node) && r[0].fix.None?
    ensures |r| == 1 ==> Contains(r[0].message, kind) && Contains(r[0].message, name)
  {
    if |name| <= 1 then []
    else if HasSkippedPrefix(name) then []
    else if !IsCamelCase(name) && !IsSnakeCase(name) then
      if IsAllUpper(name) then []
      else
        var m := Message(kind, name);
        ContainsAt(m, kind, 0);
        ContainsAt(m, name, |kind| + 2);
        [Plain(m, NodeRange(node))]
    else []
  }

  /** A name starting with a lower-case letter is only reported when it
      mixes upper-case letters with underscores or other characters. */
  lemma LowerStartReported(name: string, node: Node, kind: string)
    requires |name| > 1 && IsLower(name[0])
    ensures |CheckName(name, node, kind)| == 1 <==>
              (exists i :: 1 <= i < |name| && !IsAlnum(name[i]))
              && (exists j :: 1 <= j < |name| && !(IsLower(name[j]) || IsDigit(name[j]) || name[j] == '_'))
  {
  }

  /** The reports of the `identifier` children, in order. */
  function CheckIdentifiers(cs: seq<Node>, kind: string): (r: seq<Report>)
    ensures |r| <= |cs|
    ensures (forall i :: 0 <= i < |cs| ==> cs[i].nodeType != "identifier") ==> r == []
  {
    if cs == [] then []
    else
      (if cs[0].nodeType == "identifier" then CheckName(cs[0].text, cs[0], kind) else [])
      + CheckIdentifiers(cs[1..], kind)
  }

  /** The reports for a list of children are those of its two halves. */
  lemma {:induction false} CheckIdentifiersAppend(a: seq<Node>, b: seq<Node>, kind: string)
    ensures CheckIdentifiers(a + b, kind) == CheckIdentifiers(a, kind) + CheckIdentifiers(b, kind)
  {
    if a != [] {
      assert (a + b)[1..] == a[1..] + b;
      CheckIdentifiersAppend(a[1..], b, kind);
    } else {
      assert a + b == b;
    }
  }

  /** `parameter`: check the `name` field child, when there is one. */
  function CheckParameter(n: Node): (r: seq<Report>)
    ensures ChildForFieldName(n, "name").None? ==> r == []
    ensures ChildForFieldName(n, "name").Some? ==>
              var c := ChildForFieldName(n, "name").value; r == CheckName(c.text, c, "Parameter")
  {
    match ChildForFieldName(n, "name")
    case None => []
    case Some(c) => CheckName(c.text, c, "Parameter")
  }

  function Create(ctx: Context): (l: Listener)
    ensures Keys(l) == ["variable_declaration", "parameter"]
    ensures l.entries[0].1.Single? && l.entries[1].1.Single?
    ensures forall n: Node, s: bool :: l.entries[0].1.handler(n, s) == CheckIdentifiers(n.namedChildren, "Variable")
    ensures forall n: Node, s: bool :: l.entries[1].1.handler(n, s) == CheckParameter(n)
  {
    Listener([
      ("variable_declaration", Single((n: Node, s: bool) => CheckIdentifiers(n.namedChildren, "Variable"))),
      ("parameter", Single((n: Node, s: bool) => CheckParameter(n)))
    ], false)
  }
}
