/** The `pascal-case` rule: names of classes, types, methods, procedures
    and functions must be PascalCase. */
module PascalCase {
  import opened Wrappers
  import opened Text
  import opened Types

  const Id := "pascal-case"
  const Meta := RuleMeta("Enforce PascalCase naming for classes and methods", Style, false)
  const DefaultSeverity := Warn

  /** `/^[A-Z][a-zA-Z0-9]*$/`. */
  predicate IsPascalCase(name: string) {
    |name| >= 1 && IsUpper(name[0]) && forall i :: 1 <= i < |name| ==> IsAlnum(name[i])
  }

  /** `/^T[A-Z][a-zA-Z0-9]*$/`. */
  predicate IsDelphiClass(name: string) {
    |name| >= 2 && name[0] == 'T' && IsUpper(name[1]) && forall i :: 2 <= i < |name| ==> IsAlnum(name[i])
  }

  /** `/^I[A-Z][a-zA-Z0-9]*$/`. */
  predicate IsDelphiInterface(name: string) {
    |name| >= 2 && name[0] == 'I' && IsUpper(name[1]) && forall i :: 2 <= i < |name| ==> IsAlnum(name[i])
  }

  /** The Delphi `T`/`I` conventions are special cases of PascalCase, so
      only `IsPascalCase` decides the rule. */
  lemma DelphiNamesArePascalCase(name: string)
    ensures IsDelphiClass(name) || IsDelphiInterface(name) ==> IsPascalCase(name)
  {
  }

  function Message(kind: string, name: string): (m: string)
    ensures MatchesAt(m, kind, 0) && MatchesAt(m, name, |kind| + 7)
  {
    kind + " name '" + name + "' should follow PascalCase naming convention."
  }

  /** `checkPascalCase`: one report over the name node when the name has
      more than one character and none of the three patterns matches. */
  function CheckPascalCase(nameNode: Node, kind: string): (r: seq<Report>)
    ensures |r| <= 1
    ensures |r| == 1 <==> |nameNode.text| > 1 && !IsPascalCase(nameNode.text)
    ensures |r| == 1 ==> r[0].range == NodeRange(nameNode) && r[0].fix.None?
    ensures |r| == 1 ==> Contains(r[0].message, kind) && Contains(r[0].message, nameNode.text)
  {
    var name := nameNode.text;
    if |name| <= 1 then []
    else if !IsPascalCase(name) && !IsDelphiClass(name) && !IsDelphiInterface(name) then
      var m := Message(kind, name);
      ContainsAt(m, kind, 0);
      ContainsAt(m, name, |kind| + 7);
      [Plain(m, NodeRange(nameNode))]
    else []
  }

  /** A declaration handler: check the `name` field child when there is one. */
  function CheckDeclaration(n: Node, kind: string): (r: seq<Report>)
    ensures ChildForFieldName(n, "name").None? ==> r == []
    ensures ChildForFieldName(n, "name").Some? ==> r == CheckPascalCase(ChildForFieldName(n, "name").value, kind)
  {
    match ChildForFieldName(n, "name")
    case None => []
    case Some(c) => CheckPascalCase(c, kind)
  }

  function Create(ctx: Context): (l: Listener)
    ensures Keys(l) == ["class_declaration", "type_declaration", "method_declaration",
                        "procedure_declaration", "function_declaration"]
    ensures forall i :: 0 <= i < 5 ==> l.entries[i].1.Single?
    ensures forall n: Node, s: bool :: l.entries[0].1.handler(n, s) == CheckDeclaration(n, "Class")
    ensures forall n: Node, s: bool :: l.entries[1].1.handler(n, s) == CheckDeclaration(n, "Type")
    ensures forall n: Node, s: bool :: l.entries[2].1.handler(n, s) == CheckDeclaration(n, "Method")
    ensures forall n: Node, s: bool :: l.entries[3].1.handler(n, s) == CheckDeclaration(n, "Procedure")
    ensures forall n: Node, s: bool :: l.entries[4].1.handler(n, s) == CheckDeclaration(n, "Function")
  {
    Listener([
      ("class_declaration", Single((n: Node, s: bool) => CheckDeclaration(n, "Class"))),
      ("type_declaration", Single((n: Node, s: bool) => CheckDeclaration(n, "Type"))),
      ("method_declaration", Single((n: Node, s: bool) => CheckDeclaration(n, "Method"))),
      ("procedure_declaration", Single((n: Node, s: bool) => CheckDeclaration(n, "Procedure"))),
      ("function_declaration", Single((n: Node, s: bool) => CheckDeclaration(n, "Function")))
    ], false)
  }
}
