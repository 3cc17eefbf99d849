/** The `constructor-call-on-instance` rule: `x.Create` where `x` looks
    like an instance variable rather than a class. */
module ConstructorCallOnInstance {
  import opened Wrappers
  import opened Text
  import opened Types

  const Id := "constructor-call-on-instance"
  const Meta := RuleMeta("Disallow calling constructor on instance variables", ErrorCategory, false)
  const DefaultSeverity := Error

  /** `/^([a-zA-Z_][a-zA-Z0-9_]*)\.Create\b/i` and its captured identifier. */
  function MatchCreate(text: string): (r: Option<string>)
    ensures r.Some? ==>
              var k := |r.value|;
              && k >= 1 && k + 7 <= |text| && r.value == text[..k]
              && AllWordChars(r.value) && !IsDigit(r.value[0])
              && text[k] == '.' && ToLower(text[k + 1..k + 7]) == "create"
              && (k + 7 == |text| || !IsWordChar(text[k + 7]))
  {
    var k := WordRun(text, 0);
    if k == 0 || IsDigit(text[0]) || |text| < k + 7 || text[k] != '.'
       || ToLower(text[k + 1..k + 7]) != "create" || (k + 7 < |text| && IsWordChar(text[k + 7]))
    then None
    else Some(text[..k])
  }

  /** `/^(F|Self|my|the|a)[A-Z]/`, case-sensitive. */
  predicate HasInstancePrefix(id: string) {
    exists p :: p in ["F", "Self", "my", "the", "a"] && |p| < |id| && id[..|p|] == p && IsUpper(id[|p|])
  }

  /** A lower-case first letter or an instance prefix. */
  predicate IsLikelyInstance(id: string) {
    (|id| >= 1 && IsLower(id[0])) || HasInstancePrefix(id)
  }

  /** `/^T[A-Z]/`. */
  predicate IsLikelyClass(id: string) {
    |id| >= 2 && id[0] == 'T' && IsUpper(id[1])
  }

  /** No identifier is both: the class test never changes the outcome. */
  lemma InstanceIsNeverClass(id: string)
    ensures IsLikelyInstance(id) ==> !IsLikelyClass(id)
  {
    if HasInstancePrefix(id) {
      var p :| p in ["F", "Self", "my", "the", "a"] && |p| < |id| && id[..|p|] == p && IsUpper(id[|p|]);
      assert id[0] == p[0];
    }
  }

  /** An `F` field prefix before an upper-case letter is dropped. */
  function WithoutFieldPrefix(s: string): string {
    if |s| > 1 && s[0] == 'F' && IsUpper(s[1]) then s[1..] else s
  }

  /** `capitalizeFirst`: drop a field prefix, then upper-case the first letter. */
  function CapitalizeFirst(s: string): (r: string)
    ensures s == [] ==> r == []
    ensures s != [] ==> |r| == |WithoutFieldPrefix(s)| && r[0] == UpperChar(WithoutFieldPrefix(s)[0])
                        && r[1..] == WithoutFieldPrefix(s)[1..]
  {
    if s == [] then s
    else
      var name := WithoutFieldPrefix(s);
      [UpperChar(name[0])] + name[1..]
  }

  function Message(identifier: string): (m: string)
    ensures MatchesAt(m, identifier, 28)
  {
    "Calling Create on instance '" + identifier + "'. Use 'T" + CapitalizeFirst(identifier) + ".Create' instead to create a new object."
  }

  /** The class name the message suggests, `T` followed by the capitalised identifier. */
  function SuggestedClass(identifier: string): string {
    "T" + CapitalizeFirst(identifier)
  }

  /** The `call_expression` handler: one report, without a fix, when the
      call is `x.Create` and `x` looks like an instance. */
  function CheckCall(n: Node): (r: seq<Report>)
    ensures |r| <= 1
    ensures |r| == 1 <==> MatchCreate(n.text).Some? && IsLikelyInstance(MatchCreate(n.text).value)
    ensures |r| == 1 ==> r[0].range == NodeRange(n) && r[0].fix.None?
    ensures |r| == 1 ==> MatchesAt(r[0].message, MatchCreate(n.text).value, 28)
  {
    match MatchCreate(n.text)
    case None => []
    case Some(identifier) =>
      InstanceIsNeverClass(identifier);
      if IsLikelyInstance(identifier) && !IsLikelyClass(identifier) then
        [Plain(Message(identifier), NodeRange(n))]
      else []
  }

  /** The class name suggested for a reported identifier itself looks like
      a class: a `T` then an upper-case letter. */
  lemma SuggestionLooksLikeClass(id: string)
    requires IsLikelyInstance(id)
    ensures IsLikelyClass(SuggestedClass(id))
  {
    var c := CapitalizeFirst(id);
    if |id| >= 1 && IsLower(id[0]) {
      assert WithoutFieldPrefix(id) == id;
    } else {
      var p :| p in ["F", "Self", "my", "the", "a"] && |p| < |id| && id[..|p|] == p && IsUpper(id[|p|]);
      assert id[0] == p[0];
      if p == "F" {
        assert WithoutFieldPrefix(id) == id[1..];
      } else {
        assert WithoutFieldPrefix(id) == id;
      }
    }
    assert SuggestedClass(id)[1] == c[0];
  }

  function Create(ctx: Context): (l: Listener)
    ensures Keys(l) == ["call_expression"] && l.entries[0].1.Single?
    ensures forall n: Node, s: bool :: l.entries[0].1.handler(n, s) == CheckCall(n)
  {
    Listener([("call_expression", Single((n: Node, s: bool) => CheckCall(n)))], false)
  }
}
