/** The `use-free-and-nil` rule: a statement `X.Free;` is reported with a
    fix that rewrites it to `FreeAndNil(X);`. */
module UseFreeAndNil {
  import opened Wrappers
  import opened Text
  import opened Types

  const Id := "use-free-and-nil"
  const Meta := RuleMeta("Suggest using FreeAndNil instead of Obj.Free", BestPractice, true)
  const DefaultSeverity := Warn

  /** What may follow `.Free`: `\s*;?` up to the end of the text. */
  predicate IsFreeTail(t: string) {
    AllSpace(t) || (|t| >= 1 && t[|t| - 1] == ';' && AllSpace(t[..|t| - 1]))
  }

  /** `/^(\w+)\.Free\s*;?$/i` and its captured identifier. The run of word
      characters is maximal because a `.` must follow it. */
  function MatchFree(text: string): (r: Option<string>)
    ensures r.Some? ==>
              var k := |r.value|;
              && k >= 1 && k + 5 <= |text| && r.value == text[..k] && AllWordChars(r.value)
              && text[k] == '.' && ToLower(text[k + 1..k + 5]) == "free"
              && IsFreeTail(text[k + 5..])
  {
    var k := WordRun(text, 0);
    if k == 0 || |text| < k + 5 || text[k] != '.' || ToLower(text[k + 1..k + 5]) != "free"
       || !IsFreeTail(text[k + 5..])
    then None
    else Some(text[..k])
  }

  /** Every text of the pattern's shape matches, capturing its identifier. */
  lemma MatchFreeComplete(w: string, f: string, tail: string)
    requires |w| >= 1 && AllWordChars(w)
    requires |f| == 4 && ToLower(f) == "free" && IsFreeTail(tail)
    ensures MatchFree(w + "." + f + tail) == Some(w)
  {
    var s := w + "." + f + tail;
    assert s[..|w|] == w && s[|w|] == '.';
    assert s[|w| + 1..|w| + 5] == f && s[|w| + 5..] == tail;
    assert forall j :: 0 <= j < |w| ==> s[j] == w[j];
    WordRunExact(s, 0, |w|);
  }

  /** The message names `FreeAndNil`, right after the opening quote. */
  function Message(varName: string): (m: string)
    ensures MatchesAt(m, "FreeAndNil", 16)
  {
    "Consider using 'FreeAndNil(" + varName + ")' instead of '" + varName + ".Free'."
  }

  function FixText(varName: string): string {
    "FreeAndNil(" + varName + ");"
  }

  /** The `statement` handler: one report, fixed by `FreeAndNil`, exactly
      when the text matches the pattern. */
  function CheckStatement(n: Node): (r: seq<Report>)
    ensures |r| == (if MatchFree(n.text).Some? then 1 else 0)
    ensures |r| == 1 ==>
              var v := MatchFree(n.text).value;
              && r[0].range == NodeRange(n)
              && r[0].fix == Some(Fix(NodeRange(n), "FreeAndNil(" + v + ");"))
              && MatchesAt(r[0].message, v, 27)
              && Contains(r[0].message, "FreeAndNil")
  {
    match MatchFree(n.text)
    case None => []
    case Some(v) =>
      ContainsAt(Message(v), "FreeAndNil", 16);
      [Fixed(Message(v), NodeRange(n), FixText(v))]
  }

  function Create(ctx: Context): (l: Listener)
    ensures Keys(l) == ["statement"] && l.entries[0].1.Single?
    ensures forall n: Node, s: bool :: l.entries[0].1.handler(n, s) == CheckStatement(n)
  {
    Listener([("statement", Single((n: Node, s: bool) => CheckStatement(n)))], false)
  }

  /** The replacement text is not matched again: a fixed statement is not
      reported a second time. */
  lemma FixIsNotRematched(v: string)
    ensures MatchFree(FixText(v)) == None
  {
    var s := FixText(v);
    assert s[..10] == "FreeAndNil" && s[10] == '(';
    assert AllWordChars("FreeAndNil");
    assert forall j :: 0 <= j < 10 ==> s[j] == "FreeAndNil"[j];
    WordRunExact(s, 0, 10);
  }

  /** `MyObject.Free;` is reported with the fix `FreeAndNil(MyObject);`. */
  lemma MyObjectExample(n: Node)
    requires n.text == "MyObject.Free;"
    ensures var r := CheckStatement(n);
            |r| == 1 && r[0].fix == Some(Fix(NodeRange(n), "FreeAndNil(MyObject);"))
            && Contains(r[0].message, "FreeAndNil")
  {
    MyObjectMatch();
    assert "FreeAndNil(" + "MyObject" + ");" == "FreeAndNil(MyObject);";
  }

  lemma MyObjectMatch()
    ensures MatchFree("MyObject.Free;") == Some("MyObject")
  {
    assert AllWordChars("MyObject");
    assert ToLower("Free") == "free";
    assert IsFreeTail(";");
    MatchFreeComplete("MyObject", "Free", ";");
    assert "MyObject" + "." + "Free" + ";" == "MyObject.Free;";
  }
}
