/** The value-level part of the lint engine: severity resolution, the
    listener index built in rule order, the issue stamping done by a rule
    context's `report`, and the pre-order dispatch over the syntax tree. */
module LinterDispatch {
  import opened Wrappers
  import opened Types
  import Text
  import opened ConfigLoader
  import Registry
  import NoExitInFinally
  import UpperCaseKeywords
  import OneVarPerLine
  import CamelCase

  /** Why a lint call does not produce issues. */
  datatype LintError =
    | NotInitialized                 // "LinterService not initialized"
    | InitializationPending          // `lint` awaits an initialisation still in flight
    | ParserNotInitialized           // thrown by `parse` / `parseIncremental`
    | NotAFunction(nodeType: string) // a listener value that is not a function was called

  // ---------------------------------------------------------------------
  // Severity resolution
  // ---------------------------------------------------------------------

  /** The index of the first loaded rule with the given id, if there is one. */
  function FindRule(rules: seq<Rule>, ruleId: string): (r: Option<nat>)
    ensures r.Some? ==> r.value < |rules| && rules[r.value].id == ruleId
                        && forall j :: 0 <= j < r.value ==> rules[j].id != ruleId
    ensures r.None? ==> forall j :: 0 <= j < |rules| ==> rules[j].id != ruleId
  {
    if rules == [] then None
    else if rules[0].id == ruleId then Some(0)
    else match FindRule(rules[1..], ruleId)
      case None => None
      case Some(i) => Some(i + 1)
  }

  /** `getRuleSeverity`: a configured string is the severity, a configured
      array gives its first element, and an absent key falls back to the
      registered rule's default, or `off` for an unknown rule. */
  function GetRuleSeverity(ruleId: string, config: RuleConfig, rules: seq<Rule>): Severity {
    if ruleId in config then
      match config[ruleId]
      case Level(level) => level
      case LevelWithOptions(level, _) => level
    else
      match FindRule(rules, ruleId)
      case None => Off
      case Some(i) => rules[i].defaultSeverity
  }

  /** The configured level wins; otherwise the first registered rule with
      the id gives its default, and an unknown rule is `off`. */
  lemma SeverityResolution(ruleId: string, config: RuleConfig, rules: seq<Rule>)
    ensures ruleId in config ==> GetRuleSeverity(ruleId, config, rules) == config[ruleId].level
    ensures ruleId !in config && (forall j :: 0 <= j < |rules| ==> rules[j].id != ruleId)
            ==> GetRuleSeverity(ruleId, config, rules) == Off
    ensures forall i :: 0 <= i < |rules| && rules[i].id == ruleId && ruleId !in config
                        && (forall j :: 0 <= j < i ==> rules[j].id != ruleId)
                        ==> GetRuleSeverity(ruleId, config, rules) == rules[i].defaultSeverity
  {
    var found := FindRule(rules, ruleId);
  }

  /** Under the default table the two rules that declare `info` resolve to
      `off`, and the other registered rules to their table entry. */
  lemma DefaultsOverrideDeclaredSeverity()
    ensures Registry.CamelCaseRule.defaultSeverity == Info
    ensures GetRuleSeverity("camel-case", GetDefaultRules(), Registry.AllRules) == Off
    ensures Registry.UpperCaseKeywordsRule.defaultSeverity == Info
    ensures GetRuleSeverity("upper-case-keywords", GetDefaultRules(), Registry.AllRules) == Off
    ensures GetRuleSeverity("no-exit-in-finally", GetDefaultRules(), Registry.AllRules) == Error
  {
  }

  // ---------------------------------------------------------------------
  // Rule contexts and the listener index
  // ---------------------------------------------------------------------

  /** One `{ rule, listener }` pair of the index, with the severity its
      context stamps on reports. */
  datatype Entry = Entry(ruleId: string, severity: Severity, listener: Listener)

  /** What the context's `report` pushes: each report stamped with the
      rule's id and effective severity, in report order. */
  function Stamp(ruleId: string, severity: Severity, reports: seq<Report>): (issues: seq<LintIssue>)
    ensures |issues| == |reports|
    ensures forall i :: 0 <= i < |issues| ==>
              && issues[i].ruleId == ruleId && issues[i].severity == severity
              && issues[i].message == reports[i].message && issues[i].range == reports[i].range
              && issues[i].fix == reports[i].fix && issues[i].suggestions == reports[i].suggestions
  {
    if reports == [] then []
    else
      var r := reports[0];
      [LintIssue(ruleId, r.message, severity, r.range, r.fix, r.suggestions)] + Stamp(ruleId, severity, reports[1..])
  }

  lemma StampAppend(ruleId: string, severity: Severity, a: seq<Report>, b: seq<Report>)
    ensures Stamp(ruleId, severity, a + b) == Stamp(ruleId, severity, a) + Stamp(ruleId, severity, b)
  {
    var l := Stamp(ruleId, severity, a + b);
    var r := Stamp(ruleId, severity, a) + Stamp(ruleId, severity, b);
    assert |l| == |r|;
    forall i | 0 <= i < |l| ensures l[i] == r[i] {
      if i < |a| {
        assert (a + b)[i] == a[i];
      } else {
        assert (a + b)[i] == b[i - |a|];
      }
    }
  }

  /** The entries the rule loop creates from the first `n` rules: a rule
      resolving to `off` is skipped before its `create` is called. */
  function ActiveEntries(rules: seq<Rule>, config: RuleConfig, ctx: Context, n: nat): (es: seq<Entry>)
    requires n <= |rules|
    ensures |es| <= n
  {
    if n == 0 then []
    else
      var prev := ActiveEntries(rules, config, ctx, n - 1);
      var rule := rules[n - 1];
      var severity := GetRuleSeverity(rule.id, config, rules);
      if severity == Off then prev else prev + [Entry(rule.id, severity, rule.create(ctx))]
  }

  /** Every entry comes from one of the first `n` rules, carries that
      rule's listener and effective severity, and that severity is not
      `off`. */
  lemma {:induction false} ActiveEntriesOrigin(rules: seq<Rule>, config: RuleConfig, ctx: Context, n: nat)
    requires n <= |rules|
    ensures forall e :: e in ActiveEntries(rules, config, ctx, n) ==> e.severity != Off
    ensures forall e :: e in ActiveEntries(rules, config, ctx, n) ==>
              (exists i :: 0 <= i < n && rules[i].id == e.ruleId
                && e.listener == rules[i].create(ctx) && e.severity == GetRuleSeverity(rules[i].id, config, rules))
  {
    if n > 0 {
      ActiveEntriesOrigin(rules, config, ctx, n - 1);
    }
  }

  /** One more rule in the rule loop: a rule at `off` leaves the index as
      it is; any other rule's entry is pushed under each of its keys. */
  lemma ActiveIndexStep(rules: seq<Rule>, config: RuleConfig, ctx: Context, n: nat)
    requires 0 < n <= |rules|
    ensures var rule := rules[n - 1];
            var severity := GetRuleSeverity(rule.id, config, rules);
            && (severity == Off ==> IndexOf(ActiveEntries(rules, config, ctx, n)) == IndexOf(ActiveEntries(rules, config, ctx, n - 1)))
            && (severity != Off ==>
                  IndexOf(ActiveEntries(rules, config, ctx, n))
                  == AddKeys(IndexOf(ActiveEntries(rules, config, ctx, n - 1)), Entry(rule.id, severity, rule.create(ctx)), Keys(rule.create(ctx))))
  {
    var prev := ActiveEntries(rules, config, ctx, n - 1);
    var rule := rules[n - 1];
    var severity := GetRuleSeverity(rule.id, config, rules);
    if severity != Off {
      var es := prev + [Entry(rule.id, severity, rule.create(ctx))];
      assert es[..|es| - 1] == prev;
    }
  }

  /** A rule that resolves to `off` contributes no entry. */
  lemma {:induction false} OffRuleHasNoEntry(rules: seq<Rule>, config: RuleConfig, ctx: Context, n: nat, ruleId: string)
    requires n <= |rules|
    requires GetRuleSeverity(ruleId, config, rules) == Off
    ensures forall e :: e in ActiveEntries(rules, config, ctx, n) ==> e.ruleId != ruleId
  {
    if n > 0 {
      OffRuleHasNoEntry(rules, config, ctx, n - 1, ruleId);
    }
  }

  /** `listenersByNodeType.get(key)`, with a missing key read as an empty list. */
  function EntriesFor(index: map<string, seq<Entry>>, key: string): seq<Entry> {
    if key in index then index[key] else []
  }

  /** The `push` of one entry under one key. */
  function Push(index: map<string, seq<Entry>>, key: string, e: Entry): (r: map<string, seq<Entry>>)
    ensures EntriesFor(r, key) == EntriesFor(index, key) + [e]
    ensures forall k :: k != key ==> EntriesFor(r, k) == EntriesFor(index, k)
  {
    index[key := EntriesFor(index, key) + [e]]
  }

  /** The inner loop: one entry pushed under each of its listener's keys. */
  function AddKeys(index: map<string, seq<Entry>>, e: Entry, keys: seq<string>): map<string, seq<Entry>>
    decreases |keys|
  {
    if keys == [] then index else AddKeys(Push(index, keys[0], e), e, keys[1..])
  }

  /** The index after the rule loop over `es`, in rule order. */
  function IndexOf(es: seq<Entry>): map<string, seq<Entry>> {
    if es == [] then map[]
    else
      var last := es[|es| - 1];
      AddKeys(IndexOf(es[..|es| - 1]), last, Keys(last.listener))
  }

  /** The entries whose listener has `key`, in their order. */
  function Keyed(es: seq<Entry>, key: string): seq<Entry> {
    if es == [] then []
    else
      var prev := Keyed(es[..|es| - 1], key);
      var last := es[|es| - 1];
      if key in Keys(last.listener) then prev + [last] else prev
  }

  /** The keyed entries are exactly the entries whose listener has the key. */
  lemma {:induction false} KeyedMembers(es: seq<Entry>, key: string)
    ensures forall e :: e in Keyed(es, key) ==> e in es && key in Keys(e.listener)
    ensures forall e :: e in es && key in Keys(e.listener) ==> e in Keyed(es, key)
  {
    if es != [] {
      KeyedMembers(es[..|es| - 1], key);
      assert es == es[..|es| - 1] + [es[|es| - 1]];
    }
  }

  predicate DistinctSeq(keys: seq<string>) {
    forall i, j :: 0 <= i < j < |keys| ==> keys[i] != keys[j]
  }

  lemma {:induction false} AddKeysEffect(index: map<string, seq<Entry>>, e: Entry, keys: seq<string>, k: string)
    requires DistinctSeq(keys)
    ensures EntriesFor(AddKeys(index, e, keys), k) == EntriesFor(index, k) + (if k in keys then [e] else [])
    decreases |keys|
  {
    if keys != [] {
      assert DistinctSeq(keys[1..]) by {
        forall i, j | 0 <= i < j < |keys[1..]| ensures keys[1..][i] != keys[1..][j] {
          assert keys[1..][i] == keys[i + 1] && keys[1..][j] == keys[j + 1];
        }
      }
      AddKeysEffect(Push(index, keys[0], e), e, keys[1..], k);
      if k == keys[0] {
        assert k !in keys[1..] by {
          forall j | 0 <= j < |keys[1..]| ensures keys[1..][j] != k {
            assert keys[1..][j] == keys[j + 1];
          }
        }
      } else {
        assert k in keys <==> k in keys[1..] by {
          assert keys == [keys[0]] + keys[1..];
        }
      }
    }
  }

  lemma DistinctKeysSeq(l: Listener)
    requires DistinctKeys(l)
    ensures DistinctSeq(Keys(l))
  {
  }

  lemma SeqDistinctKeys(l: Listener)
    requires DistinctSeq(Keys(l))
    ensures DistinctKeys(l)
  {
  }

  /** With distinct listener keys, the index lists under each key exactly
      the entries having that key, in rule order. */
  lemma {:induction false} IndexIsKeyed(es: seq<Entry>, key: string)
    requires forall e :: e in es ==> DistinctKeys(e.listener)
    ensures EntriesFor(IndexOf(es), key) == Keyed(es, key)
  {
    if es != [] {
      var last := es[|es| - 1];
      var init := es[..|es| - 1];
      assert forall e :: e in init ==> e in es;
      IndexIsKeyed(init, key);
      DistinctKeysSeq(last.listener);
      AddKeysEffect(IndexOf(init), last, Keys(last.listener), key);
    }
  }

  // ---------------------------------------------------------------------
  // Dispatch
  // ---------------------------------------------------------------------

  /** Sequencing of two steps that may throw: the first error wins, and the
      issues of successful steps are appended in order. */
  function Then(a: Result<seq<LintIssue>, LintError>, b: Result<seq<LintIssue>, LintError>): (r: Result<seq<LintIssue>, LintError>)
    ensures a.Failure? ==> r == a
    ensures a.Success? && b.Failure? ==> r == b
    ensures a.Success? && b.Success? ==> r == Success(a.value + b.value)
  {
    if a.Failure? then a else if b.Failure? then b else Success(a.value + b.value)
  }

  lemma ThenAssociative(a: Result<seq<LintIssue>, LintError>, b: Result<seq<LintIssue>, LintError>, c: Result<seq<LintIssue>, LintError>)
    ensures Then(Then(a, b), c) == Then(a, Then(b, c))
  {
    if a.Success? && b.Success? && c.Success? {
      assert (a.value + b.value) + c.value == a.value + (b.value + c.value);
    }
  }

  /** One `{ listener }` of the list: its value under the node's type is
      called with the node; a value that is an `{enter, leave}` object is
      not callable and the call throws. */
  function RunEntry(e: Entry, n: Node): (r: Result<seq<LintIssue>, LintError>)
    ensures r.Failure? <==> Lookup(e.listener, n.nodeType).Some? && Lookup(e.listener, n.nodeType).value.EnterLeave?
    ensures r.Failure? ==> r.error == NotAFunction(n.nodeType)
    ensures r.Success? && Lookup(e.listener, n.nodeType).Some? ==>
              r.value == Stamp(e.ruleId, e.severity, Lookup(e.listener, n.nodeType).value.handler(n, e.listener.state))
    ensures Lookup(e.listener, n.nodeType).None? ==> r == Success([])
  {
    match Lookup(e.listener, n.nodeType)
    case None => Success([])
    case Some(Single(h)) => Success(Stamp(e.ruleId, e.severity, h(n, e.listener.state)))
    case Some(EnterLeave(_, _)) => Failure(NotAFunction(n.nodeType))
  }

  function RunEntries(es: seq<Entry>, n: Node): Result<seq<LintIssue>, LintError> {
    if es == [] then Success([]) else Then(RunEntry(es[0], n), RunEntries(es[1..], n))
  }

  /** The visit of one node: only the entries keyed exactly by `node.type` run. */
  function Visit(n: Node, index: map<string, seq<Entry>>): Result<seq<LintIssue>, LintError> {
    RunEntries(EntriesFor(index, n.nodeType), n)
  }

  /** `traverseTree`: visit the node, then its children (all of them, named
      or not) left to right. */
  function Traverse(n: Node, index: map<string, seq<Entry>>): Result<seq<LintIssue>, LintError>
    decreases n, 1
  {
    Then(Visit(n, index), TraverseChildren(n, 0, index))
  }

  function TraverseChildren(n: Node, k: nat, index: map<string, seq<Entry>>): Result<seq<LintIssue>, LintError>
    decreases n, 0, |n.children| - k
  {
    if k >= |n.children| then Success([])
    else Then(Traverse(n.children[k], index), TraverseChildren(n, k + 1, index))
  }

  /** The pre-order sequence of a tree's nodes, over all children. */
  function PreOrder(n: Node): (r: seq<Node>)
    ensures |r| >= 1 && r[0] == n
    decreases n, 1
  {
    [n] + ChildrenPreOrder(n, 0)
  }

  function ChildrenPreOrder(n: Node, k: nat): seq<Node>
    decreases n, 0, |n.children| - k
  {
    if k >= |n.children| then [] else PreOrder(n.children[k]) + ChildrenPreOrder(n, k + 1)
  }

  /** Visiting a sequence of nodes in order. */
  function VisitAll(nodes: seq<Node>, index: map<string, seq<Entry>>): Result<seq<LintIssue>, LintError> {
    if nodes == [] then Success([]) else Then(Visit(nodes[0], index), VisitAll(nodes[1..], index))
  }

  lemma {:induction false} VisitAllAppend(a: seq<Node>, b: seq<Node>, index: map<string, seq<Entry>>)
    ensures VisitAll(a + b, index) == Then(VisitAll(a, index), VisitAll(b, index))
  {
    if a == [] {
      assert a + b == b;
      var vb := VisitAll(b, index);
      if vb.Success? {
        assert [] + vb.value == vb.value;
      }
    } else {
      assert (a + b)[0] == a[0] && (a + b)[1..] == a[1..] + b;
      VisitAllAppend(a[1..], b, index);
      ThenAssociative(Visit(a[0], index), VisitAll(a[1..], index), VisitAll(b, index));
    }
  }

  /** The traversal is exactly the visit of the pre-order node sequence:
      issues come in visit order, and the first throwing visit ends it. */
  lemma {:induction false} TraverseIsPreOrder(n: Node, index: map<string, seq<Entry>>)
    ensures Traverse(n, index) == VisitAll(PreOrder(n), index)
    decreases n, 1
  {
    ChildrenArePreOrder(n, 0, index);
    VisitAllAppend([n], ChildrenPreOrder(n, 0), index);
    assert VisitAll([n], index) == Then(Visit(n, index), Success([]));
  }

  lemma {:induction false} ChildrenArePreOrder(n: Node, k: nat, index: map<string, seq<Entry>>)
    ensures TraverseChildren(n, k, index) == VisitAll(ChildrenPreOrder(n, k), index)
    decreases n, 0, |n.children| - k
  {
    if k < |n.children| {
      TraverseIsPreOrder(n.children[k], index);
      ChildrenArePreOrder(n, k + 1, index);
      VisitAllAppend(PreOrder(n.children[k]), ChildrenPreOrder(n, k + 1), index);
    }
  }

  /** Every issue a dispatch produces carries the stamp of an entry that ran. */
  lemma {:induction false} RunEntriesStamped(es: seq<Entry>, n: Node, issue: LintIssue)
    requires RunEntries(es, n).Success? && issue in RunEntries(es, n).value
    ensures exists e :: e in es && e.ruleId == issue.ruleId && e.severity == issue.severity
  {
    if es != [] {
      var first := RunEntry(es[0], n);
      var rest := RunEntries(es[1..], n);
      if issue in first.value {
        var reports := Lookup(es[0].listener, n.nodeType).value.handler(n, es[0].listener.state);
        var i :| 0 <= i < |first.value| && first.value[i] == issue;
        assert i < |Stamp(es[0].ruleId, es[0].severity, reports)|;
      } else {
        RunEntriesStamped(es[1..], n, issue);
      }
    }
  }

  /** A `finally_clause` node visited while `no-exit-in-finally` is active
      makes the visit throw, whatever else is registered. */
  lemma {:induction false} FinallyClauseThrows(es: seq<Entry>, n: Node, ctx: Context)
    requires n.nodeType == "finally_clause"
    requires exists e :: e in es && e.listener == NoExitInFinally.Create(ctx)
    ensures RunEntries(es, n).Failure?
  {
    var e0 := es[0];
    if e0.listener == NoExitInFinally.Create(ctx) {
      assert Lookup(e0.listener, n.nodeType).Some?;
    } else {
      var first := RunEntry(e0, n);
      if first.Success? {
        var e :| e in es && e.listener == NoExitInFinally.Create(ctx);
        assert e in es[1..];
        FinallyClauseThrows(es[1..], n, ctx);
      }
    }
  }

  /** The `'*'` key of `upper-case-keywords` only runs on a node whose type
      is literally `*`; such a node (the multiplication token, whose text is
      `*`) is not a keyword, so the rule never reports through the engine. */
  lemma UpperCaseKeywordsSilent(e: Entry, n: Node, ctx: Context)
    requires e.listener == UpperCaseKeywords.Create(ctx)
    requires n.nodeType == "*" ==> n.text == "*"
    ensures RunEntry(e, n) == Success([])
  {
    if n.nodeType == "*" {
      assert UpperCaseKeywords.CheckNode(n) == [] by {
        assert Text.ToLower("*") == "*";
      }
    }
  }

  // ---------------------------------------------------------------------
  // Consequences for the registered rules
  // ---------------------------------------------------------------------

  /** A rule that does not resolve to `off` has its entry among the active ones. */
  lemma {:induction false} ActiveEntryPresent(rules: seq<Rule>, config: RuleConfig, ctx: Context, i: nat, n: nat)
    requires i < n <= |rules|
    requires GetRuleSeverity(rules[i].id, config, rules) != Off
    ensures Entry(rules[i].id, GetRuleSeverity(rules[i].id, config, rules), rules[i].create(ctx))
            in ActiveEntries(rules, config, ctx, n)
  {
    if i < n - 1 {
      ActiveEntryPresent(rules, config, ctx, i, n - 1);
    }
  }

  /** One more rule extends the keyed list by its entry, when it is active
      and has the key. */
  lemma KeyedActiveStep(rules: seq<Rule>, config: RuleConfig, ctx: Context, n: nat, key: string)
    requires 0 < n <= |rules|
    ensures var rule := rules[n - 1];
            var severity := GetRuleSeverity(rule.id, config, rules);
            severity != Off && key in Keys(rule.create(ctx)) ==>
              Keyed(ActiveEntries(rules, config, ctx, n), key)
              == Keyed(ActiveEntries(rules, config, ctx, n - 1), key) + [Entry(rule.id, severity, rule.create(ctx))]
    ensures var rule := rules[n - 1];
            var severity := GetRuleSeverity(rule.id, config, rules);
            !(severity != Off && key in Keys(rule.create(ctx))) ==>
              Keyed(ActiveEntries(rules, config, ctx, n), key) == Keyed(ActiveEntries(rules, config, ctx, n - 1), key)
  {
    var prev := ActiveEntries(rules, config, ctx, n - 1);
    var rule := rules[n - 1];
    var severity := GetRuleSeverity(rule.id, config, rules);
    if severity != Off {
      var es := prev + [Entry(rule.id, severity, rule.create(ctx))];
      assert es[..|es| - 1] == prev;
    }
  }

  /** The multi-key lists of the registered listeners have no repeated key. */
  lemma RegisteredKeyListsDistinct()
    ensures DistinctSeq(["if_statement", "while_statement", "for_statement"])
    ensures DistinctSeq(["finally_clause", "exit_statement", "raise_statement", "break_statement"])
    ensures DistinctSeq(["class_declaration", "type_declaration", "method_declaration", "procedure_declaration", "function_declaration"])
    ensures DistinctSeq(["variable_declaration", "parameter"])
  {
  }

  /** Every registered listener has distinct keys. */
  lemma RegisteredListenersDistinct(ctx: Context)
    ensures forall i :: 0 <= i < |Registry.AllRules| ==> DistinctKeys(Registry.AllRules[i].create(ctx))
  {
    RegistryKeys(ctx);
    RegisteredKeyListsDistinct();
    forall i | 0 <= i < |Registry.AllRules| ensures DistinctKeys(Registry.AllRules[i].create(ctx)) {
      SeqDistinctKeys(Registry.AllRules[i].create(ctx));
    }
  }

  /** The listener keys of each registered rule, in registry order. */
  lemma RegistryKeys(ctx: Context)
    ensures Keys(Registry.AllRules[0].create(ctx)) == ["with"]
    ensures Keys(Registry.AllRules[1].create(ctx)) == ["if_statement", "while_statement", "for_statement"]
    ensures Keys(Registry.AllRules[2].create(ctx)) == ["finally_clause"]
    ensures Keys(Registry.AllRules[3].create(ctx)) == ["compound_statement"]
    ensures Keys(Registry.AllRules[4].create(ctx)) == ["finally_clause", "exit_statement", "raise_statement", "break_statement"]
    ensures Keys(Registry.AllRules[5].create(ctx)) == ["block"]
    ensures Keys(Registry.AllRules[6].create(ctx)) == ["statement"]
    ensures Keys(Registry.AllRules[7].create(ctx)) == ["call_expression"]
    ensures Keys(Registry.AllRules[8].create(ctx)) == ["class_declaration", "type_declaration", "method_declaration", "procedure_declaration", "function_declaration"]
    ensures Keys(Registry.AllRules[9].create(ctx)) == ["variable_declaration"]
    ensures Keys(Registry.AllRules[10].create(ctx)) == ["variable_declaration", "parameter"]
    ensures Keys(Registry.AllRules[11].create(ctx)) == ["*"]
  {
  }

  /** Rules without the key contribute nothing under it. */
  lemma {:induction false} KeyedActiveNone(rules: seq<Rule>, config: RuleConfig, ctx: Context, n: nat, key: string)
    requires n <= |rules|
    requires forall j :: 0 <= j < n ==> key !in Keys(rules[j].create(ctx))
    ensures Keyed(ActiveEntries(rules, config, ctx, n), key) == []
  {
    if n > 0 {
      KeyedActiveNone(rules, config, ctx, n - 1, key);
      assert key !in Keys(rules[n - 1].create(ctx));
      KeyedActiveStep(rules, config, ctx, n, key);
      assert Keyed(ActiveEntries(rules, config, ctx, n), key) == Keyed(ActiveEntries(rules, config, ctx, n - 1), key);
    }
  }

  /** Registry order is issue order on a shared node type: when both are
      enabled, `one-var-per-line` runs before `camel-case` on a
      `variable_declaration`, and no other rule runs there. */
  lemma VariableDeclarationOrder(config: RuleConfig, ctx: Context)
    requires GetRuleSeverity(OneVarPerLine.Id, config, Registry.AllRules) != Off
    requires GetRuleSeverity(CamelCase.Id, config, Registry.AllRules) != Off
    ensures EntryIds(EntriesFor(IndexOf(ActiveEntries(Registry.AllRules, config, ctx, |Registry.AllRules|)), "variable_declaration"))
            == [OneVarPerLine.Id, CamelCase.Id]
  {
    var rules := Registry.AllRules;
    var key := "variable_declaration";
    VariableDeclarationKeyedIds(config, ctx);
    KeyedIdsAre(rules, config, ctx, 12, key);
    RegisteredListenersDistinct(ctx);
    ActiveDistinct(rules, config, ctx, 12);
    IndexIsKeyed(ActiveEntries(rules, config, ctx, 12), key);
  }

  /** Among the registered rules, only `one-var-per-line` and `camel-case`
      have the `variable_declaration` key. */
  lemma VariableDeclarationHolders(ctx: Context)
    ensures forall j :: 0 <= j < |Registry.AllRules| ==>
              ("variable_declaration" in Keys(Registry.AllRules[j].create(ctx)) <==> j == 9 || j == 10)
  {
    RegistryKeys(ctx);
  }

  /** When exactly the rules `a` and `b` have the key and both are active,
      exactly their mask bits are set. */
  lemma TwoHoldersMask(rules: seq<Rule>, config: RuleConfig, ctx: Context, key: string, a: nat, b: nat)
    requires a < b < |rules|
    requires forall j :: 0 <= j < |rules| ==> (key in Keys(rules[j].create(ctx)) <==> j == a || j == b)
    requires GetRuleSeverity(rules[a].id, config, rules) != Off && GetRuleSeverity(rules[b].id, config, rules) != Off
    ensures forall j :: 0 <= j < |rules| ==> (ContributionMask(rules, config, ctx, key)[j] <==> j == a || j == b)
  {
  }

  lemma VariableDeclarationKeyedIds(config: RuleConfig, ctx: Context)
    requires GetRuleSeverity(OneVarPerLine.Id, config, Registry.AllRules) != Off
    requires GetRuleSeverity(CamelCase.Id, config, Registry.AllRules) != Off
    ensures ActiveKeyedIds(Registry.AllRules, config, ctx, 12, "variable_declaration") == [OneVarPerLine.Id, CamelCase.Id]
  {
    VariableDeclarationHolders(ctx);
    assert Registry.AllRules[9].id == OneVarPerLine.Id && Registry.AllRules[10].id == CamelCase.Id;
    TwoHoldersMask(Registry.AllRules, config, ctx, "variable_declaration", 9, 10);
    var ids := Registry.Ids(Registry.AllRules);
    SelectedTwo(ids, ContributionMask(Registry.AllRules, config, ctx, "variable_declaration"), 9, 10, 12);
    assert ids[9] == OneVarPerLine.Id && ids[10] == CamelCase.Id;
  }

  function EntryIds(es: seq<Entry>): (ids: seq<string>)
    ensures |ids| == |es| && forall i :: 0 <= i < |es| ==> ids[i] == es[i].ruleId
  {
    seq(|es|, i requires 0 <= i < |es| => es[i].ruleId)
  }

  /** The ids of the active rules having `key`, among the first `n` rules. */
  function ActiveKeyedIds(rules: seq<Rule>, config: RuleConfig, ctx: Context, n: nat, key: string): seq<string>
    requires n <= |rules|
  {
    Selected(Registry.Ids(rules), ContributionMask(rules, config, ctx, key), n)
  }

  /** Rule `j` is active and its listener has `key`. */
  predicate Contributes(rules: seq<Rule>, config: RuleConfig, ctx: Context, j: nat, key: string)
    requires j < |rules|
  {
    GetRuleSeverity(rules[j].id, config, rules) != Off && key in Keys(rules[j].create(ctx))
  }

  function ContributionMask(rules: seq<Rule>, config: RuleConfig, ctx: Context, key: string): (mask: seq<bool>)
    ensures |mask| == |rules|
    ensures forall j :: 0 <= j < |rules| ==> mask[j] == Contributes(rules, config, ctx, j, key)
  {
    seq(|rules|, j requires 0 <= j < |rules| => Contributes(rules, config, ctx, j, key))
  }

  /** The ids among the first `n` whose mask bit is set, in order. */
  function Selected(ids: seq<string>, mask: seq<bool>, n: nat): seq<string>
    requires n <= |ids| == |mask|
  {
    if n == 0 then []
    else Selected(ids, mask, n - 1) + (if mask[n - 1] then [ids[n - 1]] else [])
  }

  lemma {:induction false} KeyedIdsAre(rules: seq<Rule>, config: RuleConfig, ctx: Context, n: nat, key: string)
    requires n <= |rules|
    ensures EntryIds(Keyed(ActiveEntries(rules, config, ctx, n), key)) == ActiveKeyedIds(rules, config, ctx, n, key)
  {
    if n > 0 {
      KeyedIdsAre(rules, config, ctx, n - 1, key);
      var ids := ActiveKeyedIds(rules, config, ctx, n - 1, key);
      if GetRuleSeverity(rules[n - 1].id, config, rules) != Off && key in Keys(rules[n - 1].create(ctx)) {
        KeyedIdsStep(rules, config, ctx, n, key);
        assert ActiveKeyedIds(rules, config, ctx, n, key) == ids + [rules[n - 1].id];
      } else {
        KeyedActiveStep(rules, config, ctx, n, key);
        assert ActiveKeyedIds(rules, config, ctx, n, key) == ids + [];
        assert ids + [] == ids;
      }
    }
  }

  /** When exactly the bits `a < b` are set, the selection is their ids, in that order. */
  lemma {:induction false} SelectedTwo(ids: seq<string>, mask: seq<bool>, a: nat, b: nat, n: nat)
    requires a < b < |ids| == |mask| && n <= |ids|
    requires forall j :: 0 <= j < |mask| ==> (mask[j] <==> j == a || j == b)
    ensures Selected(ids, mask, n) == (if n <= a then [] else if n <= b then [ids[a]] else [ids[a], ids[b]])
  {
    if n > 0 {
      SelectedTwo(ids, mask, a, b, n - 1);
    }
  }

  /** An active rule having the key adds its id to the keyed ids. */
  lemma KeyedIdsStep(rules: seq<Rule>, config: RuleConfig, ctx: Context, n: nat, key: string)
    requires 0 < n <= |rules|
    requires GetRuleSeverity(rules[n - 1].id, config, rules) != Off && key in Keys(rules[n - 1].create(ctx))
    ensures EntryIds(Keyed(ActiveEntries(rules, config, ctx, n), key))
            == EntryIds(Keyed(ActiveEntries(rules, config, ctx, n - 1), key)) + [rules[n - 1].id]
  {
    KeyedActiveStep(rules, config, ctx, n, key);
    var prev := Keyed(ActiveEntries(rules, config, ctx, n - 1), key);
    var rule := rules[n - 1];
    var e := Entry(rule.id, GetRuleSeverity(rule.id, config, rules), rule.create(ctx));
    assert Keyed(ActiveEntries(rules, config, ctx, n), key) == prev + [e];
    assert EntryIds(prev + [e]) == EntryIds(prev) + [e.ruleId];
  }

  /** Active entries inherit distinct keys from their rules' listeners. */
  lemma ActiveDistinct(rules: seq<Rule>, config: RuleConfig, ctx: Context, n: nat)
    requires n <= |rules|
    requires forall i :: 0 <= i < |rules| ==> DistinctKeys(rules[i].create(ctx))
    ensures forall x :: x in ActiveEntries(rules, config, ctx, n) ==> DistinctKeys(x.listener)
  {
    ActiveEntriesOrigin(rules, config, ctx, n);
    forall x | x in ActiveEntries(rules, config, ctx, n) ensures DistinctKeys(x.listener) {
      var i :| 0 <= i < n && rules[i].id == x.ruleId && x.listener == rules[i].create(ctx);
    }
  }

  /** A visit that throws makes the whole sequence of visits throw. */
  lemma {:induction false} VisitAllThrows(nodes: seq<Node>, index: map<string, seq<Entry>>, k: nat)
    requires k < |nodes| && Visit(nodes[k], index).Failure?
    ensures VisitAll(nodes, index).Failure?
  {
    if k > 0 {
      VisitAllThrows(nodes[1..], index, k - 1);
    }
  }

  /** With `no-exit-in-finally` active, any tree holding a `finally_clause`
      node makes the traversal throw. */
  lemma ActiveNoExitThrows(rules: seq<Rule>, config: RuleConfig, ctx: Context, i: nat, root: Node, k: nat)
    requires i < |rules| && rules[i].create(ctx) == NoExitInFinally.Create(ctx)
    requires GetRuleSeverity(rules[i].id, config, rules) != Off
    requires forall j :: 0 <= j < |rules| ==> DistinctKeys(rules[j].create(ctx))
    requires k < |PreOrder(root)| && PreOrder(root)[k].nodeType == "finally_clause"
    ensures Traverse(root, IndexOf(ActiveEntries(rules, config, ctx, |rules|))).Failure?
  {
    var active := ActiveEntries(rules, config, ctx, |rules|);
    var index := IndexOf(active);
    var node := PreOrder(root)[k];
    ActiveEntryPresent(rules, config, ctx, i, |rules|);
    var e := Entry(rules[i].id, GetRuleSeverity(rules[i].id, config, rules), rules[i].create(ctx));
    assert e in active && e.listener == NoExitInFinally.Create(ctx);
    assert "finally_clause" in Keys(e.listener);
    ActiveDistinct(rules, config, ctx, |rules|);
    IndexIsKeyed(active, "finally_clause");
    KeyedMembers(active, "finally_clause");
    assert e in EntriesFor(index, node.nodeType);
    FinallyClauseThrows(EntriesFor(index, node.nodeType), node, ctx);
    VisitAllThrows(PreOrder(root), index, k);
    TraverseIsPreOrder(root, index);
  }

  /** Under the default table, linting any tree that contains a
      `finally_clause` node throws: `no-exit-in-finally` is on by default
      and its `finally_clause` value is called as a function. */
  lemma DefaultConfigThrowsOnFinally(root: Node, ctx: Context, k: nat)
    requires k < |PreOrder(root)| && PreOrder(root)[k].nodeType == "finally_clause"
    ensures Traverse(root, IndexOf(ActiveEntries(Registry.AllRules, GetDefaultRules(), ctx, |Registry.AllRules|))).Failure?
  {
    DefaultsOverrideDeclaredSeverity();
    RegisteredListenersDistinct(ctx);
    assert Registry.AllRules[4].id == "no-exit-in-finally";
    ActiveNoExitThrows(Registry.AllRules, GetDefaultRules(), ctx, 4, root, k);
  }
}
