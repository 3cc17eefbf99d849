/** The lint engine: a service object holding the loaded rules, the
    initialisation state, the per-workspace configuration cache, the
    per-file tree cache and the per-file result cache. */
module LinterServiceModule {
  import opened Wrappers
  import Text
  import opened Types
  import opened ConfigLoader
  import Registry
  import opened LinterDispatch
  import opened PascalParser

  /** A configuration in which every default rule id is configured. */
  predicate HasDefaultKeys(c: RuleConfig) {
    DefaultRuleIds <= c.Keys
  }

  /** A cached tree with the text and document version it was made for. */
  datatype TreeCacheEntry = TreeCacheEntry(tree: Tree, content: string, version: int)

  /** The ids of the cached trees. */
  function CachedIds(treeCache: map<string, TreeCacheEntry>): (ids: set<nat>)
    ensures forall f :: f in treeCache ==> treeCache[f].tree.id in ids
    ensures forall i :: i in ids ==> exists f :: f in treeCache && treeCache[f].tree.id == i
  {
    set f | f in treeCache :: treeCache[f].tree.id
  }

  /** The id of the file's cached tree, as a set: empty when none is cached. */
  function CachedId(treeCache: map<string, TreeCacheEntry>, filename: string): (ids: set<nat>)
    ensures filename in treeCache ==> ids == {treeCache[filename].tree.id}
    ensures filename !in treeCache ==> ids == {}
  {
    if filename in treeCache then {treeCache[filename].tree.id} else {}
  }

  /** Taking one more entry out of the map adds its id to the ids taken out. */
  lemma CachedIdsStep(treeCache: map<string, TreeCacheEntry>, keys: set<string>, f: string)
    requires f in keys && f in treeCache
    ensures CachedIds(treeCache - (keys - {f})) == CachedIds(treeCache - keys) + {treeCache[f].tree.id}
  {
    var a := treeCache - (keys - {f});
    var b := treeCache - keys;
    forall i | i in CachedIds(a)
      ensures i in CachedIds(b) + {treeCache[f].tree.id}
    {
      var g :| g in a && a[g].tree.id == i;
      if g != f {
        assert g in b && b[g] == a[g];
      }
    }
    forall i | i in CachedIds(b) + {treeCache[f].tree.id}
      ensures i in CachedIds(a)
    {
      if i != treeCache[f].tree.id {
        var g :| g in b && b[g].tree.id == i;
        assert g in a && a[g] == b[g];
      } else {
        assert f in a;
      }
    }
  }

  /** What obtaining the tree of `sourceCode` for `filename` does to the
      tree cache and to the live trees: the other files' entries stay; the
      file's entry holds a tree of the text; unchanged content reuses the
      cached tree, anything else adds exactly one new live tree and deletes
      the one it supersedes. */
  predicate TreeUpdate(oldCache: map<string, TreeCacheEntry>, cache: map<string, TreeCacheEntry>,
                       oldLive: set<nat>, live: set<nat>, filename: string, sourceCode: string)
  {
    && cache - {filename} == oldCache - {filename}
    && filename in cache && cache[filename].content == sourceCode
    && if filename in oldCache && oldCache[filename].content == sourceCode
       then cache == oldCache && live == oldLive
       else cache[filename].tree.id !in oldLive
            && live == oldLive - CachedId(oldCache, filename) + {cache[filename].tree.id}
  }

  /** A new tree of changed content, cached in place of the file's old
      entry and live in place of its old tree, is such an update. */
  lemma NewTreeUpdate(oldCache: map<string, TreeCacheEntry>, oldLive: set<nat>, live: set<nat>,
                      filename: string, sourceCode: string, t: Tree, version: int)
    requires !(filename in oldCache && oldCache[filename].content == sourceCode)
    requires t.id !in oldLive && live == oldLive - CachedId(oldCache, filename) + {t.id}
    ensures TreeUpdate(oldCache, oldCache[filename := TreeCacheEntry(t, sourceCode, version)], oldLive, live, filename, sourceCode)
  {
    var cache := oldCache[filename := TreeCacheEntry(t, sourceCode, version)];
    assert cache - {filename} == oldCache - {filename};
  }

  /** A cached lint result with the text it was computed for. */
  datatype CachedResult = CachedResult(content: string, issues: seq<LintIssue>)

  /** The configuration `lint` uses: the memoised or freshly loaded
      workspace configuration when a non-empty workspace path is given,
      otherwise the default table. */
  function LintConfig(workspaceConfigs: map<string, RuleConfig>, fs: FileSystem, workspacePath: Option<string>): (c: RuleConfig)
    ensures workspacePath.None? || workspacePath.value == "" ==> c == GetDefaultRules()
    ensures workspacePath.Some? && workspacePath.value != "" && workspacePath.value in workspaceConfigs ==>
              c == workspaceConfigs[workspacePath.value]
    ensures workspacePath.Some? && workspacePath.value != "" && workspacePath.value !in workspaceConfigs ==>
              c == WorkspaceConfig(fs, workspacePath.value)
  {
    if workspacePath.None? || workspacePath.value == "" then GetDefaultRules()
    else if workspacePath.value in workspaceConfigs then workspaceConfigs[workspacePath.value]
    else WorkspaceConfig(fs, workspacePath.value)
  }

  /** The result entries `reloadConfigForWorkspace` keeps: those whose key
      does not start with the workspace path. */
  function KeepOutside(results: map<string, CachedResult>, workspacePath: string): (r: map<string, CachedResult>)
    ensures forall k :: k in r <==> k in results && !Text.StartsWith(k, workspacePath)
    ensures forall k :: k in r ==> r[k] == results[k]
  {
    map k | k in results && !Text.StartsWith(k, workspacePath) :: results[k]
  }

  /** The loop of `reloadConfigForWorkspace` over the result keys, deleting
      each key that starts with the workspace path. */
  method DropWorkspaceResults(results: map<string, CachedResult>, workspacePath: string)
    returns (remaining: map<string, CachedResult>)
    ensures remaining == KeepOutside(results, workspacePath)
  {
    remaining := results;
    var keys := remaining.Keys;
    while keys != {}
      invariant keys <= results.Keys
      invariant remaining.Keys == set k | k in results && (k in keys || !Text.StartsWith(k, workspacePath))
      invariant forall k :: k in remaining ==> remaining[k] == results[k]
      decreases keys
    {
      var key :| key in keys;
      if Text.StartsWith(key, workspacePath) {
        remaining := remaining - {key};
      }
      keys := keys - {key};
    }
    assert remaining.Keys == KeepOutside(results, workspacePath).Keys;
  }

  /** The rule loop of `lint`: each rule's severity is resolved, rules at
      `off` are skipped, and each other rule's listener is created and
      pushed under each of its keys, in rule order. */
  method BuildListeners(rules: seq<Rule>, config: RuleConfig, ctx: Context)
    returns (index: map<string, seq<Entry>>)
    ensures index == IndexOf(ActiveEntries(rules, config, ctx, |rules|))
  {
    index := map[];
    for i := 0 to |rules|
      invariant index == IndexOf(ActiveEntries(rules, config, ctx, i))
    {
      index := AddRuleEntry(index, rules, config, ctx, i);
    }
  }

  /** One turn of the rule loop: a rule at `off` is skipped before its
      listener is created; any other rule's entry is pushed under its keys. */
  method AddRuleEntry(index: map<string, seq<Entry>>, rules: seq<Rule>, config: RuleConfig, ctx: Context, i: nat)
    returns (r: map<string, seq<Entry>>)
    requires i < |rules| && index == IndexOf(ActiveEntries(rules, config, ctx, i))
    ensures r == IndexOf(ActiveEntries(rules, config, ctx, i + 1))
  {
    ActiveIndexStep(rules, config, ctx, i + 1);
    var rule := rules[i];
    var severity := GetRuleSeverity(rule.id, config, rules);
    if severity == Off {
      return index;
    }
    var listener := rule.create(ctx);
    r := PushUnderKeys(index, Entry(rule.id, severity, listener), Keys(listener));
  }

  /** The inner loop of the rule loop: under each key, a list is created
      when missing and the entry is pushed onto it. */
  method PushUnderKeys(index: map<string, seq<Entry>>, e: Entry, keys: seq<string>)
    returns (r: map<string, seq<Entry>>)
    ensures r == AddKeys(index, e, keys)
  {
    r := index;
    for k := 0 to |keys|
      invariant AddKeys(r, e, keys[k..]) == AddKeys(index, e, keys)
    {
      var nodeType := keys[k];
      ghost var before := r;
      if nodeType !in r {
        r := r[nodeType := []];
      }
      r := r[nodeType := r[nodeType] + [e]];
      assert r == Push(before, nodeType, e);
      assert keys[k..][0] == nodeType && keys[k..][1..] == keys[k + 1..];
    }
  }

  /** `traverseTree` with the shared `issues` array: the issues already
      collected are `collected`; on success the result extends them with
      the issues of this subtree, and the first call that throws ends the
      traversal. */
  method TraverseTree(node: Node, index: map<string, seq<Entry>>, collected: seq<LintIssue>)
    returns (r: Result<seq<LintIssue>, LintError>)
    ensures r == Then(Success(collected), Traverse(node, index))
    decreases node, 1
  {
    var issues := collected;
    assert Traverse(node, index) == Then(Visit(node, index), TraverseChildren(node, 0, index));
    ThenAssociative(Success(collected), Visit(node, index), TraverseChildren(node, 0, index));
    if node.nodeType in index {
      var listeners := index[node.nodeType];
      for j := 0 to |listeners|
        invariant Then(Success(issues), RunEntries(listeners[j..], node)) == Then(Success(collected), Visit(node, index))
      {
        var e := listeners[j];
        assert listeners[j..][0] == e && listeners[j..][1..] == listeners[j + 1..];
        ThenAssociative(Success(issues), RunEntry(e, node), RunEntries(listeners[j + 1..], node));
        match Lookup(e.listener, node.nodeType) {
          case None =>
            assert issues + [] == issues;
          case Some(Single(handler)) =>
            issues := issues + Stamp(e.ruleId, e.severity, handler(node, e.listener.state));
          case Some(EnterLeave(_, _)) =>
            return Failure(NotAFunction(node.nodeType));
        }
      }
      assert listeners[|listeners|..] == [];
      assert issues + [] == issues;
    } else {
      assert collected + [] == collected;
    }
    for k := 0 to |node.children|
      invariant Then(Success(issues), TraverseChildren(node, k, index)) == Then(Success(collected), Traverse(node, index))
    {
      assert TraverseChildren(node, k, index) == Then(Traverse(node.children[k], index), TraverseChildren(node, k + 1, index));
      ThenAssociative(Success(issues), Traverse(node.children[k], index), TraverseChildren(node, k + 1, index));
      var sub := TraverseTree(node.children[k], index, issues);
      if sub.Failure? {
        return sub;
      }
      issues := sub.value;
    }
    assert issues + [] == issues;
    r := Success(issues);
  }

  /** What `lint` computes for a text on a cache miss: the traversal of
      the text's tree with the listeners of the rules that are not `off`
      under the configuration. */
  function LintOutcome(rules: seq<Rule>, config: RuleConfig, root: Node, ctx: Context): Result<seq<LintIssue>, LintError> {
    Traverse(root, IndexOf(ActiveEntries(rules, config, ctx, |rules|)))
  }

  /** The listeners of the rules for one text, and the traversal of its
      tree with them, collecting into a fresh `issues` array. */
  method RunRules(rules: seq<Rule>, config: RuleConfig, root: Node, ctx: Context)
    returns (r: Result<seq<LintIssue>, LintError>)
    ensures r == LintOutcome(rules, config, root, ctx)
  {
    var index := BuildListeners(rules, config, ctx);
    var t := Traverse(root, index);
    assert t.Success? ==> [] + t.value == t.value;
    r := TraverseTree(root, index, []);
  }

  class LinterService {
    var rules: seq<Rule>
    var initialized: bool
    var initPromise: Option<Promise>
    var workspaceConfigs: map<string, RuleConfig>
    var treeCache: map<string, TreeCacheEntry>
    var lintResultCache: map<string, CachedResult>
    const gateway: ParserGateway
    /** The registry the service loads on initialisation. */
    const allRules: seq<Rule>
    /** The file each tree this service has obtained from the parser was
        obtained for, by tree id. */
    ghost var owner: map<nat, string>

    /** The gateway's, the initialisation's and the tree cache's
        invariants; the configuration cache has its own, `ConfigsValid`. */
    ghost predicate Valid()
      reads this`rules, this`initialized, this`initPromise, this`treeCache, this`owner, gateway
    {
      gateway.Valid() && InitValid() && TreesValid()
    }

    /** Rules are loaded exactly when initialised, and the promise of a
        successful initialisation stays in place. */
    ghost predicate InitValid()
      reads this`initialized, this`rules, this`initPromise
    {
      && (initialized ==> rules == allRules && initPromise == Some(Resolved))
      && (!initialized ==> rules == [] && initPromise != Some(Resolved))
    }

    /** Memoised configurations keep every default key. */
    ghost predicate ConfigsValid()
      reads this`workspaceConfigs
    {
      forall w :: w in workspaceConfigs ==> HasDefaultKeys(workspaceConfigs[w])
    }

    /** Cached trees are live parses of the cached content, one per file,
        and every live tree this service obtained is the cached tree of the
        file it was obtained for: no tree is leaked. */
    ghost predicate TreesValid()
      reads this`treeCache, this`owner, gateway`live, gateway`nextId
    {
      && (forall f :: f in treeCache ==> treeCache[f].tree.id in gateway.live)
      && (forall f :: f in treeCache ==>
            treeCache[f].tree.source == treeCache[f].content
            && treeCache[f].tree.rootNode == gateway.grammar(treeCache[f].content))
      && (forall f, g :: f in treeCache && g in treeCache && f != g ==> treeCache[f].tree.id != treeCache[g].tree.id)
      && (forall i :: i in owner && i in gateway.live ==>
            owner[i] in treeCache && treeCache[owner[i]].tree.id == i)
      && (forall i :: i in owner ==> i < gateway.nextId)
    }

    constructor (gateway: ParserGateway)
      requires gateway.Valid()
      ensures Valid() && ConfigsValid() && this.gateway == gateway && allRules == Registry.AllRules
      ensures !initialized && initPromise.None? && rules == []
      ensures workspaceConfigs == map[] && treeCache == map[] && lintResultCache == map[]
    {
      rules := [];
      initialized := false;
      initPromise := None;
      workspaceConfigs := map[];
      treeCache := map[];
      lintResultCache := map[];
      this.gateway := gateway;
      allRules := Registry.AllRules;
      owner := map[];
    }

    // -------------------------------------------------------------------
    // Initialisation
    // -------------------------------------------------------------------

    /** `initialize`: an existing promise is returned as is; otherwise a new
        pending promise is created and the parser setup is started or joined. */
    method Initialize() returns (awaited: Promise)
      requires Valid()
      modifies this`initPromise, gateway`hasParser, gateway`hasLanguage, gateway`initPromise
      ensures Valid()
      ensures old(initPromise).Some? ==> awaited == old(initPromise).value
                                         && unchanged(this) && unchanged(gateway)
      ensures old(initPromise).None? ==> initPromise == Some(Pending) && awaited == Pending && !initialized
      // the parser setup is joined when it is under way, started otherwise
      ensures old(gateway.initPromise).Some? ==> unchanged(gateway)
      ensures old(initPromise).None? && old(gateway.initPromise).None? ==> gateway.CurrentPhase() == AwaitingRuntime
    {
      if initPromise.Some? {
        return initPromise.value;
      }
      if initialized {
        // unreachable: a successful initialisation leaves its promise in place
        return Resolved;
      }
      initPromise := Some(Pending);
      var parserPromise := gateway.InitializeParser();
      awaited := Pending;
    }

    /** The pending initialisation resumes once the parser promise settles:
        on success the registry is loaded, on failure the promise is
        dropped so that a later call retries. */
    method ResumeInitialize(parserReady: bool)
      requires Valid() && initPromise == Some(Pending)
      // the parser promise resolves only once the gateway is ready
      requires parserReady ==> gateway.CurrentPhase() == Ready
      modifies this`rules, this`initialized, this`initPromise
      ensures Valid()
      ensures parserReady ==> initialized && rules == allRules && initPromise == Some(Resolved)
      ensures !parserReady ==> !initialized && initPromise.None?
    {
      if parserReady {
        rules := allRules;
        initialized := true;
        initPromise := Some(Resolved);
      } else {
        initPromise := None;
      }
    }

    /** `isInitialized`. */
    function IsInitialized(): (r: bool)
      reads this, gateway
      requires Valid()
      ensures r ==> rules == allRules
      ensures !r ==> rules == []
    {
      initialized
    }

    /** `ensureInitialized`: proceed when initialised; wait on a pending
        initialisation; otherwise throw. */
    function EnsureInitialized(): (r: Option<LintError>)
      reads this
      ensures r.None? <==> initialized
      ensures r == Some(NotInitialized) <==> !initialized && initPromise.None?
      ensures r == Some(InitializationPending) <==> !initialized && initPromise.Some?
    {
      if initialized then None
      else if initPromise.Some? then Some(InitializationPending)
      else Some(NotInitialized)
    }

    // -------------------------------------------------------------------
    // Configuration
    // -------------------------------------------------------------------

    /** `getConfigForWorkspace`: loaded once per path, then memoised. */
    method GetConfigForWorkspace(workspacePath: string, fs: FileSystem) returns (config: RuleConfig)
      requires Valid() && ConfigsValid()
      modifies this`workspaceConfigs
      ensures Valid() && ConfigsValid()
      ensures workspacePath in old(workspaceConfigs) ==> config == old(workspaceConfigs)[workspacePath]
      ensures workspacePath !in old(workspaceConfigs) ==> config == WorkspaceConfig(fs, workspacePath)
      ensures workspaceConfigs == old(workspaceConfigs)[workspacePath := config]
      ensures HasDefaultKeys(config)
    {
      if workspacePath in workspaceConfigs {
        config := workspaceConfigs[workspacePath];
      } else {
        var warned;
        config, warned := LoadConfigForWorkspace(fs, workspacePath);
        ConfigKeepsDefaultKeys(fs, workspacePath);
        workspaceConfigs := workspaceConfigs[workspacePath := config];
      }
    }

    /** `reloadConfigForWorkspace`: reload and memoise the configuration,
        and drop every cached result whose key starts with the path; trees
        are left alone. */
    method ReloadConfigForWorkspace(workspacePath: string, fs: FileSystem)
      requires Valid() && ConfigsValid()
      modifies this`workspaceConfigs, this`lintResultCache
      ensures Valid() && ConfigsValid()
      ensures workspaceConfigs == old(workspaceConfigs)[workspacePath := WorkspaceConfig(fs, workspacePath)]
      ensures lintResultCache == KeepOutside(old(lintResultCache), workspacePath)
    {
      var config, warned := LoadConfigForWorkspace(fs, workspacePath);
      ConfigKeepsDefaultKeys(fs, workspacePath);
      workspaceConfigs := workspaceConfigs[workspacePath := config];
      var remaining := DropWorkspaceResults(lintResultCache, workspacePath);
      lintResultCache := remaining;
    }

    // -------------------------------------------------------------------
    // Linting
    // -------------------------------------------------------------------

    /** `lint`: not initialised, it throws; a cached result for the same
        text is returned as is; otherwise the text is linted afresh, with
        its tree obtained by the corrected `GetOrCreateTree` (the parse
        comes before the superseded tree is deleted). */
    method Lint(sourceCode: string, filename: string, workspacePath: Option<string>, version: Option<int>,
                edit: Option<Edit>, fs: FileSystem)
      returns (r: Result<seq<LintIssue>, LintError>)
      requires Valid() && ConfigsValid()
      modifies this`workspaceConfigs, this`lintResultCache, this`treeCache, this`owner
      modifies gateway`live, gateway`nextId, gateway`edits
      ensures Valid() && ConfigsValid()
      // not initialised: nothing happens
      ensures !old(initialized) ==> r == Failure(old(EnsureInitialized()).value) && unchanged(this) && unchanged(gateway)
      // a cache hit: the stored issues, nothing else happens
      ensures old(initialized) && filename in old(lintResultCache) && old(lintResultCache)[filename].content == sourceCode ==>
                r == Success(old(lintResultCache)[filename].issues) && unchanged(this) && unchanged(gateway)
      // a miss: the traversal of the text's tree under the resolved configuration, unless the parser is gone
      ensures old(initialized) && !(filename in old(lintResultCache) && old(lintResultCache)[filename].content == sourceCode) ==>
                && (|| (&& r == Failure(ParserNotInitialized) && !gateway.hasParser && !old(gateway.hasParser)
                        && treeCache == old(treeCache) && gateway.live == old(gateway.live))
                    || (&& r == LintOutcome(allRules, LintConfig(old(workspaceConfigs), fs, workspacePath),
                                            gateway.grammar(sourceCode), Context(sourceCode, filename))
                        && TreeUpdate(old(treeCache), treeCache, old(gateway.live), gateway.live, filename, sourceCode)))
                && (r.Success? ==> lintResultCache == old(lintResultCache)[filename := CachedResult(sourceCode, r.value)])
                && (r.Failure? ==> lintResultCache == old(lintResultCache))
                && (workspacePath.Some? && workspacePath.value != "" ==>
                      workspaceConfigs == old(workspaceConfigs)[workspacePath.value := LintConfig(old(workspaceConfigs), fs, workspacePath)])
                && (workspacePath.None? || workspacePath.value == "" ==> workspaceConfigs == old(workspaceConfigs))
    {
      var notReady := EnsureInitialized();
      if notReady.Some? {
        return Failure(notReady.value);
      }
      if filename in lintResultCache && lintResultCache[filename].content == sourceCode {
        return Success(lintResultCache[filename].issues);
      }
      r := LintAfresh(sourceCode, filename, workspacePath, version, edit, fs);
    }

    /** The cache-miss part of `lint`: the configuration, then the tree
        (by the corrected `GetOrCreateTree`), the traversal and the caching
        of a successful result. */
    method LintAfresh(sourceCode: string, filename: string, workspacePath: Option<string>, version: Option<int>,
                      edit: Option<Edit>, fs: FileSystem)
      returns (r: Result<seq<LintIssue>, LintError>)
      requires Valid() && ConfigsValid() && initialized
      modifies this`workspaceConfigs, this`lintResultCache, this`treeCache, this`owner
      modifies gateway`live, gateway`nextId, gateway`edits
      ensures Valid() && ConfigsValid()
      ensures || (&& r == Failure(ParserNotInitialized) && !gateway.hasParser && !old(gateway.hasParser)
                  && treeCache == old(treeCache) && gateway.live == old(gateway.live))
              || (&& r == LintOutcome(allRules, LintConfig(old(workspaceConfigs), fs, workspacePath),
                                      gateway.grammar(sourceCode), Context(sourceCode, filename))
                  && TreeUpdate(old(treeCache), treeCache, old(gateway.live), gateway.live, filename, sourceCode))
      ensures r.Success? ==> lintResultCache == old(lintResultCache)[filename := CachedResult(sourceCode, r.value)]
      ensures r.Failure? ==> lintResultCache == old(lintResultCache)
      // the workspace configuration is memoised under a non-empty path
      ensures workspacePath.Some? && workspacePath.value != "" ==>
                workspaceConfigs == old(workspaceConfigs)[workspacePath.value := LintConfig(old(workspaceConfigs), fs, workspacePath)]
      ensures workspacePath.None? || workspacePath.value == "" ==> workspaceConfigs == old(workspaceConfigs)
    {
      var config := ResolveConfig(workspacePath, fs);
      r := LintTree(sourceCode, filename, version.GetOr(0), edit, config);
    }

    /** The configuration of `lint`: memoised for a non-empty workspace
        path, the defaults otherwise. */
    method ResolveConfig(workspacePath: Option<string>, fs: FileSystem) returns (config: RuleConfig)
      requires Valid() && ConfigsValid()
      modifies this`workspaceConfigs
      ensures Valid() && ConfigsValid()
      ensures config == LintConfig(old(workspaceConfigs), fs, workspacePath)
      ensures workspacePath.Some? && workspacePath.value != "" ==>
                workspaceConfigs == old(workspaceConfigs)[workspacePath.value := config]
      ensures workspacePath.None? || workspacePath.value == "" ==> workspaceConfigs == old(workspaceConfigs)
    {
      if workspacePath.Some? && workspacePath.value != "" {
        config := GetConfigForWorkspace(workspacePath.value, fs);
      } else {
        config := GetDefaultRules();
      }
    }

    /** The tree of the text, the traversal of it with the listeners of
        the loaded rules, and the caching of a successful result. The tree
        comes from the corrected `GetOrCreateTree`, so a failed parse
        leaves the tree cache and the live trees as they were. */
    method LintTree(sourceCode: string, filename: string, version: int, edit: Option<Edit>, config: RuleConfig)
      returns (r: Result<seq<LintIssue>, LintError>)
      requires Valid() && initialized
      modifies this`treeCache, this`owner, this`lintResultCache, gateway`live, gateway`nextId, gateway`edits
      ensures Valid()
      // either the parser is gone and no tree changes, or the text's tree is
      // cached and the result is the traversal of it
      ensures || (&& r == Failure(ParserNotInitialized) && !gateway.hasParser && !old(gateway.hasParser)
                  && treeCache == old(treeCache) && gateway.live == old(gateway.live))
              || (&& r == LintOutcome(allRules, config, gateway.grammar(sourceCode), Context(sourceCode, filename))
                  && TreeUpdate(old(treeCache), treeCache, old(gateway.live), gateway.live, filename, sourceCode))
      ensures r.Success? ==> lintResultCache == old(lintResultCache)[filename := CachedResult(sourceCode, r.value)]
      ensures r.Failure? ==> lintResultCache == old(lintResultCache)
    {
      var tree := GetOrCreateTree(filename, sourceCode, version, edit);
      if tree.Failure? {
        return Failure(tree.error);
      }
      r := RunRules(rules, config, tree.value.rootNode, Context(sourceCode, filename));
      if r.Success? {
        lintResultCache := lintResultCache[filename := CachedResult(sourceCode, r.value)];
      }
    }

    // -------------------------------------------------------------------
    // Caches
    // -------------------------------------------------------------------

    /** `getCachedResults`. */
    function GetCachedResults(filename: string): (r: Option<seq<LintIssue>>)
      reads this
      ensures r.Some? <==> filename in lintResultCache
      ensures r.Some? ==> r.value == lintResultCache[filename].issues
    {
      if filename in lintResultCache then Some(lintResultCache[filename].issues) else None
    }

    /** `clearCache(filename)`: one file's result and tree go, its tree
        deleted; without a (non-empty) name, both caches are emptied and
        every cached tree is deleted. No other tree is touched. */
    method ClearCache(filename: Option<string>)
      requires Valid()
      modifies this`lintResultCache, this`treeCache, gateway`live
      ensures Valid()
      ensures filename.Some? && filename.value != "" ==>
                && lintResultCache == old(lintResultCache) - {filename.value}
                && treeCache == old(treeCache) - {filename.value}
                && gateway.live == old(gateway.live) - CachedId(old(treeCache), filename.value)
      ensures filename.None? || filename.value == "" ==>
                && lintResultCache == map[] && treeCache == map[]
                && gateway.live == old(gateway.live) - CachedIds(old(treeCache))
    {
      if filename.Some? && filename.value != "" {
        var f := filename.value;
        lintResultCache := lintResultCache - {f};
        if f in treeCache {
          var cached := treeCache[f];
          gateway.DeleteTree(cached.tree);
          treeCache := treeCache - {f};
        }
      } else {
        lintResultCache := map[];
        DeleteCachedTrees();
        treeCache := map[];
      }
    }

    /** The loop of `clearCache()` over the tree cache, deleting every
        cached tree once. */
    method DeleteCachedTrees()
      requires Valid()
      modifies gateway`live
      ensures gateway.Valid()
      ensures gateway.live == old(gateway.live) - CachedIds(treeCache)
    {
      var keys := treeCache.Keys;
      assert treeCache - keys == map[];
      while keys != {}
        invariant keys <= treeCache.Keys
        invariant gateway.Valid()
        invariant gateway.live == old(gateway.live) - CachedIds(treeCache - keys)
        decreases keys
      {
        var f :| f in keys;
        var t := treeCache[f].tree;
        assert t.id !in CachedIds(treeCache - keys);
        gateway.DeleteTree(t);
        CachedIdsStep(treeCache, keys, f);
        keys := keys - {f};
      }
      assert treeCache - {} == treeCache;
    }

    /** `cleanup`: clear both caches and forget every workspace configuration. */
    method Cleanup()
      requires Valid()
      modifies this`lintResultCache, this`treeCache, this`workspaceConfigs, gateway`live
      ensures Valid() && ConfigsValid()
      ensures lintResultCache == map[] && treeCache == map[] && workspaceConfigs == map[]
      ensures gateway.live == old(gateway.live) - CachedIds(old(treeCache))
      ensures forall i :: i in owner ==> i !in gateway.live
    {
      ClearCache(None);
      workspaceConfigs := map[];
    }

    // -------------------------------------------------------------------
    // Trees
    // -------------------------------------------------------------------

    /** The common tail of both parse paths: the new tree is cached for the
        file, and the tree it supersedes, if any, is deleted. */
    method StoreTree(filename: string, tree: Tree, sourceCode: string, version: int)
      requires Valid()
      requires tree.id in gateway.live && tree.id !in owner
      requires tree.source == sourceCode && tree.rootNode == gateway.grammar(sourceCode)
      requires forall f :: f in treeCache ==> treeCache[f].tree.id != tree.id
      modifies this`treeCache, this`owner, gateway`live
      ensures Valid()
      ensures treeCache == old(treeCache)[filename := TreeCacheEntry(tree, sourceCode, version)]
      ensures owner == old(owner)[tree.id := filename]
      ensures gateway.live == old(gateway.live) - CachedId(old(treeCache), filename)
    {
      if filename in treeCache {
        gateway.DeleteTree(treeCache[filename].tree);
      }
      treeCache := treeCache[filename := TreeCacheEntry(tree, sourceCode, version)];
      owner := owner[tree.id := filename];
    }

    /** The incremental path: edit the cached tree, parse with it, cache
        the new tree and delete the old one. */
    method ReparseIncremental(filename: string, sourceCode: string, version: int, e: Edit)
      returns (r: Result<Tree, LintError>)
      requires Valid() && filename in treeCache && treeCache[filename].content != sourceCode
      modifies this`treeCache, this`owner, gateway`live, gateway`nextId, gateway`edits
      ensures Valid()
      ensures r.Success? ==> TreeUpdate(old(treeCache), treeCache, old(gateway.live), gateway.live, filename, sourceCode)
      ensures r.Success? ==> && treeCache == old(treeCache)[filename := TreeCacheEntry(r.value, sourceCode, version)]
                             && r.value.rootNode == gateway.grammar(sourceCode) && r.value.id !in old(gateway.live)
                             && gateway.live == old(gateway.live) - {old(treeCache)[filename].tree.id} + {r.value.id} && gateway.hasParser
      ensures r.Success? ==> var id := old(treeCache)[filename].tree.id;
                             gateway.EditsOf(id) == old(gateway.EditsOf(id)) + [e]
      ensures r.Failure? ==> && r.error == ParserNotInitialized && !gateway.hasParser
                             && treeCache == old(treeCache) && unchanged(gateway)
    {
      var cached := treeCache[filename];
      var parsed := gateway.ParseIncremental(sourceCode, cached.tree, e);
      if parsed.Failure? {
        return Failure(ParserNotInitialized);
      }
      StoreTree(filename, parsed.value, sourceCode, version);
      NewTreeUpdate(old(treeCache), old(gateway.live), gateway.live, filename, sourceCode, parsed.value, version);
      r := Success(parsed.value);
    }

    /** The full-parse path: parse, then cache the new tree and delete the
        one it supersedes. */
    method ReparseFull(filename: string, sourceCode: string, version: int)
      returns (r: Result<Tree, LintError>)
      requires Valid() && !(filename in treeCache && treeCache[filename].content == sourceCode)
      modifies this`treeCache, this`owner, gateway`live, gateway`nextId
      ensures Valid()
      ensures r.Success? ==> TreeUpdate(old(treeCache), treeCache, old(gateway.live), gateway.live, filename, sourceCode)
      ensures r.Success? ==> && treeCache == old(treeCache)[filename := TreeCacheEntry(r.value, sourceCode, version)]
                             && r.value.rootNode == gateway.grammar(sourceCode) && r.value.id !in old(gateway.live)
                             && gateway.live == old(gateway.live) - CachedId(old(treeCache), filename) + {r.value.id}
                             && gateway.hasParser
      ensures r.Failure? ==> && r.error == ParserNotInitialized && !gateway.hasParser
                             && treeCache == old(treeCache) && unchanged(gateway)
    {
      var parsed := gateway.Parse(sourceCode);
      if parsed.Failure? {
        return Failure(ParserNotInitialized);
      }
      StoreTree(filename, parsed.value, sourceCode, version);
      NewTreeUpdate(old(treeCache), old(gateway.live), gateway.live, filename, sourceCode, parsed.value, version);
      r := Success(parsed.value);
    }

    /** `getOrCreateTree`, with the full parse done before the superseded
        tree is deleted (see the as-written variant below): the cached
        tree is reused for unchanged content; a newer version with an edit
        is parsed incrementally; anything else is parsed in full. A parser
        failure leaves every cache and tree as it was. */
    method GetOrCreateTree(filename: string, sourceCode: string, version: int, edit: Option<Edit>)
      returns (r: Result<Tree, LintError>)
      requires Valid()
      modifies this`treeCache, this`owner, gateway`live, gateway`nextId, gateway`edits
      ensures Valid()
      ensures r.Success? ==> && filename in treeCache && treeCache[filename].tree == r.value
                             && treeCache[filename].content == sourceCode
                             && r.value.rootNode == gateway.grammar(sourceCode)
      ensures treeCache - {filename} == old(treeCache) - {filename}
      // reuse: nothing parsed, nothing deleted
      ensures filename in old(treeCache) && old(treeCache)[filename].content == sourceCode ==>
                r == Success(old(treeCache)[filename].tree) && treeCache == old(treeCache) && unchanged(gateway)
      // a new parse: one new live tree, and the superseded one, if any, deleted
      ensures r.Success? && !(filename in old(treeCache) && old(treeCache)[filename].content == sourceCode) ==>
                && r.value.id !in old(gateway.live) && treeCache[filename].version == version && gateway.hasParser
                && gateway.live == old(gateway.live) - CachedId(old(treeCache), filename) + {r.value.id}
      // the incremental path edits the superseded tree before deleting it
      ensures r.Success? && filename in old(treeCache) && old(treeCache)[filename].content != sourceCode
              && version > old(treeCache)[filename].version && edit.Some? ==>
                var id := old(treeCache)[filename].tree.id;
                gateway.EditsOf(id) == old(gateway.EditsOf(id)) + [edit.value]
      ensures r.Failure? ==> && r.error == ParserNotInitialized && !gateway.hasParser
                             && treeCache == old(treeCache) && unchanged(gateway)
                             && !(filename in old(treeCache) && old(treeCache)[filename].content == sourceCode)
      ensures r.Success? ==> TreeUpdate(old(treeCache), treeCache, old(gateway.live), gateway.live, filename, sourceCode)
    {
      if filename in treeCache {
        var cached := treeCache[filename];
        if cached.content == sourceCode {
          return Success(cached.tree);
        }
        if version > cached.version && edit.Some? {
          r := ReparseIncremental(filename, sourceCode, version, edit.value);
          return;
        }
      }
      r := ReparseFull(filename, sourceCode, version);
    }

    /** `getOrCreateTree` as written: on the full-parse path the superseded
        tree is deleted before `parse` is called, so when `parse` throws
        the deleted tree stays in the cache. */
    method GetOrCreateTreeAsWritten(filename: string, sourceCode: string, version: int, edit: Option<Edit>)
      returns (r: Result<Tree, LintError>)
      requires Valid()
      modifies this`treeCache, this`owner, gateway`live, gateway`nextId, gateway`edits
      ensures r.Success? ==> && filename in treeCache && treeCache[filename].tree == r.value
                             && treeCache[filename].content == sourceCode
      ensures r.Success? && !(filename in old(treeCache) && old(treeCache)[filename].content == sourceCode) ==> gateway.hasParser
      ensures r.Failure? && filename in old(treeCache) && old(treeCache)[filename].content != sourceCode
              && !(version > old(treeCache)[filename].version && edit.Some?) ==>
                && treeCache == old(treeCache) && treeCache[filename].tree.id !in gateway.live
                && !TreesValid()
    {
      if filename in treeCache {
        var cached := treeCache[filename];
        if cached.content == sourceCode {
          return Success(cached.tree);
        }
        if version > cached.version && edit.Some? {
          var parsed := gateway.ParseIncremental(sourceCode, cached.tree, edit.value);
          if parsed.Failure? {
            return Failure(ParserNotInitialized);
          }
          var newTree := parsed.value;
          gateway.DeleteTree(cached.tree);
          treeCache := treeCache[filename := TreeCacheEntry(newTree, sourceCode, version)];
          owner := owner[newTree.id := filename];
          return Success(newTree);
        } else {
          gateway.DeleteTree(cached.tree);
        }
      }
      var parsed := gateway.Parse(sourceCode);
      if parsed.Failure? {
        return Failure(ParserNotInitialized);
      }
      var tree := parsed.value;
      treeCache := treeCache[filename := TreeCacheEntry(tree, sourceCode, version)];
      owner := owner[tree.id := filename];
      r := Success(tree);
    }
  }

  /** A service initialised over a ready parser, with empty caches. */
  method ReadyScenario(grammar: string -> Node) returns (service: LinterService)
    ensures fresh(service) && fresh(service.gateway)
    ensures service.Valid() && service.initialized && service.gateway.hasParser
    ensures service.treeCache == map[]
  {
    var g := SetupScenario(grammar);
    service := new LinterService(g);
    assert g.initPromise.Some?;
    var awaited := service.Initialize();
    assert g.CurrentPhase() == Ready;
    service.ResumeInitialize(true);
  }

  /** A ready service whose tree cache holds a tree of `a.pas`. */
  method CachedTreeScenario(grammar: string -> Node) returns (service: LinterService)
    ensures fresh(service) && fresh(service.gateway)
    ensures service.Valid() && service.initialized
    ensures "a.pas" in service.treeCache && service.treeCache["a.pas"].content == "begin end."
    ensures service.treeCache["a.pas"].version == 1
  {
    service := ReadyScenario(grammar);
    var first := service.GetOrCreateTree("a.pas", "begin end.", 1, None);
  }

  /** The as-written `getOrCreateTree` after `resetParser`: the next text
      of the cached file fails to parse after the cached tree was already
      deleted. The cache still holds the deleted tree, so the tree-cache
      invariant is broken and a later `clearCache` would delete that tree
      a second time. */
  method StaleTreeScenario(grammar: string -> Node) returns (service: LinterService)
    ensures !service.TreesValid()
    ensures "a.pas" in service.treeCache && service.treeCache["a.pas"].tree.id !in service.gateway.live
  {
    service := CachedTreeScenario(grammar);
    service.gateway.ResetParser();
    var second := service.GetOrCreateTreeAsWritten("a.pas", "begin x end.", 1, None);
  }

  /** The same steps with the corrected order: the failed parse leaves the
      cached tree in place and live, and every invariant holds. */
  method KeptTreeScenario(grammar: string -> Node) returns (service: LinterService)
    ensures service.Valid()
    ensures "a.pas" in service.treeCache && service.treeCache["a.pas"].tree.id in service.gateway.live
    ensures service.treeCache["a.pas"].content == "begin end."
  {
    service := CachedTreeScenario(grammar);
    service.gateway.ResetParser();
    var second := service.GetOrCreateTree("a.pas", "begin x end.", 1, None);
    assert second.Failure?;
  }
}
