/** The parser gateway: the module-level `parser`, `pascalLanguage` and
    `initPromise` as a state machine, and the trees it hands out. The
    grammar itself is an abstract function from text to syntax tree. */
module PascalParser {
  import opened Wrappers
  import opened Types

  /** A `Parser.Edit`: the byte span replaced by an edit. */
  datatype Edit = Edit(startIndex: nat, oldEndIndex: nat, newEndIndex: nat)

  /** A parsed tree: an identity, the text it was parsed from and its root
      node. Whether its memory is still allocated, and the edits applied to
      it, are state of the tree-sitter runtime, kept by the gateway. */
  datatype Tree = Tree(id: nat, source: string, rootNode: Node)

  /** The state of `initPromise`: in flight, or settled successfully. */
  datatype Promise = Pending | Resolved

  /** The phases the three variables can be in. */
  datatype Phase = Uninitialised | AwaitingRuntime | AwaitingGrammar | Ready

  datatype ParseError = NoParser

  class ParserGateway {
    var hasParser: bool          // parser !== null
    var hasLanguage: bool        // pascalLanguage !== null
    var initPromise: Option<Promise>
    /** The Pascal grammar: the syntax tree of a text. */
    const grammar: string -> Node
    /** Ids of the trees whose memory is allocated (not yet `delete()`d). */
    var live: set<nat>
    /** The id the next parsed tree gets. */
    var nextId: nat
    /** The edits applied to each tree by `tree.edit`. */
    var edits: map<nat, seq<Edit>>

    /** The combinations the three variables can reach; every live or
        edited tree was handed out before. */
    ghost predicate Valid()
      reads this
    {
      && (initPromise.None? ==> !hasParser && !hasLanguage)
      && (initPromise == Some(Pending) ==> !hasLanguage)
      && (initPromise == Some(Resolved) ==> hasParser && hasLanguage)
      && (forall i :: i in live ==> i < nextId)
      && (forall i :: i in edits ==> i < nextId)
    }

    /** The edits applied to tree `id` so far. */
    function EditsOf(id: nat): (es: seq<Edit>)
      reads this
      ensures id !in edits ==> es == []
      ensures id in edits ==> es == edits[id]
    {
      if id in edits then edits[id] else []
    }

    function CurrentPhase(): (p: Phase)
      reads this
      requires Valid()
      ensures p == Uninitialised <==> initPromise.None?
      ensures p == AwaitingRuntime <==> initPromise == Some(Pending) && !hasParser
      ensures p == AwaitingGrammar <==> initPromise == Some(Pending) && hasParser
      ensures p == Ready <==> initPromise == Some(Resolved)
    {
      match initPromise
      case None => Uninitialised
      case Some(Pending) => if hasParser then AwaitingGrammar else AwaitingRuntime
      case Some(Resolved) => Ready
    }

    constructor (grammar: string -> Node)
      ensures Valid() && CurrentPhase() == Uninitialised && this.grammar == grammar
      ensures live == {} && edits == map[]
    {
      hasParser := false;
      hasLanguage := false;
      initPromise := None;
      this.grammar := grammar;
      live := {};
      nextId := 0;
      edits := map[];
    }

    /** A set `parser` always comes with a promise, so the early return for
        an already-set parser is never taken on its own. */
    lemma ParserImpliesPromise()
      requires Valid()
      ensures hasParser ==> initPromise.Some?
    {
    }

    /** `initializeParser`: returns the existing promise when there is one;
        otherwise starts the setup, which is suspended at `Parser.init()`.
        The result is the promise the caller awaits. */
    method InitializeParser() returns (awaited: Promise)
      requires Valid()
      modifies this`hasParser, this`hasLanguage, this`initPromise
      ensures Valid()
      ensures old(initPromise).Some? ==> awaited == old(initPromise).value && unchanged(this)
      ensures old(initPromise).None? ==> CurrentPhase() == AwaitingRuntime && awaited == Pending
    {
      if initPromise.Some? {
        return initPromise.value;
      }
      if hasParser {
        return Resolved;
      }
      initPromise := Some(Pending);
      awaited := Pending;
    }

    /** Any setup failure: all three variables back to null so a later
        call retries. */
    method ResetOnFailure()
      requires Valid()
      modifies this`hasParser, this`hasLanguage, this`initPromise
      ensures Valid() && CurrentPhase() == Uninitialised
    {
      hasParser := false;
      hasLanguage := false;
      initPromise := None;
    }

    /** The setup resumes after `Parser.init()`: `parser` is created, then
        the grammar file is checked; a failed init or a missing
        `parsers/tree-sitter-pascal.wasm` resets everything. */
    method ResumeAfterRuntime(runtimeOk: bool, wasmExists: bool) returns (ok: bool)
      requires Valid() && CurrentPhase() == AwaitingRuntime
      modifies this`hasParser, this`hasLanguage, this`initPromise
      ensures Valid()
      ensures ok <==> runtimeOk && wasmExists
      ensures ok ==> CurrentPhase() == AwaitingGrammar
      ensures !ok ==> CurrentPhase() == Uninitialised
    {
      if !runtimeOk {
        ResetOnFailure();
        return false;
      }
      hasParser := true;
      if !wasmExists {
        ResetOnFailure();
        return false;
      }
      ok := true;
    }

    /** The setup resumes after `Language.load`: on success the language is
        set and the promise settles; on failure everything is reset. */
    method ResumeAfterGrammar(loaded: bool)
      requires Valid() && CurrentPhase() == AwaitingGrammar
      modifies this`hasParser, this`hasLanguage, this`initPromise
      ensures Valid()
      ensures loaded ==> CurrentPhase() == Ready
      ensures !loaded ==> CurrentPhase() == Uninitialised
    {
      if !loaded {
        ResetOnFailure();
        return;
      }
      hasLanguage := true;
      initPromise := Some(Resolved);
    }

    /** `isInitialized`: true as soon as `parser` is set, which is already
        the case while the grammar is still loading. */
    function IsInitialized(): (r: bool)
      reads this
      requires Valid()
      ensures r <==> CurrentPhase() == AwaitingGrammar || CurrentPhase() == Ready
    {
      hasParser
    }

    /** `parse`: fails without a parser and changes nothing; otherwise a
        new live tree of the text. */
    method Parse(sourceCode: string) returns (r: Result<Tree, ParseError>)
      requires Valid()
      modifies this`live, this`nextId
      ensures Valid()
      ensures r.Failure? <==> !hasParser
      ensures r.Failure? ==> unchanged(this)
      ensures r.Success? ==> && r.value.id !in old(live) && r.value.source == sourceCode
                             && r.value.rootNode == grammar(sourceCode)
                             && live == old(live) + {r.value.id} && r.value.id !in edits
                             && old(nextId) <= r.value.id < nextId
    {
      if !hasParser {
        return Failure(NoParser);
      }
      var t := NewTree(sourceCode);
      r := Success(t);
    }

    /** A new tree of `sourceCode` with the next id. */
    method NewTree(sourceCode: string) returns (t: Tree)
      requires Valid()
      modifies this`live, this`nextId
      ensures Valid()
      ensures t.id !in old(live) && t.id !in edits && t.source == sourceCode && t.rootNode == grammar(sourceCode)
      ensures live == old(live) + {t.id} && t.id == old(nextId) && nextId == old(nextId) + 1
    {
      t := Tree(nextId, sourceCode, grammar(sourceCode));
      live := live + {nextId};
      nextId := nextId + 1;
    }

    /** `parseIncremental`: fails without a parser and changes nothing;
        otherwise applies the edit to the previous tree, which stays live,
        and returns a new live tree of the new text. */
    method ParseIncremental(sourceCode: string, previousTree: Tree, e: Edit) returns (r: Result<Tree, ParseError>)
      requires Valid() && previousTree.id in live
      modifies this`live, this`nextId, this`edits
      ensures Valid()
      ensures r.Failure? <==> !hasParser
      ensures r.Failure? ==> unchanged(this)
      ensures r.Success? ==> EditsOf(previousTree.id) == old(EditsOf(previousTree.id)) + [e]
      ensures r.Success? ==> && r.value.id !in old(live) && r.value.id != previousTree.id
                             && r.value.source == sourceCode && r.value.rootNode == grammar(sourceCode)
                             && live == old(live) + {r.value.id}
                             && old(nextId) <= r.value.id < nextId
    {
      if !hasParser {
        return Failure(NoParser);
      }
      edits := edits[previousTree.id := EditsOf(previousTree.id) + [e]];
      var t := NewTree(sourceCode);
      r := Success(t);
    }

    /** `tree.delete()`: releasing memory that is already released is not
        allowed, so every caller must prove the tree is still live. */
    method DeleteTree(t: Tree)
      requires Valid() && t.id in live
      modifies this`live
      ensures Valid()
      ensures live == old(live) - {t.id}
    {
      live := live - {t.id};
    }

    /** `cleanup`: resets the three variables, but only when `parser` is set;
        a setup still waiting for the runtime is left pending. */
    method Cleanup()
      requires Valid()
      modifies this`hasParser, this`hasLanguage, this`initPromise
      ensures Valid()
      ensures old(CurrentPhase()) == AwaitingGrammar || old(CurrentPhase()) == Ready ==> CurrentPhase() == Uninitialised
      ensures old(CurrentPhase()) == Uninitialised || old(CurrentPhase()) == AwaitingRuntime ==> unchanged(this)
    {
      if hasParser {
        hasParser := false;
        hasLanguage := false;
        initPromise := None;
      }
    }

    /** `resetParser`: resets the three variables unconditionally. */
    method ResetParser()
      requires Valid()
      modifies this`hasParser, this`hasLanguage, this`initPromise
      ensures Valid() && CurrentPhase() == Uninitialised
    {
      hasParser := false;
      hasLanguage := false;
      initPromise := None;
    }
  }

  /** A full successful setup: after the two resumptions the gateway is
      ready and parses. */
  method SetupScenario(grammar: string -> Node) returns (g: ParserGateway)
    ensures fresh(g) && g.Valid() && g.CurrentPhase() == Ready && g.IsInitialized()
  {
    g := new ParserGateway(grammar);
    var awaited := g.InitializeParser();
    var ok := g.ResumeAfterRuntime(true, true);
    assert g.CurrentPhase() == AwaitingGrammar && g.IsInitialized();
    g.ResumeAfterGrammar(true);
  }
}
