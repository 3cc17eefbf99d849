# PascalLint core in Dafny

PascalLint is a linter for Object Pascal and Delphi source. It parses a file with a tree-sitter
grammar, runs a fixed registry of syntax-tree rules over the tree in one pass, and reports issues.
Some issues carry mechanical fixes, and the command-line tool can apply those fixes and print the
issues in four formats. This project models the core of the linter and proves properties of it:

- `LinterServiceModule` (`linter_service.dfy`): the `LinterService` class. It covers initialisation,
  the per-file tree cache and result cache, the per-workspace configuration cache, `lint`, and the
  release of parse trees. Listener dispatch is written as the loops of `createRuleContext` and
  `traverseTree`.
- `PascalParser` (`pascal_parser.dfy`): the parser gateway. The module-level `parser`,
  `pascalLanguage` and `initPromise` form a state machine with full and incremental parses. The
  gateway also tracks which trees are still allocated.
- `ConfigLoader` (`config_loader.dfy`): default severities, the overlay of user settings, and the
  search for the first usable configuration file.
- `Registry` (`registry.dfy`) and one module per rule (`rule_*.dfy`): rule identities, defaults,
  listener keys and each rule's checks and fixes.
- `LinterDispatch` (`linter_dispatch.dfy`): the reference definitions of severity resolution,
  listener indexing and pre-order traversal that the service's loops are proved against.
- `CliFixes` (`cli_fixes.dfy`): `applyFixes`, the `--quiet` filter and the Pascal file-extension
  filter of the command-line tool.
- `CliFormatters` (`cli_formatters.dfy`): the stylish, JSON, unix and SonarQube formatters.
- `Types`, `Text` and `Wrappers`: the issue, range and node types, ASCII string helpers, and
  `Option`/`Result`.

Asynchrony is collapsed into explicit phases. `initialize` and `initializeParser` start a pending
promise, and separate methods resume them when the runtime or the grammar has loaded. The grammar
is a function from text to syntax tree, fixed when the gateway is built. Configuration files are
a map from path to file state, and the formatters produce records or lines in place of JSON text.

## Model

| member | source | states |
|---|---|---|
| NoWith.CheckWith | src/rules/no-with.ts:22-37 | every `with` node gets exactly one report, over the node's span, with no fix, whose message mentions `with` |
| NoWith.Create | src/rules/no-with.ts:19-40 | the listener subscribes to `with` only and its handler is `CheckWith` |
| DanglingSemicolon.Message | src/rules/dangling-semicolon.ts:64 | the message mentions `semicolon` and names the statement right after the opening quote |
| DanglingSemicolon.MessageNamesStatement | src/rules/dangling-semicolon.ts:64 | the message contains the statement type and the word `semicolon` |
| DanglingSemicolon.FirstLetter | src/rules/dangling-semicolon.ts:46-47 | a case-insensitive match of the keyword starts with the keyword's first letter in either case |
| DanglingSemicolon.FindKeywordSemicolon | src/rules/dangling-semicolon.ts:46-51 | the result is the leftmost index at or after `from` where `\b<kw>\s*;` matches case-insensitively; none means no match at any later index |
| DanglingSemicolon.SemicolonIndex | src/rules/dangling-semicolon.ts:51-55 | there is a result exactly when the pattern matches somewhere; the result indexes a `;` in the node text |
| DanglingSemicolon.PatternReports | src/rules/dangling-semicolon.ts:50-76 | one report exactly when the pattern matches: a one-character range on the semicolon, line and column from the text before it, the statement's message, and a fix that deletes it |
| DanglingSemicolon.CheckDanglingSemicolon | src/rules/dangling-semicolon.ts:34-79 | one report per matching pattern; a `then;` match gives the first report and a `do;` match the last, each exactly the pattern's own report (its semicolon's line and column, the statement's message, a deleting fix) |
| DanglingSemicolon.Create | src/rules/dangling-semicolon.ts:19-31 | the listener subscribes to `if_statement`, `while_statement` and `for_statement`, each handler naming its statement |
| DanglingSemicolon.DanglingThenMatches | test/rules/dangling-semicolon.test.ts:12-36 | in `if x > 0 then;` the `then` pattern ends at index 13 and the `do` pattern does not match |
| DanglingSemicolon.DanglingThenExample | test/rules/dangling-semicolon.test.ts:12-46 | the test's `if` node gets exactly one report, on line 0 column 13 to column 14, whose message contains `semicolon` and whose fix deletes the semicolon |
| DanglingSemicolon.ExampleSemicolonPosition | src/rules/dangling-semicolon.ts:58-61 | offset 13 of the test source is line 0, column 13 |
| DanglingSemicolon.OnlyThenReport | src/rules/dangling-semicolon.ts:50-76 | when only `then;` matches there is exactly one report, on that semicolon, with the statement's message and a deleting fix |
| DanglingSemicolon.ThenOnly | src/rules/dangling-semicolon.ts:45-50 | without a `do;` match the handler reports exactly what the `then` pattern reports |
| DanglingSemicolon.FirstLineHasNoBreak | src/rules/dangling-semicolon.ts:58-61 | the text before the test's semicolon has no line break |
| DanglingSemicolon.DanglingDoMatches | src/rules/dangling-semicolon.ts:44-51 | in `while x do;` the `do` pattern ends at index 10 and the `then` pattern does not match |
| DanglingSemicolon.DanglingDoExample | src/rules/dangling-semicolon.ts:44-76 | a `while x do;` node gets exactly one report, on line 0 column 10 to column 11, whose message names `while` and `semicolon` and whose fix deletes the semicolon |
| DanglingSemicolon.DoExampleSemicolonPosition | src/rules/dangling-semicolon.ts:58-61 | offset 10 of `while x do; y := 1;` is line 0, column 10 |
| EmptyBeginEnd.MeaningfulChildren | src/rules/empty-begin-end.ts:25-29 | the filter leaves nothing exactly when every child is `kBegin`, `kEnd` or a comment |
| EmptyBeginEnd.CheckBlock | src/rules/empty-begin-end.ts:22-63 | one report exactly when every named child is a keyword or a comment, over the block, with the fix `{ empty block removed }` |
| EmptyBeginEnd.Create | src/rules/empty-begin-end.ts:19-65 | the listener subscribes to `block` only and its handler is `CheckBlock` |
| EmptyBeginEnd.BlockExamples | test/rules/empty-begin-end.test.ts:23-66 | `begin end` is reported with a fix; a block with a statement is not reported |
| NoEmptyFinally.MeaningfulChildren | src/rules/no-empty-finally.ts:23-29 | the kept children are exactly the named children that are not `finally`, `end` or a comment and whose trimmed text is not empty |
| NoEmptyFinally.NothingMeaningfulIff | src/rules/no-empty-finally.ts:23-31 | the filter leaves nothing exactly when every child is a keyword, a comment or blank text |
| NoEmptyFinally.CheckFinallyClause | src/rules/no-empty-finally.ts:21-47 | one report without a fix over the clause exactly when every named child is filler |
| NoEmptyFinally.Create | src/rules/no-empty-finally.ts:19-50 | the listener subscribes to `finally_clause` only |
| UseFreeAndNil.MatchFree | src/rules/use-free-and-nil.ts:26-27 | a match captures a leading run of word characters followed by `.Free` (any case), optional blanks and an optional final `;` |
| UseFreeAndNil.MatchFreeComplete | src/rules/use-free-and-nil.ts:26 | every text of that shape matches and captures its identifier |
| UseFreeAndNil.Message | src/rules/use-free-and-nil.ts:32 | the message names `FreeAndNil` right after the opening quote |
| UseFreeAndNil.CheckStatement | src/rules/use-free-and-nil.ts:22-61 | one report exactly when the text matches, over the node, whose message names `FreeAndNil` and the variable and whose fix writes `FreeAndNil(<var>);` |
| UseFreeAndNil.Create | src/rules/use-free-and-nil.ts:19-64 | the listener subscribes to `statement` only |
| UseFreeAndNil.FixIsNotRematched | src/rules/use-free-and-nil.ts:58 | the fix text does not match the pattern of line 26, so a fixed statement is not reported again |
| UseFreeAndNil.MyObjectExample | test/rules/use-free-and-nil.test.ts:23-41 | `MyObject.Free;` gets one report whose message contains `FreeAndNil` and whose fix is `FreeAndNil(MyObject);` |
| CamelCase.Message | src/rules/camel-case.ts:74 | the message starts with the kind and names the identifier in quotes |
| CamelCase.CheckName | src/rules/camel-case.ts:45-89 | one report exactly when the name is longer than one character, has no skipped Delphi prefix, is neither camelCase nor snake_case, and is not all upper case; the message names the kind and the name |
| CamelCase.LowerStartReported | src/rules/camel-case.ts:63-71 | a lower-case name is reported exactly when it has a non-alphanumeric character and also a character outside `[a-z0-9_]` |
| CamelCase.CheckIdentifiers | src/rules/camel-case.ts:36-43 | only `identifier` children are checked; none means no report |
| CamelCase.CheckIdentifiersAppend | src/rules/camel-case.ts:38-42 | the reports of a list of children are those of its two halves, in order |
| CamelCase.CheckParameter | src/rules/camel-case.ts:25-30 | a parameter is checked through its `name` field child, and not at all without one |
| CamelCase.Create | src/rules/camel-case.ts:19-33 | the listener subscribes to `variable_declaration` (kind `Variable`) and `parameter` (kind `Parameter`) |
| PascalCase.DelphiNamesArePascalCase | src/rules/pascal-case.ts:73-79 | a name of the Delphi `T` or `I` shape is already PascalCase, so only the first pattern decides |
| PascalCase.Message | src/rules/pascal-case.ts:81 | the message starts with the kind and names the identifier in quotes |
| PascalCase.CheckPascalCase | src/rules/pascal-case.ts:60-96 | one report exactly when the name is longer than one character and not PascalCase, over the name node, with no fix, naming the kind and the name |
| PascalCase.CheckDeclaration | src/rules/pascal-case.ts:21-55 | a declaration is checked through its `name` field child, and not at all without one |
| PascalCase.Create | src/rules/pascal-case.ts:19-57 | the listener subscribes to the five declaration types, each handler with its own kind |
| OneVarPerLine.Message | src/rules/one-var-per-line.ts:37 | the message names the number of variables |
| OneVarPerLine.CheckVariableDeclaration | src/rules/one-var-per-line.ts:21-52 | one report exactly when the text has a colon and a comma before the first colon; the message names the comma count plus one |
| OneVarPerLine.CountZeroIff | src/rules/one-var-per-line.ts:33-35 | the comma count is positive exactly when a comma occurs |
| OneVarPerLine.Create | src/rules/one-var-per-line.ts:19-54 | the listener subscribes to `variable_declaration` only |
| NoSemicolonBeforeElse.FindElse | src/rules/no-semicolon-before-else.ts:26-28 | the result is the first child that is `else` by type or by lower-cased text; none means no child is |
| NoSemicolonBeforeElse.SemicolonPosition | src/rules/no-semicolon-before-else.ts:36-38 | the line and column computed from the pieces up to and including the semicolon are the semicolon's true position |
| NoSemicolonBeforeElse.LastIndexAppend | src/rules/no-semicolon-before-else.ts:36-38 | appending another character does not move the last line break |
| NoSemicolonBeforeElse.CountAppend | src/rules/no-semicolon-before-else.ts:36-37 | appending another character does not change the number of line breaks |
| NoSemicolonBeforeElse.CheckIfStatement | src/rules/no-semicolon-before-else.ts:21-55 | one report exactly when there is an `else` child and the trimmed text before it ends with `;`; the report covers that semicolon, only blanks lie between it and the `else`, and the fix deletes it |
| NoSemicolonBeforeElse.Create | src/rules/no-semicolon-before-else.ts:19-58 | the listener subscribes to `if_statement` only |
| UnreachableCode.FirstTerminatorFrom | src/rules/unreachable-code.ts:26-52 | the result is the first terminating child at or after `k`; none means no later child terminates |
| UnreachableCode.CheckCompound | src/rules/unreachable-code.ts:21-54 | one report exactly when some child other than the last terminates; it covers the child right after the first terminating one, with no fix |
| UnreachableCode.ScanCompound | src/rules/unreachable-code.ts:23-53 | the flag-and-break loop of the handler computes exactly `CheckCompound`'s reports |
| UnreachableCode.Create | src/rules/unreachable-code.ts:19-56 | the listener subscribes to `compound_statement` only |
| UpperCaseKeywords.CheckNode | src/rules/upper-case-keywords.ts:40-89 | one report exactly when the node is a leaf whose lower-cased text is a keyword and differs from the text; the fix writes the lower-cased text over the node |
| UpperCaseKeywords.ReportedHasUpperCase | src/rules/upper-case-keywords.ts:55-59 | a reported keyword contains an upper-case letter |
| UpperCaseKeywords.FixSettlesReport | src/rules/upper-case-keywords.ts:86 | the leaf with the fix applied is not reported again (the already-lower-case test of line 55 returns early) |
| UpperCaseKeywords.Create | src/rules/upper-case-keywords.ts:38-90 | the listener's only key is `*` |
| CheckAssigned.MatchDotFree | src/rules/check-assigned.ts:25-29 | a match is the whole text: a word, `.`, then `free` in any case; the capture is the word |
| CheckAssigned.MatchFreeAndNil | src/rules/check-assigned.ts:26-30 | a match starts with `freeandnil` in any case, captures a word and ends with `)`; the iff with a `FreeAndNil` call is `FreeAndNilIff` |
| CheckAssigned.PatternsExclusive | src/rules/check-assigned.ts:32-36 | the two patterns never both match, so the order of the two tests does not matter |
| CheckAssigned.DotFreeComplete | src/rules/check-assigned.ts:25 | every `w.Free`, in any case of `Free`, matches with `w` captured |
| CheckAssigned.FreeAndNilComplete | src/rules/check-assigned.ts:26 | `FreeAndNil` in any letter case, blanks, `(`, blanks, a word `w`, blanks and `)` match with `w` captured |
| CheckAssigned.FreeAndNilSound | src/rules/check-assigned.ts:26-30 | every match is such a call: the text splits into the keyword, blanks, `(`, blanks, the capture, blanks and `)` |
| CheckAssigned.FreeAndNilIff | src/rules/check-assigned.ts:26-30 | the pattern matches with capture `w` exactly when the text is a `FreeAndNil` call of `w` |
| CheckAssigned.ScanForAssigned | src/rules/check-assigned.ts:45-59 | the early-exit loop over the window finds a guard exactly when one of the (up to) five non-empty lines above holds `assigned(v` or `v <> nil`, ignoring case |
| CheckAssigned.CheckCall | src/rules/check-assigned.ts:21-79 | one report without a fix, over the call, exactly when the call frees a variable and no line in the window guards it |
| CheckAssigned.Create | src/rules/check-assigned.ts:19-81 | the listener subscribes to `call_expression` only |
| CheckAssigned.WindowIsFiveLines | src/rules/check-assigned.ts:48 | a call on the first line is always reported; any guard found lies within the five lines above |
| ConstructorCallOnInstance.MatchCreate | src/rules/constructor-call-on-instance.ts:26-27 | a match is an identifier not starting with a digit, `.`, then `create` in any case, ending at a word boundary |
| ConstructorCallOnInstance.InstanceIsNeverClass | src/rules/constructor-call-on-instance.ts:33-40 | no identifier both looks like an instance and like a class, so the class test never changes the outcome |
| ConstructorCallOnInstance.CapitalizeFirst | src/rules/constructor-call-on-instance.ts:63-71 | an `F` field prefix is dropped and the first remaining letter upper-cased, the rest kept |
| ConstructorCallOnInstance.Message | src/rules/constructor-call-on-instance.ts:42 | the message names the identifier right after the quote |
| ConstructorCallOnInstance.CheckCall | src/rules/constructor-call-on-instance.ts:21-58 | one report without a fix exactly when the text is `x.Create` and `x` looks like an instance; the message names `x` |
| ConstructorCallOnInstance.SuggestionLooksLikeClass | src/rules/constructor-call-on-instance.ts:63-71 | the class name suggested in the message of line 42 for a reported identifier itself looks like a class (`T` and an upper-case letter) |
| ConstructorCallOnInstance.Create | src/rules/constructor-call-on-instance.ts:19-60 | the listener subscribes to `call_expression` only |
| NoExitInFinally.CheckExit | src/rules/no-exit-in-finally.ts:32-65 | one report exactly when the flag is set, over the node, with the message about `Exit` and a fix replacing the statement by a comment |
| NoExitInFinally.CheckRaise | src/rules/no-exit-in-finally.ts:67-85 | one report without a fix exactly when the flag is set |
| NoExitInFinally.CheckBreak | src/rules/no-exit-in-finally.ts:87-105 | one report without a fix exactly when the flag is set |
| NoExitInFinally.Create | src/rules/no-exit-in-finally.ts:19-107 | the listener's keys are `finally_clause`, `exit_statement`, `raise_statement`, `break_statement`; the first maps to an enter/leave object, not a function; the flag starts false |
| NoExitInFinally.FinallyTracker.constructor | src/rules/no-exit-in-finally.ts:20 | the captured flag starts false |
| NoExitInFinally.FinallyTracker.Enter | src/rules/no-exit-in-finally.ts:24-26 | entering a `finally` clause sets the flag |
| NoExitInFinally.FinallyTracker.Leave | src/rules/no-exit-in-finally.ts:27-29 | leaving a `finally` clause clears the flag |
| NoExitInFinally.FinallyTracker.OnExit | src/rules/no-exit-in-finally.ts:32-65 | the handler reports what `CheckExit` reports for the current flag |
| NoExitInFinally.FinallyTracker.OnRaise | src/rules/no-exit-in-finally.ts:67-85 | the handler reports what `CheckRaise` reports for the current flag |
| NoExitInFinally.FinallyTracker.OnBreak | src/rules/no-exit-in-finally.ts:87-105 | the handler reports what `CheckBreak` reports for the current flag |
| NoExitInFinally.NestedFinallyScenario | src/rules/no-exit-in-finally.ts:20-29 | with one boolean flag, an `Exit` after an inner `finally` closes inside an outer one is not reported |
| Registry.Ids | src/rules/index.ts:18-36 | the ids of a rule list, one per rule, in order |
| Registry.RegistryOrder | src/rules/index.ts:18-36 | `allRules` holds the twelve registered rules in registration order |
| Registry.RegistryIdsDistinct | src/rules/index.ts:18-36 | no two registered rules share an id |
| Registry.UnregisteredRules | src/rules/index.ts:18-36 | `no-semicolon-before-else` and `constructor-call-on-instance` have default severities but are not registered, so the service never runs them |
| Registry.RegisteredIdsHaveDefaults | src/rules/index.ts:18-36 | every registered id has an entry in the default table |
| Types.OffsetPosition | src/rules/dangling-semicolon.ts:58-61 | the line is the number of line breaks before the offset and the column the distance from the last one |
| Types.NodeRange | src/rules/no-with.ts:25-36 | a node-level range carries the node's rows, columns and indices |
| Types.ChildForFieldName | src/types/index.ts:95 | there is a result exactly when some field has the name |
| Types.Lookup | src/types/index.ts:68-70 | a listener has a value under a key exactly when the key is among its keys |
| Types.FirstField | src/types/index.ts:95 | the first field with the name, and one exists exactly when some field has it |
| Types.Keys | src/types/index.ts:68-70 | the listener's keys, one per entry, in insertion order |
| Types.Plain | src/types/index.ts:34-41 | a report with neither a fix nor suggestions |
| Types.Fixed | src/types/index.ts:26-29 | a report whose fix covers the report's own range |
| Types.SeverityName | src/types/index.ts:21 | the configuration spelling of each severity: `error`, `warn`, `info` and `off`, each for exactly its severity |
| Text.ToLower | src/rules/unreachable-code.ts:60-61 | `toLowerCase` on ASCII: same length, each character lower-cased |
| Text.ToLowerIdempotent | src/rules/upper-case-keywords.ts:42 | lower-casing twice is lower-casing once |
| Text.Split | src/rules/dangling-semicolon.ts:59 | `split` on one character gives at least one piece; `SplitCount`, `SplitLast` and `JoinSplit` give the rest: one piece more than separators, the last piece after the last separator, and joining the pieces restores the text |
| Text.JoinSplit | src/rules/check-assigned.ts:44 | joining the pieces of a split with the separator restores the text |
| Text.SplitCount | src/rules/dangling-semicolon.ts:59-60 | a split has one more piece than the text has separators |
| Text.SplitLast | src/rules/dangling-semicolon.ts:61 | the last piece is the text after the last separator |
| Text.TrimEmptyIff | src/rules/no-empty-finally.ts:28 | `trim()` leaves nothing exactly when the text is all whitespace |
| Text.NatToString | src/cli/formatters.ts:102-107 | the decimal rendering is a non-empty run of digits with no leading zero |
| Text.DecimalRoundTrip | src/cli/formatters.ts:102-107 | reading back a rendered number gives the number |
| ConfigLoader.GetDefaultRules | src/config/config-loader.ts:49-71 | exactly the fourteen ids, each a plain severity; `no-with` and `no-semicolon-before-else` error, `empty-begin-end` warn, `camel-case` and `upper-case-keywords` off |
| ConfigLoader.MergeWithDefaults | src/config/config-loader.ts:76-81 | every default key stays, user-only keys are added, and the user value wins on a shared key |
| ConfigLoader.MergeEmptyIsDefaults | src/config/config-loader.ts:20 | a parsed file without `rules` gives the defaults unchanged |
| ConfigLoader.FirstUsable | src/config/config-loader.ts:14-26 | the first candidate that exists and parses, with every earlier one unusable; none when no candidate is usable |
| ConfigLoader.MalformedAmong | src/config/config-loader.ts:21-24 | each warned name is a candidate that exists but does not parse |
| ConfigLoader.LoadConfigForWorkspace | src/config/config-loader.ts:11-30 | the loop's result is the first usable candidate's `rules` over the defaults (else the defaults), and it warns about exactly the malformed candidates tried before it stops |
| ConfigLoader.LoadConfig | src/config/config-loader.ts:36-43 | with no (or an empty) base path the defaults; otherwise the workspace result |
| ConfigLoader.ConfigKeepsDefaultKeys | src/config/config-loader.ts:76-81 | whatever the files hold, every default id is configured |
| ConfigLoader.NoUsableCandidate | src/config/config-loader.ts:28-29 | with no usable candidate the result is exactly the defaults and every malformed candidate is warned about |
| ConfigLoader.MalformedFirstCandidateSkipped | src/config/config-loader.ts:17-24 | a malformed `.PascalLint.json` is warned about and skipped, and a parsed `.pascallintrc` decides |
| ConfigLoader.FirstCandidateWins | src/config/config-loader.ts:14-20 | a parsed `.PascalLint.json` decides and nothing is warned about |
| ConfigLoader.MergeExample | test/config/config-loader.test.ts:29-47 | `no-with: off` and `custom-rule: error` over the defaults: both present, `empty-begin-end` still warn |
| LinterDispatch.FindRule | src/linter/linter-service.ts:280 | `rules.find`: the first rule with the id, every earlier one differing; none when no rule has it |
| LinterDispatch.SeverityResolution | src/linter/linter-service.ts:274-287 | a configured value gives its level (a string itself, an array its first element); an absent key gives the first matching rule's default, or `off` for an unknown id |
| LinterDispatch.DefaultsOverrideDeclaredSeverity | src/linter/linter-service.ts:278-281 | under the default table `camel-case` and `upper-case-keywords` resolve to `off` although they declare `info`; `no-exit-in-finally` resolves to `error` |
| LinterDispatch.Stamp | src/linter/linter-service.ts:300-305 | each report becomes one issue, in order, carrying the rule's id and effective severity and the report's own fields |
| LinterDispatch.StampAppend | src/linter/linter-service.ts:300-305 | stamping two report runs one after the other is stamping them together |
| LinterDispatch.ActiveEntries | src/linter/linter-service.ts:158-173 | the rule loop makes at most one entry per rule |
| LinterDispatch.ActiveEntriesOrigin | src/linter/linter-service.ts:158-166 | every entry comes from a loaded rule, carries that rule's listener and effective severity, and that severity is never `off` |
| LinterDispatch.ActiveIndexStep | src/linter/linter-service.ts:158-173 | one loop step: a rule at `off` leaves the index unchanged (no `create`), any other pushes its entry under each of its listener's keys |
| LinterDispatch.OffRuleHasNoEntry | src/linter/linter-service.ts:160-162 | a rule resolving to `off` has no entry, so it adds no listener and no issue |
| LinterDispatch.Push | src/linter/linter-service.ts:168-171 | the entry is appended to the list under its key, and every other key keeps its list |
| LinterDispatch.KeyedMembers | src/linter/linter-service.ts:167-172 | the keyed entries are exactly the entries whose listener has the key |
| LinterDispatch.AddKeysEffect | src/linter/linter-service.ts:167-172 | with distinct keys, the inner loop appends the entry once under each of its keys and nowhere else |
| LinterDispatch.DistinctKeysSeq | src/types/index.ts:68-70 | an object's keys, read in order, repeat no key |
| LinterDispatch.IndexIsKeyed | src/linter/linter-service.ts:158-173 | the list under each node type is exactly the entries having that key, in rule order |
| LinterDispatch.Then | src/linter/linter-service.ts:319-337 | the first error wins; otherwise the issues of both steps in order |
| LinterDispatch.ThenAssociative | src/linter/linter-service.ts:319-337 | sequencing throwing steps is associative |
| LinterDispatch.RunEntry | src/linter/linter-service.ts:325-330 | a missing value does nothing; a function value gives its reports stamped; an `{enter, leave}` value throws because it is called as a function |
| LinterDispatch.PreOrder | src/linter/linter-service.ts:319-337 | the pre-order sequence starts with the node itself |
| LinterDispatch.VisitAllAppend | src/linter/linter-service.ts:334-336 | visiting two node runs is visiting the first, then the second |
| LinterDispatch.TraverseIsPreOrder | src/linter/linter-service.ts:319-337 | the traversal is the visit of the pre-order sequence over all children, named or not |
| LinterDispatch.ChildrenArePreOrder | src/linter/linter-service.ts:334-336 | the loop over the children visits their pre-order sequences left to right |
| LinterDispatch.RunEntriesStamped | src/linter/linter-service.ts:300-305 | every issue a visit produces carries the id and severity of an entry that ran |
| LinterDispatch.FinallyClauseThrows | src/rules/no-exit-in-finally.ts:23-30 | a `finally_clause` node reaching the `no-exit-in-finally` listener makes the visit throw |
| LinterDispatch.UpperCaseKeywordsSilent | src/rules/upper-case-keywords.ts:40 | the `'*'` key runs only on a node whose type is `*`, which is no keyword, so the rule never reports through the engine |
| LinterDispatch.ActiveEntryPresent | src/linter/linter-service.ts:158-166 | a rule that does not resolve to `off` has its entry among the active ones |
| LinterDispatch.KeyedActiveStep | src/linter/linter-service.ts:158-173 | one more rule extends the keyed list by its entry exactly when it is active and has the key |
| LinterDispatch.RegisteredListenersDistinct | src/rules/index.ts:18-36 | every registered listener has distinct keys |
| LinterDispatch.RegistryKeys | src/rules/index.ts:18-36 | the listener keys of each registered rule, in registry order |
| LinterDispatch.KeyedActiveNone | src/linter/linter-service.ts:158-173 | rules without the key contribute nothing under it |
| LinterDispatch.VariableDeclarationHolders | src/rules/index.ts:29-34 | of the registered rules only `one-var-per-line` and `camel-case` have the `variable_declaration` key |
| LinterDispatch.TwoHoldersMask | src/linter/linter-service.ts:158-173 | proof helper of `VariableDeclarationOrder`: when exactly two rules have the key and both are active, exactly those two contribute |
| LinterDispatch.VariableDeclarationKeyedIds | src/rules/index.ts:29-34 | with both enabled, the active rules having `variable_declaration` are `one-var-per-line` then `camel-case` |
| LinterDispatch.VariableDeclarationOrder | src/rules/index.ts:29-34 | on a `variable_declaration` node the index lists `one-var-per-line` before `camel-case` and nothing else, so their issues come in that order |
| LinterDispatch.EntryIds | src/linter/linter-service.ts:168-171 | the rule ids of an entry list, in order |
| LinterDispatch.KeyedIdsAre | src/linter/linter-service.ts:158-173 | the ids of the keyed entries are the ids of the active rules having the key, in rule order |
| LinterDispatch.SelectedTwo | src/linter/linter-service.ts:158-173 | proof helper of `VariableDeclarationOrder`: selecting exactly the positions `a < b` gives their two ids in that order |
| LinterDispatch.KeyedIdsStep | src/linter/linter-service.ts:158-173 | an active rule having the key adds its id at the end of the keyed ids |
| LinterDispatch.ActiveDistinct | src/linter/linter-service.ts:165-166 | active entries inherit distinct keys from their rules' listeners |
| LinterDispatch.VisitAllThrows | src/linter/linter-service.ts:334-336 | a visit that throws makes the whole traversal throw |
| LinterDispatch.ActiveNoExitThrows | src/rules/no-exit-in-finally.ts:23-30 | with `no-exit-in-finally` active, any tree holding a `finally_clause` node makes the traversal throw |
| LinterDispatch.DefaultConfigThrowsOnFinally | src/linter/linter-service.ts:326-329 | under the default table, linting any tree with a `finally_clause` node throws, because that key's value is an object called as a function |
| LinterServiceModule.CachedIds | src/linter/linter-service.ts:255-257 | the ids of exactly the cached trees |
| LinterServiceModule.CachedId | src/linter/linter-service.ts:247-251 | the id of the file's cached tree, or nothing when none is cached |
| LinterServiceModule.CachedIdsStep | src/linter/linter-service.ts:255-257 | one more cached entry taken adds exactly its tree's id |
| LinterServiceModule.NewTreeUpdate | src/linter/linter-service.ts:204-228 | a new tree cached in place of the file's entry and live in place of its old tree keeps the other entries and holds the new text |
| LinterServiceModule.LintConfig | src/linter/linter-service.ts:145-147 | no or an empty workspace path gives the defaults; a memoised path its stored configuration; a new path the loaded one |
| LinterServiceModule.KeepOutside | src/linter/linter-service.ts:110-114 | exactly the result entries whose key does not start with the workspace path, unchanged |
| LinterServiceModule.DropWorkspaceResults | src/linter/linter-service.ts:110-114 | the deleting loop leaves exactly the entries whose key does not start with the path |
| LinterServiceModule.BuildListeners | src/linter/linter-service.ts:155-173 | the rule loop builds the index of the active entries, each under each of its keys, in rule order |
| LinterServiceModule.AddRuleEntry | src/linter/linter-service.ts:158-173 | one loop turn extends the index by the next rule's entry, or not at all when that rule is `off` |
| LinterServiceModule.PushUnderKeys | src/linter/linter-service.ts:167-172 | creating a missing list and pushing under each key is the model's `AddKeys` |
| LinterServiceModule.TraverseTree | src/linter/linter-service.ts:319-337 | the recursive walk with a shared issue list appends exactly the issues of the pre-order dispatch, and the first throwing handler ends it |
| LinterServiceModule.RunRules | src/linter/linter-service.ts:152-176 | building the listeners and walking the tree into a fresh issue list gives the lint outcome |
| LinterServiceModule.LinterService.constructor | src/linter/linter-service.ts:24-36 | no rules, not initialised, no promise, all three caches empty |
| LinterServiceModule.LinterService.Initialize | src/linter/linter-service.ts:45-67 | an existing promise is returned with nothing changed; otherwise a pending promise is stored and the parser setup is started, or joined when under way |
| LinterServiceModule.LinterService.ResumeInitialize | src/linter/linter-service.ts:56-63 | on a ready parser the rules are loaded and the service is initialised; on failure the promise is dropped so a later call retries |
| LinterServiceModule.LinterService.IsInitialized | src/linter/linter-service.ts:72-74 | true exactly when the rules are loaded |
| LinterServiceModule.LinterService.EnsureInitialized | src/linter/linter-service.ts:79-88 | proceed when initialised; a pending promise means waiting; no promise means the "not initialized" error |
| LinterServiceModule.LinterService.GetConfigForWorkspace | src/linter/linter-service.ts:94-101 | a memoised configuration is returned as is; otherwise the loaded one is memoised and returned; it keeps every default id |
| LinterServiceModule.LinterService.ReloadConfigForWorkspace | src/linter/linter-service.ts:106-115 | the configuration is reloaded and memoised, and only result entries whose key starts with the path are dropped; trees are left alone |
| LinterServiceModule.LinterService.Lint | src/linter/linter-service.ts:126-182 | not initialised: the error and no change; a cached result for the same text: those issues and no change; otherwise, through the corrected tree step, either the parser error with no tree change or the traversal outcome of the text's tree with the cache update, the result cached on success, and the workspace configuration memoised |
| LinterServiceModule.LinterService.LintAfresh | src/linter/linter-service.ts:144-182 | the cache-miss path with the corrected tree step: the configuration is resolved and memoised, the outcome is the traversal under it, the tree cache is updated, and a successful result is cached |
| LinterServiceModule.LinterService.ResolveConfig | src/linter/linter-service.ts:145-147 | the configuration `lint` uses, memoised under a non-empty path |
| LinterServiceModule.LinterService.LintTree | src/linter/linter-service.ts:150-179 | with the corrected tree step: either the parser error and no tree change, or the traversal outcome and the tree update; a successful result is cached for the text |
| LinterServiceModule.LinterService.GetCachedResults | src/linter/linter-service.ts:235-237 | the stored issues of the file exactly when a result is cached for it |
| LinterServiceModule.LinterService.ClearCache | src/linter/linter-service.ts:243-260 | with a name: that file's result and tree go and only its tree is deleted; without one: both caches are emptied and exactly the cached trees are deleted |
| LinterServiceModule.LinterService.DeleteCachedTrees | src/linter/linter-service.ts:255-257 | the loop deletes every cached tree once and no other |
| LinterServiceModule.LinterService.Cleanup | src/linter/linter-service.ts:266-269 | both caches and the configuration cache are emptied, and no tree the service obtained stays live |
| LinterServiceModule.LinterService.StoreTree | src/linter/linter-service.ts:207-212 | the new tree is cached for the file and the tree it supersedes, if any, is deleted |
| LinterServiceModule.LinterService.ReparseIncremental | src/linter/linter-service.ts:204-213 | the cached tree is edited, a new tree of the text replaces it in the cache and among the live trees; a parser failure changes nothing |
| LinterServiceModule.LinterService.ReparseFull | src/linter/linter-service.ts:214-228 | corrected order: parse first; a new tree of the text replaces the cached one, which is deleted; a parser failure changes nothing |
| LinterServiceModule.LinterService.GetOrCreateTree | src/linter/linter-service.ts:189-229 | unchanged content reuses the cached tree and changes nothing; a newer version with an edit is parsed incrementally; otherwise a full parse; exactly one new live tree replaces the superseded one; with the parse before the delete, a failure leaves every cache and tree as it was |
| LinterServiceModule.LinterService.GetOrCreateTreeAsWritten | src/linter/linter-service.ts:214-221 | the code as written: when the full parse throws, the cache keeps a tree already deleted, and the tree-cache invariant is broken |
| LinterServiceModule.ReadyScenario | src/linter/linter-service.ts:45-67 | initialising over a parser that becomes ready gives an initialised service with an empty tree cache |
| LinterServiceModule.CachedTreeScenario | src/linter/linter-service.ts:220-226 | a first parse caches the file's tree with its text and version |
| LinterServiceModule.StaleTreeScenario | src/linter/linter-service.ts:214-221 | as written, a failed reparse after `resetParser` leaves a deleted tree in the cache |
| LinterServiceModule.KeptTreeScenario | src/linter/linter-service.ts:214-221 | in the corrected order the same steps keep the cached tree live and every invariant |
| PascalParser.ParserGateway.EditsOf | src/parser/pascal-parser.ts:73 | the edits applied to a tree so far, none for a tree never edited |
| PascalParser.ParserGateway.CurrentPhase | src/parser/pascal-parser.ts:5-7 | the phase is determined by the three variables: no promise, pending without or with a parser, or settled |
| PascalParser.ParserGateway.constructor | src/parser/pascal-parser.ts:5-7 | all three variables null, no live tree |
| PascalParser.ParserGateway.ParserImpliesPromise | src/parser/pascal-parser.ts:20-22 | a set parser always comes with a promise, so the early return for a set parser is only reached through the promise check |
| PascalParser.ParserGateway.InitializeParser | src/parser/pascal-parser.ts:14-48 | an existing promise is returned with nothing changed; otherwise a pending setup is started, waiting for the runtime |
| PascalParser.ParserGateway.ResetOnFailure | src/parser/pascal-parser.ts:38-43 | any setup failure sets all three variables back to null |
| PascalParser.ParserGateway.ResumeAfterRuntime | src/parser/pascal-parser.ts:26-34 | the setup goes on exactly when the runtime initialised and the grammar file exists, with `parser` now set; otherwise everything is reset |
| PascalParser.ParserGateway.ResumeAfterGrammar | src/parser/pascal-parser.ts:36-44 | a loaded grammar makes the gateway ready; a failed load resets everything |
| PascalParser.ParserGateway.IsInitialized | src/parser/pascal-parser.ts:80-82 | true exactly when `parser` is set, which already holds while the grammar is loading |
| PascalParser.ParserGateway.Parse | src/parser/pascal-parser.ts:54-59 | without a parser it fails and changes nothing; otherwise one new live tree of the text |
| PascalParser.ParserGateway.NewTree | src/parser/pascal-parser.ts:58 | a tree of the text with a fresh id, now live |
| PascalParser.ParserGateway.ParseIncremental | src/parser/pascal-parser.ts:65-75 | without a parser it fails and changes nothing; otherwise the edit is recorded on the previous tree, which stays live, and a new live tree of the text is returned |
| PascalParser.ParserGateway.DeleteTree | src/linter/linter-service.ts:207 | a live tree is released, and only that one |
| PascalParser.ParserGateway.Cleanup | src/parser/pascal-parser.ts:95-103 | with `parser` set all three are reset; without it nothing changes, so a setup waiting for the runtime stays pending |
| PascalParser.ParserGateway.ResetParser | src/parser/pascal-parser.ts:109-113 | all three variables reset, whatever the phase |
| PascalParser.SetupScenario | src/parser/pascal-parser.ts:14-48 | a setup whose runtime and grammar both load leaves a ready gateway that reports initialised |
| CliFixes.FixesOf | src/cli/index.ts:187 | the fixes of exactly the issues that carry one, no more fixes than issues |
| CliFixes.Insert | src/cli/index.ts:194-196 | one more fix, with the same fixes otherwise (as a multiset) |
| CliFixes.SortDescending | src/cli/index.ts:194-196 | the sort keeps the number of fixes |
| CliFixes.InsertDescending | src/cli/index.ts:194-196 | inserting into a descending list keeps it descending |
| CliFixes.SortDescendingPermutes | src/cli/index.ts:194-196 | the sort only reorders the fixes |
| CliFixes.SortDescendingSorts | src/cli/index.ts:194-196 | the sorted fixes are by descending start, a missing start counting as 0 |
| CliFixes.InsertWithStart | src/cli/index.ts:194-196 | inserting keeps the order among fixes of one start, the new one first |
| CliFixes.SortDescendingStable | src/cli/index.ts:194-196 | fixes with the same start keep their input order (the sort is stable) |
| CliFixes.ApplyFixes | src/cli/index.ts:183-211 | the result is the splice of the sorted fixes one after the other, each `result[..start] + text + result[end..]` with clamping and an end defaulting to the start; the count is the number of issues carrying a fix; with none, the text and 0 |
| CliFixes.SpliceAllAppend | src/cli/index.ts:201-208 | splicing spans inside a prefix leaves what follows it alone |
| CliFixes.SpliceAllReplaces | src/cli/index.ts:201-208 | for in-range spans ordered from the end backwards, the loop replaces each span of the original text |
| CliFixes.InsertFrontSeparated | src/cli/index.ts:194-196 | a span apart from the others and starting after them can go in front |
| CliFixes.InsertEndsBefore | src/cli/index.ts:194-196 | inserting keeps every span ending before a given start |
| CliFixes.InsertSeparated | src/cli/index.ts:194-196 | inserting a span apart from sorted, separated spans keeps them separated |
| CliFixes.SeparatedCons | src/cli/index.ts:194-196 | a span after which all others end stays separated in front |
| CliFixes.SortedDisjointIsSeparated | src/cli/index.ts:194-196 | in-range, pairwise apart spans at distinct starts are, once sorted, ordered from the end of the text backwards without overlap |
| CliFixes.ApplyFixesReplaces | src/cli/index.ts:183-211 | for in-range, pairwise apart fixes at distinct starts, `applyFixes` replaces each span of the original text |
| CliFixes.DanglingSemicolonFixExample | src/rules/dangling-semicolon.ts:66-75 | removing [13, 14) from `if x > 0 then; y := 1;` gives `if x > 0 then y := 1;` |
| CliFixes.Quiet | src/cli/index.ts:87-89 | the filter never adds issues |
| CliFixes.QuietKeepsExactlyErrors | src/cli/index.ts:87-89 | an issue survives exactly when it is one of the input issues with severity `error` |
| CliFixes.QuietAppend | src/cli/index.ts:87-89 | filtering a concatenation filters each part, so order is kept |
| CliFixes.QuietKeepsErrors | src/cli/index.ts:87-89 | only errors: nothing is dropped |
| CliFixes.QuietDropsWarnings | src/cli/index.ts:87-89 | no errors: everything is dropped |
| CliFixes.TrimSlashes | src/cli/index.ts:155 | the path without trailing slashes, a prefix of it |
| CliFixes.BaseName | src/cli/index.ts:155 | the last path segment, which holds no slash |
| CliFixes.ExtName | src/cli/index.ts:155 | empty or a dot followed by no further dot or slash |
| CliFixes.PascalFiles | src/cli/index.ts:154-157 | a path is kept exactly when its lower-cased extension is `.pas`, `.dpr`, `.dpk`, `.pp` or `.lpr` |
| CliFixes.BaseNameUnder | src/cli/index.ts:155 | the last segment of a name inside a directory is the name |
| CliFixes.ExtNameOfBase | src/cli/index.ts:155 | a segment `stem + ext` with a non-empty stem has extension `ext` |
| CliFixes.ExtNameOfFile | src/cli/index.ts:155 | a file `stem + ext` in a directory has extension `ext`, whatever dots the stem holds |
| CliFixes.UpperCaseExtensionKept | src/cli/index.ts:155-156 | `X.PAS` is kept: the comparison is on the lower-cased extension |
| CliFixes.LowerPas | src/cli/index.ts:155-156 | `.PAS` lower-cased is `.pas` |
| CliFixes.BackupFileDropped | src/cli/index.ts:155-156 | `unit.pas.bak` is dropped: only the last extension counts |
| CliFixes.BakIsNotPascal | src/cli/index.ts:156 | `.bak` is not a Pascal extension |
| CliFixes.DotFileDropped | src/cli/index.ts:155-156 | a file named just `.pas` has no extension and is dropped |
| CliFixes.DotFileHasNoExtension | src/cli/index.ts:155 | a segment whose only dot leads it has no extension |
| CliFixes.LeadingDotNoExtension | src/cli/index.ts:155 | a last segment whose last dot is at its start (or absent) gives no extension |
| CliFixes.NoDotAfterFirst | src/cli/index.ts:155 | a text with no dot after its first character has its last dot at most at 0 |
| CliFixes.NoExtensionNotPascal | src/cli/index.ts:156 | no extension is never a Pascal extension |
| CliFormatters.Tag | src/cli/formatters.ts:101-102 | one file's issues each paired with the file, in order |
| CliFormatters.FlatLength | src/cli/formatters.ts:101-109 | the nested loops visit every issue of the run once |
| CliFormatters.SeverityWord | src/cli/formatters.ts:105 | `error` exactly for errors, `warning` for every other severity |
| CliFormatters.UnixTail | src/cli/formatters.ts:107 | what follows the position starts with `:` |
| CliFormatters.UnixLines | src/cli/formatters.ts:101-109 | one line per issue, file by file, in loop order |
| CliFormatters.FormatUnix | src/cli/formatters.ts:98-112 | the output is the unix lines of all issues, in loop order, joined with line feeds |
| CliFormatters.UnixLineReadsBack | src/cli/formatters.ts:103-107 | the numbers after `file:` read back as the 1-based line and column of the issue |
| CliFormatters.UnixJsonAgree | src/cli/formatters.ts:77-78 | the k-th unix line reads back as the line and column of the k-th JSON record |
| CliFormatters.Colors | src/cli/formatters.ts:5-12 | with colour every code is an escape sequence; without, all are empty (line 21) |
| CliFormatters.StylishLines | src/cli/formatters.ts:31-47 | one line per issue of the file |
| CliFormatters.StylishLinesAre | src/cli/formatters.ts:31-43 | the k-th line of a file's block is the stylish line of its k-th issue |
| CliFormatters.CountsAddUp | src/cli/formatters.ts:45-46 | every issue is counted once, as an error or as a warning |
| CliFormatters.StylishFile | src/cli/formatters.ts:31-47 | the inner loop pushes a line per issue and carries the error and warning counts over them |
| CliFormatters.FormatStylish | src/cli/formatters.ts:17-62 | the output is a header per file, a line per issue, then the summary of the counts, joined with line feeds |
| CliFormatters.PlainSummary | src/cli/formatters.ts:51-59 | without colour the summary is the plain problem line, or `No problems found` with no issues |
| CliFormatters.SummaryCounts | src/cli/formatters.ts:51-59 | the summary reports the number of issues of the run when there are any, `No problems found` otherwise |
| CliFormatters.JsonOf | src/cli/formatters.ts:72-88 | the record has a fix exactly when the issue has one |
| CliFormatters.JsonRecords | src/cli/formatters.ts:70-90 | one record per issue, in loop order |
| CliFormatters.FormatJson | src/cli/formatters.ts:67-93 | the pushed records are the JSON records of all issues, in loop order |
| CliFormatters.SonarSeverity | src/cli/formatters.ts:125-138 | `MAJOR` exactly for errors, `MINOR` exactly for warnings, `INFO` for info and anything else |
| CliFormatters.SonarRecords | src/cli/formatters.ts:123-157 | one record per issue, in loop order |
| CliFormatters.FormatSonar | src/cli/formatters.ts:118-160 | the pushed records are the SonarQube records of all issues, in loop order |
| CliFormatters.JsonSonarAgree | src/cli/formatters.ts:73-80 | the JSON and SonarQube records list the same issues in the same order; lines agree, SonarQube columns are one less, `MAJOR` exactly for `error` |

## Left out

- Editor glue (`src/extension.ts`, `src/providers/code-action-provider.ts`), the debug scripts, `initConfig`, `findWorkspaceRoot`, the file reading and writing in the command-line `run`, and `process.exit`: these are I/O around the core.
- `formatOutput` (`src/cli/index.ts:216-232`): it only picks one of the four formatters by name and serialises the result. The formatters themselves are modelled.
- The `adaptNode` memoisation (`src/linter/linter-service.ts:343-379`) is a cache keyed on object identity that does not change any result. Nodes are passed as values.
- web-tree-sitter internals: `PascalParser.ParserGateway.grammar` is an abstract function from text to tree. An incremental parse yields the tree of the new text. `Tree.delete()` removes the tree from the gateway's set of allocated trees.
- Promise sharing and asynchrony: `initialize` and `initializeParser` are split into a start method and resume methods. Racing callers are not modelled.
- LinterServiceModule.LinterService.Lint: when initialisation is still pending, the source awaits `initPromise` and then lints, or rethrows the initialisation error (`src/linter/linter-service.ts:83-85`). The model returns `Failure(InitializationPending)` instead, and `ResumeInitialize` stands for the awaited continuation.
- PascalParser.ParserGateway.Valid: this invariant excludes the state "parser set, `initPromise` null". The source reaches that state when `resetParser` or `cleanup` runs while the setup of `initializeParser` is still pending (`src/parser/pascal-parser.ts:24-45`, `95-113`), because the pending continuation then assigns `parser` again.
- PascalParser.ParserGateway.Parse: the parse succeeds whenever a parser exists, including the window in which the language is not yet loaded. Through the service that window can only be reached by the race described above.
- Text: `toLowerCase`, `toUpperCase`, `trim`, `trimEnd`, `\s` and `\w` are modelled for ASCII only. Offsets and columns count Dafny characters, not UTF-16 code units.
- ConfigLoader: JSON parsing is not modelled. A file that fails to parse is the file state `Malformed`. Rule values other than a severity or a `[severity, options]` pair are not modelled.
- ConfigLoader.LoadConfigForWorkspace: `console.warn` for a malformed file is returned as the list of warned paths.
- CliFormatters: `JSON.stringify` is left out, and the JSON and SonarQube formatters return their record lists. `path.relative(process.cwd(), file)` is the function parameter `relative`. A `Map` iterated in insertion order is a sequence of (file, issues) pairs.
- CliFixes.PascalFiles: the `glob` walk and the `existsSync` test of `findFiles` are left out, and the filter applies to a given list of paths. `path.extname` is modelled for POSIX separators only.
- CliFixes.ApplyFixesReplaces: the statement that every fix replaces its span of the original text requires in-range, pairwise disjoint spans at distinct starts. The source checks neither (`src/cli/index.ts:194-208`), and JavaScript `substring` clamps silently. `CliFixes.ApplyFixes` itself is defined for all inputs, with the clamping written out.
- ConfigLoader.RuleSetting: the options of a `[severity, options]` setting are a map from string to string rather than an arbitrary JSON value. Nothing in the core reads them.

## Findings

| source | as written | input that shows it | evidently intended | confidence | as-written member | corrected member |
|---|---|---|---|---|---|---|
| src/linter/linter-service.ts:214-221 | on the full-parse path, the cached tree is deleted (line 216) before `parse` (line 221), and `parse` can throw; the entry then still holds the deleted tree, which a later `clearCache` or `cleanup` deletes a second time | lint `a.pas` once, call `resetParser()` (or the parser's `cleanup()`), then lint `a.pas` with new content and no edit | parse first and delete the superseded tree only after the new one exists, so that a failed parse leaves the cache as it was | not executed | LinterServiceModule.LinterService.GetOrCreateTreeAsWritten, LinterServiceModule.StaleTreeScenario | LinterServiceModule.LinterService.GetOrCreateTree, LinterServiceModule.KeptTreeScenario |
