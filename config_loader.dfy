/** Loading the per-workspace rule configuration: a fixed default table,
    overlaid by the `rules` object of the first usable configuration file. */
module ConfigLoader {
  import opened Wrappers
  import opened Text
  import opened Types

  /** A configured rule value: a severity, or `[severity, options]`. */
  datatype RuleSetting =
    | Level(level: Severity)
    | LevelWithOptions(level: Severity, options: map<string, string>)

  type RuleConfig = map<string, RuleSetting>

  /** What a candidate file holds: nothing, something that cannot be read or
      parsed as a configuration object, or a parsed object and its `rules`. */
  datatype FileState = Absent | Malformed | Parsed(rules: Option<RuleConfig>)

  /** The file system, seen as (directory, file name) pairs; a missing pair is absent. */
  type FileSystem = map<(string, string), FileState>

  function FileAt(fs: FileSystem, dir: string, name: string): FileState {
    if (dir, name) in fs then fs[(dir, name)] else Absent
  }

  const ConfigFilenames: seq<string> := [".PascalLint.json", ".pascallintrc", ".pascallintrc.json"]

  const DefaultRuleIds: set<string> := {
    "no-with", "no-semicolon-before-else", "dangling-semicolon", "no-empty-finally",
    "unreachable-code", "constructor-call-on-instance", "no-exit-in-finally",
    "empty-begin-end", "use-free-and-nil", "check-assigned", "pascal-case",
    "one-var-per-line", "camel-case", "upper-case-keywords" }

  /** The default severity of each id of the default table. */
  function DefaultLevel(id: string): Severity {
    if id == "no-with" then Error
    else if id == "no-semicolon-before-else" then Error
    else if id == "dangling-semicolon" then Error
    else if id == "no-empty-finally" then Warn
    else if id == "unreachable-code" then Error
    else if id == "constructor-call-on-instance" then Error
    else if id == "no-exit-in-finally" then Error
    else if id == "empty-begin-end" then Warn
    else if id == "use-free-and-nil" then Warn
    else if id == "check-assigned" then Info
    else if id == "pascal-case" then Warn
    else if id == "one-var-per-line" then Info
    else Off // camel-case, upper-case-keywords
  }

  /** `getDefaultRules`: the fourteen rule ids and their default severities. */
  function GetDefaultRules(): (d: RuleConfig)
    ensures d.Keys == DefaultRuleIds
    ensures forall k :: k in d ==> d[k].Level?
    ensures d["no-with"] == Level(Error) && d["no-semicolon-before-else"] == Level(Error)
    ensures d["empty-begin-end"] == Level(Warn)
    ensures d["camel-case"] == Level(Off) && d["upper-case-keywords"] == Level(Off)
  {
    map id | id in DefaultRuleIds :: Level(DefaultLevel(id))
  }

  /** `{ ...defaults, ...userRules }`: every default key stays, and the user
      value wins on a shared key. */
  function MergeWithDefaults(userRules: RuleConfig): (r: RuleConfig)
    ensures r.Keys == DefaultRuleIds + userRules.Keys
    ensures forall k :: k in userRules ==> r[k] == userRules[k]
    ensures forall k :: k in GetDefaultRules() && k !in userRules ==> r[k] == GetDefaultRules()[k]
  {
    GetDefaultRules() + userRules
  }

  /** A parsed file without `rules` (or with an empty one) gives the defaults unchanged. */
  lemma MergeEmptyIsDefaults()
    ensures MergeWithDefaults(map[]) == GetDefaultRules()
  {
  }

  /** The index of the first candidate that exists and parses. */
  function FirstUsable(fs: FileSystem, dir: string, names: seq<string>, from: nat): (r: Option<nat>)
    requires from <= |names|
    ensures r.Some? ==> from <= r.value < |names| && FileAt(fs, dir, names[r.value]).Parsed?
    ensures r.Some? ==> forall j :: from <= j < r.value ==> !FileAt(fs, dir, names[j]).Parsed?
    ensures r.None? ==> forall j :: from <= j < |names| ==> !FileAt(fs, dir, names[j]).Parsed?
    decreases |names| - from
  {
    if from == |names| then None
    else if FileAt(fs, dir, names[from]).Parsed? then Some(from)
    else FirstUsable(fs, dir, names, from + 1)
  }

  /** The configuration the search settles on: the first usable candidate's
      `rules` (or `{}`) over the defaults, else the defaults. */
  function WorkspaceConfig(fs: FileSystem, dir: string): RuleConfig {
    match FirstUsable(fs, dir, ConfigFilenames, 0)
    case None => GetDefaultRules()
    case Some(i) => MergeWithDefaults(FileAt(fs, dir, ConfigFilenames[i]).rules.GetOr(map[]))
  }

  /** The malformed candidates among the first `upto` names: each one is warned about. */
  function MalformedAmong(fs: FileSystem, dir: string, upto: nat): (r: seq<string>)
    requires upto <= |ConfigFilenames|
    ensures |r| <= upto
    ensures forall x :: x in r ==> exists j :: 0 <= j < upto && ConfigFilenames[j] == x && FileAt(fs, dir, x).Malformed?
  {
    if upto == 0 then []
    else
      var name := ConfigFilenames[upto - 1];
      MalformedAmong(fs, dir, upto - 1) + (if FileAt(fs, dir, name).Malformed? then [name] else [])
  }

  /** The candidates warned about before the search stops. */
  function Warnings(fs: FileSystem, dir: string): seq<string> {
    match FirstUsable(fs, dir, ConfigFilenames, 0)
    case None => MalformedAmong(fs, dir, |ConfigFilenames|)
    case Some(i) => MalformedAmong(fs, dir, i)
  }

  /** `loadConfigForWorkspace`: the loop over the candidate names with its
      early return; `warned` lists the candidates the loop warns about. */
  method LoadConfigForWorkspace(fs: FileSystem, workspacePath: string) returns (config: RuleConfig, warned: seq<string>)
    ensures config == WorkspaceConfig(fs, workspacePath)
    ensures warned == Warnings(fs, workspacePath)
  {
    warned := [];
    var i := 0;
    while i < |ConfigFilenames|
      invariant 0 <= i <= |ConfigFilenames|
      invariant FirstUsable(fs, workspacePath, ConfigFilenames, 0) == FirstUsable(fs, workspacePath, ConfigFilenames, i)
      invariant warned == MalformedAmong(fs, workspacePath, i)
      decreases |ConfigFilenames| - i
    {
      var filename := ConfigFilenames[i];
      match FileAt(fs, workspacePath, filename) {
        case Absent =>
        case Malformed =>
          warned := warned + [filename];
        case Parsed(rules) =>
          config := MergeWithDefaults(rules.GetOr(map[]));
          return;
      }
      i := i + 1;
    }
    config := GetDefaultRules();
  }

  /** `loadConfig`: without a (non-empty) base path, the defaults. */
  method LoadConfig(fs: FileSystem, basePath: Option<string>) returns (config: RuleConfig)
    ensures basePath.None? || basePath.value == "" ==> config == GetDefaultRules()
    ensures basePath.Some? && basePath.value != "" ==> config == WorkspaceConfig(fs, basePath.value)
  {
    if basePath.Some? && basePath.value != "" {
      var warned;
      config, warned := LoadConfigForWorkspace(fs, basePath.value);
    } else {
      config := GetDefaultRules();
    }
  }

  /** Whatever the files hold, every default key is configured. */
  lemma ConfigKeepsDefaultKeys(fs: FileSystem, dir: string)
    ensures DefaultRuleIds <= WorkspaceConfig(fs, dir).Keys
  {
  }

  /** With no usable candidate the configuration is exactly the defaults,
      and every malformed candidate is warned about. */
  lemma NoUsableCandidate(fs: FileSystem, dir: string)
    requires forall j :: 0 <= j < |ConfigFilenames| ==> !FileAt(fs, dir, ConfigFilenames[j]).Parsed?
    ensures WorkspaceConfig(fs, dir) == GetDefaultRules()
    ensures Warnings(fs, dir) == MalformedAmong(fs, dir, 3)
  {
    var r := FirstUsable(fs, dir, ConfigFilenames, 0);
    if r.Some? {
      assert FileAt(fs, dir, ConfigFilenames[r.value]).Parsed?;
    }
  }

  /** A malformed `.PascalLint.json` is skipped: a parsed `.pascallintrc`
      then decides the configuration, and only the first file is warned about. */
  lemma MalformedFirstCandidateSkipped(fs: FileSystem, dir: string, rules: RuleConfig)
    requires FileAt(fs, dir, ".PascalLint.json") == Malformed
    requires FileAt(fs, dir, ".pascallintrc") == Parsed(Some(rules))
    ensures WorkspaceConfig(fs, dir) == MergeWithDefaults(rules)
    ensures Warnings(fs, dir) == [".PascalLint.json"]
  {
    assert FirstUsable(fs, dir, ConfigFilenames, 1) == Some(1);
    assert FirstUsable(fs, dir, ConfigFilenames, 0) == Some(1);
    assert MalformedAmong(fs, dir, 0) == [];
  }

  /** The earlier name wins: when `.PascalLint.json` parses, later files are not read. */
  lemma FirstCandidateWins(fs: FileSystem, dir: string, rules: Option<RuleConfig>)
    requires FileAt(fs, dir, ".PascalLint.json") == Parsed(rules)
    ensures WorkspaceConfig(fs, dir) == MergeWithDefaults(rules.GetOr(map[]))
    ensures Warnings(fs, dir) == []
  {
  }

  /** `{ 'no-with': 'off', 'custom-rule': 'error' }` over the defaults turns
      `no-with` off, adds `custom-rule`, and keeps `empty-begin-end` at warn. */
  lemma MergeExample()
    ensures var r := MergeWithDefaults(map["no-with" := Level(Off), "custom-rule" := Level(Error)]);
            r["no-with"] == Level(Off) && r["custom-rule"] == Level(Error)
            && r["empty-begin-end"] == Level(Warn) && r.Keys == DefaultRuleIds + {"custom-rule"}
  {
    var u := map["no-with" := Level(Off), "custom-rule" := Level(Error)];
    var r := MergeWithDefaults(u);
  }
}
