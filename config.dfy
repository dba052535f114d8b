/** The configuration (internal/config/config.go): its defaults, the rule and
 *  exclusion lookups, and where policies come from. The filesystem is given as
 *  a value (what `os.ReadDir` and `os.ReadFile` would return), glob matching as
 *  a parameter, and remote policies through `Remote`. */
module Config {
  import opened Wrappers
  import opened Text
  import opened Seqs
  import opened Remote

  datatype PoliciesConfig = PoliciesConfig(directory: string, files: seq<string>, remote: seq<RemotePolicy>)
  datatype RulesConfig = RulesConfig(disabled: seq<string>, severity: map<string, string>)
  datatype OutputConfig = OutputConfig(format: string, verbose: bool)
  datatype PerformanceConfig = PerformanceConfig(cachePolicies: bool, parallelism: int, timeout: string)

  datatype Config = Config(
    policies: PoliciesConfig,
    rules: RulesConfig,
    includes: seq<string>,
    excludes: seq<string>,
    output: OutputConfig,
    performance: PerformanceConfig)

  const DefaultPolicyDirectory := ".regolint/policies"

  /** `Default`. */
  function Default(): Config
  {
    Config(
      PoliciesConfig(DefaultPolicyDirectory, [], []),
      RulesConfig([], map[]),
      ["**/*.go"],
      ["**/*_test.go", "**/vendor/**", "**/testdata/**"],
      OutputConfig("text", false),
      PerformanceConfig(true, 4, "30s"))
  }

  /** `IsRuleDisabled`. */
  predicate IsRuleDisabled(c: Config, ruleID: string)
  {
    ruleID in c.rules.disabled
  }

  /** `GetSeverity`. */
  function GetSeverity(c: Config, ruleID: string, defaultSeverity: string): string
  {
    if ruleID in c.rules.severity then c.rules.severity[ruleID] else defaultSeverity
  }

  /** The defaults: policies from ".regolint/policies", every Go file included,
   *  test files, vendored and test-data trees excluded, text output, no remote
   *  policies, no rule disabled and every rule at its own severity. */
  lemma DefaultFacts(ruleID: string, severity: string)
    ensures Default().policies.directory == ".regolint/policies" && Default().policies.remote == []
    ensures Default().includes == ["**/*.go"] && |Default().excludes| == 3 && "**/*_test.go" in Default().excludes
    ensures Default().output.format == "text" && Default().performance == PerformanceConfig(true, 4, "30s")
    ensures !IsRuleDisabled(Default(), ruleID) && GetSeverity(Default(), ruleID, severity) == severity
  {
  }

  /** Disabling a rule and overriding a severity affect that rule alone. */
  lemma RuleSettingsFacts(c: Config, ruleID: string, other: string, sev: string, d: string)
    requires other != ruleID
    ensures var c' := c.(rules := RulesConfig(c.rules.disabled + [ruleID], c.rules.severity));
      IsRuleDisabled(c', ruleID) && (IsRuleDisabled(c', other) <==> IsRuleDisabled(c, other))
    ensures var c' := c.(rules := c.rules.(severity := c.rules.severity[ruleID := sev]));
      GetSeverity(c', ruleID, d) == sev && GetSeverity(c', other, d) == GetSeverity(c, other, d)
  {
  }

  // ---------------------------------------------------------------------------
  // ShouldSkip

  /** Some exclude pattern matches the path; `glob(pattern, path)` is
   *  `doublestar.Match`, and a pattern error counts as no match. */
  predicate Excluded(exclude: seq<string>, filePath: string, glob: (string, string) -> Result<bool>)
  {
    exists k :: 0 <= k < |exclude| && glob(exclude[k], filePath) == Success(true)
  }

  /** `ShouldSkip`. */
  method ShouldSkip(c: Config, filePath: string, glob: (string, string) -> Result<bool>) returns (skip: bool)
    ensures skip == Excluded(c.excludes, filePath, glob)
  {
    var i := 0;
    while i < |c.excludes|
      invariant 0 <= i <= |c.excludes|
      invariant forall k :: 0 <= k < i ==> glob(c.excludes[k], filePath) != Success(true)
    {
      var matched := glob(c.excludes[i], filePath);
      if matched.Success? && matched.value {
        return true;
      }
      i := i + 1;
    }
    return false;
  }

  /** No exclude pattern skips nothing; a pattern that matches skips whatever
   *  the others say, and one that fails to parse never does. */
  lemma ExcludedFacts(exclude: seq<string>, p: string, filePath: string, glob: (string, string) -> Result<bool>)
    ensures !Excluded([], filePath, glob)
    ensures glob(p, filePath) == Success(true) ==> Excluded(exclude + [p], filePath, glob)
    ensures glob(p, filePath).Failure? ==> (Excluded(exclude + [p], filePath, glob) <==> Excluded(exclude, filePath, glob))
  {
    var e := exclude + [p];
    assert e[|exclude|] == p;
    assert forall k :: 0 <= k < |exclude| ==> e[k] == exclude[k];
  }

  // ---------------------------------------------------------------------------
  // loadPoliciesFromDir

  /** A directory as `os.ReadDir` finds it: missing, unreadable, or its entries
   *  in order. A file carries what `os.ReadFile` returns for it. */
  datatype Listing = Missing | Unreadable(error: string) | Entries(entries: seq<Entry>)
  datatype Entry = FileEntry(name: string, content: Result<string>) | DirEntry(name: string, listing: Listing)

  /** `filepath.Join` of a directory and an entry name. */
  function JoinPath(dir: string, name: string): string
  {
    dir + "/" + name
  }

  /** The files `loadPoliciesFromDir` loads: extension ".rego", but not a
   *  "_test.rego" file. */
  predicate IsPolicyFile(name: string)
  {
    Ext(name) == ".rego" && !HasSuffix(name, "_test.rego")
  }

  /** What `loadPoliciesFromDir(dir, policies)` leaves: a missing directory adds
   *  nothing, an unreadable one fails, and otherwise the entries are visited in
   *  order. */
  function LoadDir(dir: string, l: Listing, policies: map<string, string>): Result<map<string, string>>
    decreases l, 1
  {
    match l
    case Missing => Success(policies)
    case Unreadable(e) => Failure("reading policy directory: " + e)
    case Entries(es) => LoadEntries(dir, es, policies, l)
  }

  /** The entries from the first on (`parent` only bounds the recursion): a
   *  subdirectory is loaded in place, a policy file read and stored under its
   *  joined path, and any other file skipped; the first failure stops the
   *  walk. */
  function LoadEntries(dir: string, es: seq<Entry>, policies: map<string, string>, ghost parent: Listing): Result<map<string, string>>
    requires forall k :: 0 <= k < |es| ==> es[k] < parent
    decreases parent, 0, |es|
  {
    if es == [] then Success(policies)
    else
      var e := es[0];
      var path := JoinPath(dir, e.name);
      var r :=
        if e.DirEntry? then LoadDir(path, e.listing, policies)
        else if !IsPolicyFile(e.name) then Success(policies)
        else if e.content.Failure? then Failure("reading policy " + path + ": " + e.content.error)
        else Success(policies[path := e.content.value]);
      if r.Failure? then r else LoadEntries(dir, es[1..], r.value, parent)
  }

  /** `loadPoliciesFromDir`, filling `policies` as the recursive Go function
   *  fills its map argument. */
  method LoadPoliciesFromDir(dir: string, l: Listing, policies: map<string, string>) returns (r: Result<map<string, string>>)
    ensures r == LoadDir(dir, l, policies)
    decreases l, 1
  {
    match l
    case Missing =>
      return Success(policies);
    case Unreadable(e) =>
      return Failure("reading policy directory: " + e);
    case Entries(es) =>
      r := LoadEntriesFrom(dir, es, policies, l);
  }

  /** The entry loop of `loadPoliciesFromDir`. */
  method LoadEntriesFrom(dir: string, es: seq<Entry>, policies: map<string, string>, ghost parent: Listing)
    returns (r: Result<map<string, string>>)
    requires forall k :: 0 <= k < |es| ==> es[k] < parent
    ensures r == LoadEntries(dir, es, policies, parent)
    decreases parent, 0
  {
    var acc := policies;
    var i := 0;
    while i < |es|
      invariant 0 <= i <= |es|
      invariant LoadEntries(dir, es, policies, parent) == LoadEntries(dir, es[i..], acc, parent)
    {
      var e := es[i];
      var path := JoinPath(dir, e.name);
      assert es[i..][0] == e && es[i..][1..] == es[i + 1..];
      if e.DirEntry? {
        var sub := LoadPoliciesFromDir(path, e.listing, acc);
        if sub.Failure? {
          return sub;
        }
        acc := sub.value;
      } else if IsPolicyFile(e.name) {
        if e.content.Failure? {
          return Failure("reading policy " + path + ": " + e.content.error);
        }
        acc := acc[path := e.content.value];
      }
      i := i + 1;
    }
    return Success(acc);
  }

  /** The paths of the policy files of a directory tree, subdirectories loaded
   *  in place (`parent` only bounds the recursion). */
  ghost predicate InTree(dir: string, l: Listing, path: string)
    decreases l, 1
  {
    l.Entries? && InEntries(dir, l.entries, path, l)
  }

  ghost predicate InEntries(dir: string, es: seq<Entry>, path: string, parent: Listing)
    requires forall k :: 0 <= k < |es| ==> es[k] < parent
    decreases parent, 0, |es|
  {
    es != [] &&
    ((es[0].FileEntry? && IsPolicyFile(es[0].name) && path == JoinPath(dir, es[0].name))
     || (es[0].DirEntry? && InTree(JoinPath(dir, es[0].name), es[0].listing, path))
     || InEntries(dir, es[1..], path, parent))
  }

  /** A successful load keeps what was there and adds exactly the policy files
   *  of the tree: every key it adds is the joined path of a ".rego" file that
   *  is not a "_test.rego" file, and every such file is added. */
  lemma {:induction false} LoadDirKeys(dir: string, l: Listing, policies: map<string, string>, path: string)
    requires LoadDir(dir, l, policies).Success?
    ensures path in LoadDir(dir, l, policies).value <==> path in policies || InTree(dir, l, path)
    decreases l, 1
  {
    if l.Entries? {
      LoadEntriesKeys(dir, l.entries, policies, l, path);
    }
  }

  lemma {:induction false} LoadEntriesKeys(dir: string, es: seq<Entry>, policies: map<string, string>, parent: Listing, path: string)
    requires forall k :: 0 <= k < |es| ==> es[k] < parent
    requires LoadEntries(dir, es, policies, parent).Success?
    ensures path in LoadEntries(dir, es, policies, parent).value <==> path in policies || InEntries(dir, es, path, parent)
    decreases parent, 0, |es|
  {
    if es != [] {
      var e := es[0];
      var p := JoinPath(dir, e.name);
      var r :=
        if e.DirEntry? then LoadDir(p, e.listing, policies)
        else if !IsPolicyFile(e.name) then Success(policies)
        else if e.content.Failure? then Failure("reading policy " + p + ": " + e.content.error)
        else Success(policies[p := e.content.value]);
      assert r.Success?;
      if e.DirEntry? {
        LoadDirKeys(p, e.listing, policies, path);
      }
      LoadEntriesKeys(dir, es[1..], r.value, parent, path);
    }
  }

  /** A missing directory is no policies, not an error; every key of a
   *  successful load that was not there before names a policy file. */
  lemma LoadDirFacts(dir: string, l: Listing, policies: map<string, string>, path: string)
    ensures LoadDir(dir, Missing, policies) == Success(policies)
    ensures LoadDir(dir, l, policies).Success? && path in LoadDir(dir, l, policies).value && path !in policies
      ==> exists d, name :: path == JoinPath(d, name) && IsPolicyFile(name)
  {
    if LoadDir(dir, l, policies).Success? && path in LoadDir(dir, l, policies).value && path !in policies {
      LoadDirKeys(dir, l, policies, path);
      InTreePolicyFile(dir, l, path);
    }
  }

  lemma {:induction false} InTreePolicyFile(dir: string, l: Listing, path: string)
    requires InTree(dir, l, path)
    ensures exists d, name :: path == JoinPath(d, name) && IsPolicyFile(name)
    decreases l, 1
  {
    InEntriesPolicyFile(dir, l.entries, path, l);
  }

  lemma {:induction false} InEntriesPolicyFile(dir: string, es: seq<Entry>, path: string, parent: Listing)
    requires forall k :: 0 <= k < |es| ==> es[k] < parent
    requires InEntries(dir, es, path, parent)
    ensures exists d, name :: path == JoinPath(d, name) && IsPolicyFile(name)
    decreases parent, 0, |es|
  {
    if es[0].FileEntry? && IsPolicyFile(es[0].name) && path == JoinPath(dir, es[0].name) {
    } else if es[0].DirEntry? && InTree(JoinPath(dir, es[0].name), es[0].listing, path) {
      InTreePolicyFile(JoinPath(dir, es[0].name), es[0].listing, path);
    } else {
      InEntriesPolicyFile(dir, es[1..], path, parent);
    }
  }

  /** A file named `stem + ".rego"` is loaded unless the stem ends in "_test";
   *  other extensions are never loaded. */
  lemma PolicyFileNames(stem: string)
    ensures IsPolicyFile(stem + ".rego") <==> !HasSuffix(stem, "_test")
    ensures !IsPolicyFile(stem + "_test.rego")
    ensures !IsPolicyFile(stem + ".go")
  {
    ExtRego(stem);
    ExtRego(stem + "_test");
    var p := stem + ".rego";
    assert HasSuffix(p, "_test.rego") <==> HasSuffix(stem, "_test") by {
      if |stem| >= 5 {
        assert p[|p| - 10..] == stem[|stem| - 5..] + ".rego";
      }
    }
    var t := stem + "_test.rego";
    assert t == (stem + "_test") + ".rego";
    assert t[|t| - 10..] == "_test.rego";
    var g := stem + ".go";
    assert g[..|g| - 1] == stem + ".g" && (stem + ".g")[..|g| - 2] == stem + ".";
    assert Ext(stem + ".") == ".";
    assert Ext(stem + ".g") == ".g";
    assert Ext(g) == ".go";
  }

  lemma ExtRego(stem: string)
    ensures Ext(stem + ".rego") == ".rego"
  {
    var p := stem + ".rego";
    assert p[..|p| - 1] == stem + ".reg";
    assert (stem + ".reg")[..|p| - 2] == stem + ".re";
    assert (stem + ".re")[..|p| - 3] == stem + ".r";
    assert (stem + ".r")[..|p| - 4] == stem + ".";
    assert Ext(stem + ".") == ".";
    assert Ext(stem + ".r") == ".r";
    assert Ext(stem + ".re") == ".re";
    assert Ext(stem + ".reg") == ".reg";
  }

  // ---------------------------------------------------------------------------
  // LoadPolicies

  /** The content of an explicitly listed file, read with `os.ReadFile`. */
  function ReadPolicy(readFile: string -> Result<string>): string -> Result<string>
  {
    (file: string) =>
      var content := readFile(file);
      if content.Failure? then Failure("reading policy " + file + ": " + content.error) else content
  }

  function BaseName(file: string): string
  {
    Base(file)
  }

  /** The policies of the configured directory, none when it is not set. */
  function DirPolicies(c: Config, dir: Listing): Result<map<string, string>>
  {
    if c.policies.directory != "" then LoadDir(c.policies.directory, dir, map[]) else Success(map[])
  }

  /** The explicitly listed files, by base name. */
  function FilePolicies(c: Config, readFile: string -> Result<string>): Result<map<string, string>>
  {
    AssignAll(c.policies.files, ReadPolicy(readFile), BaseName)
  }

  /** Three sources merged in order, the first failure winning and a later
   *  source overwriting an earlier one. */
  function Merge(first: Result<map<string, string>>, second: Result<map<string, string>>, third: Result<map<string, string>>)
    : Result<map<string, string>>
  {
    if first.Failure? then Failure(first.error)
    else if second.Failure? then Failure(second.error)
    else if third.Failure? then Failure(third.error)
    else Success(first.value + second.value + third.value)
  }

  /** What `LoadPolicies` returns: the directory's policies, then the listed
   *  files, then the remote policies. `dir` is the configured directory as the
   *  filesystem holds it, `remote` the outcome of `FetchRemotePolicies`. */
  function LoadPoliciesOf(c: Config, dir: Listing, readFile: string -> Result<string>, remote: Result<map<string, string>>)
    : Result<map<string, string>>
  {
    Merge(DirPolicies(c, dir), FilePolicies(c, readFile), remote)
  }

  /** `LoadPolicies`; the remote policies are fetched by
   *  `Remote.FetchRemotePolicies`. */
  method LoadPolicies(c: Config, dir: Listing, readFile: string -> Result<string>, net: Net) returns (r: Result<map<string, string>>)
    ensures r == LoadPoliciesOf(c, dir, readFile, AssignAll(c.policies.remote, Fetch(net), NameOf(net)))
  {
    var policies: map<string, string> := map[];
    if c.policies.directory != "" {
      var loaded := LoadPoliciesFromDir(c.policies.directory, dir, policies);
      if loaded.Failure? {
        return Failure(loaded.error);
      }
      policies := loaded.value;
    }
    assert DirPolicies(c, dir) == Success(policies);
    var withFiles := LoadFiles(c.policies.files, readFile, policies);
    if withFiles.Failure? {
      return Failure(withFiles.error);
    }
    policies := withFiles.value;
    var remote := FetchRemotePolicies(c.policies.remote, net);
    if remote.Failure? {
      return Failure(remote.error);
    }
    return Success(policies + remote.value);
  }

  /** The file loop of `LoadPolicies`: each listed file read and stored under
   *  its base name on top of `policies`. */
  method LoadFiles(files: seq<string>, readFile: string -> Result<string>, policies: map<string, string>) returns (r: Result<map<string, string>>)
    ensures var a := AssignAll(files, ReadPolicy(readFile), BaseName);
      r == if a.Failure? then Failure(a.error) else Success(policies + a.value)
  {
    var acc := policies;
    ghost var fileMap: map<string, string> := map[];
    var i := 0;
    while i < |files|
      invariant 0 <= i <= |files|
      invariant AssignAll(files[..i], ReadPolicy(readFile), BaseName) == Success(fileMap)
      invariant acc == policies + fileMap
    {
      assert files[..i + 1][..i] == files[..i];
      var content := readFile(files[i]);
      if content.Failure? {
        AssignAllFailed(files, ReadPolicy(readFile), BaseName, i + 1);
        return Failure("reading policy " + files[i] + ": " + content.error);
      }
      acc := acc[Base(files[i]) := content.value];
      fileMap := fileMap[Base(files[i]) := content.value];
      i := i + 1;
    }
    assert files[..|files|] == files;
    return Success(acc);
  }

  /** Merge precedence: a remote policy overrides a listed file of the same
   *  name, which overrides a directory policy; of two listed files with one
   *  base name the later wins. */
  lemma LoadPoliciesPrecedence(c: Config, dir: Listing, readFile: string -> Result<string>, remote: Result<map<string, string>>, key: string)
    requires LoadPoliciesOf(c, dir, readFile, remote).Success?
    ensures var r := LoadPoliciesOf(c, dir, readFile, remote).value;
      var files := Assign(c.policies.files, EntryOf(ReadPolicy(readFile), BaseName));
      (key in remote.value ==> key in r && r[key] == remote.value[key])
      && (key !in remote.value && key in files ==> key in r && r[key] == files[key])
      && (key !in remote.value && key !in files ==>
            (key in r <==> key in DirPolicies(c, dir).value) && (key in r ==> r[key] == DirPolicies(c, dir).value[key]))
  {
    AssignAllContents(c.policies.files, ReadPolicy(readFile), BaseName);
  }

  /** Loading fails exactly when the directory walk, a listed file or the
   *  remote fetch fails; a missing directory and no files or remotes give no
   *  policies. */
  lemma LoadPoliciesFacts(c: Config, dir: Listing, readFile: string -> Result<string>, remote: Result<map<string, string>>)
    ensures LoadPoliciesOf(c, dir, readFile, remote).Success? <==>
      (c.policies.directory == "" || LoadDir(c.policies.directory, dir, map[]).Success?)
      && (forall k :: 0 <= k < |c.policies.files| ==> readFile(c.policies.files[k]).Success?)
      && remote.Success?
    ensures c.policies.files == [] && remote == Success(map[]) ==> LoadPoliciesOf(c, Missing, readFile, remote) == Success(map[])
  {
    AssignAllSucceeds(c.policies.files, ReadPolicy(readFile), BaseName);
  }
}
