/** The command-line front end (cmd/regolint/main.go): flag lists, the per-file
 *  pipeline of `analyzePackage`, and how `run` ends in an exit status. Flag
 *  parsing, package loading, the Go parser, the transformer-plus-evaluator
 *  step and the output encoders are parameters; printing is not modelled. */
module Cli {
  import opened Wrappers
  import opened Text
  import opened Seqs
  import opened Model
  import GoAst
  import Nolint
  import Config
  import Sarif

  // ---------------------------------------------------------------------------
  // parseList

  /** The items of a comma-separated flag: split on ',', each item trimmed,
   *  empty items dropped, order kept; an empty flag has none. */
  function ListOf(s: string): seq<string>
  {
    if s == "" then [] else Nolint.RulesOf(Split(s, ','))
  }

  /** `parseList`. */
  method ParseList(s: string) returns (result: seq<string>)
    ensures result == ListOf(s)
  {
    if s == "" {
      return [];
    }
    var items := Split(s, ',');
    result := [];
    var i := 0;
    while i < |items|
      invariant 0 <= i <= |items|
      invariant result == Nolint.RulesOf(items[..i])
    {
      assert items[..i + 1] == items[..i] + [items[i]];
      Nolint.RulesOfSnoc(items[..i], items[i]);
      var item := TrimSpace(items[i]);
      if item != "" {
        result := result + [item];
      }
      i := i + 1;
    }
    assert items[..i] == items;
  }

  /** A rule list holds exactly the non-empty trimmed items. */
  lemma {:induction false} RulesOfMembers(items: seq<string>, r: string)
    ensures r in Nolint.RulesOf(items) <==> r != "" && exists k :: 0 <= k < |items| && TrimSpace(items[k]) == r
  {
    if items != [] {
      var init, last := items[..|items| - 1], items[|items| - 1];
      RulesOfMembers(init, r);
      assert items == init + [last];
      Nolint.RulesOfSnoc(init, last);
      assert forall k :: 0 <= k < |init| ==> init[k] == items[k];
    }
  }

  /** A trimmed item of a text without commas has no comma and trims to itself. */
  lemma TrimmedItem(item: string)
    requires ',' !in item
    ensures ',' !in TrimSpace(item) && TrimSpace(TrimSpace(item)) == TrimSpace(item)
  {
    var i := TrimSpaceInside(item);
    assert forall c :: c in TrimSpace(item) ==> c in item[i..i + |TrimSpace(item)|];
    TrimSpaceIdempotent(item);
  }

  /** Every item of a list is non-empty, free of commas and of surrounding
   *  space, and the items are exactly the non-empty trimmed pieces between
   *  commas. */
  lemma ListFacts(s: string, r: string)
    ensures ListOf("") == []
    ensures r in ListOf(s) <==> r != "" && exists k :: 0 <= k < |Split(s, ',')| && TrimSpace(Split(s, ',')[k]) == r
    ensures r in ListOf(s) ==> ',' !in r && TrimSpace(r) == r
  {
    if s != "" {
      RulesOfMembers(Split(s, ','), r);
      if r in ListOf(s) {
        var k :| 0 <= k < |Split(s, ',')| && TrimSpace(Split(s, ',')[k]) == r;
        TrimmedItem(Split(s, ',')[k]);
      }
    } else {
      assert Split(s, ',') == [""];
      assert TrimSpace("") == "";
    }
  }

  /** A list of trimmed, non-empty items without commas is its own rule list. */
  lemma {:induction false} RulesOfTrimmed(items: seq<string>)
    requires forall k :: 0 <= k < |items| ==> items[k] != "" && TrimSpace(items[k]) == items[k]
    ensures Nolint.RulesOf(items) == items
  {
    if items != [] {
      var init, last := items[..|items| - 1], items[|items| - 1];
      assert forall k :: 0 <= k < |init| ==> init[k] == items[k];
      RulesOfTrimmed(init);
      Nolint.RulesOfSnoc(init, last);
      assert items == init + [last];
    }
  }

  /** Writing such items as a comma-separated flag and parsing it gives them
   *  back. */
  lemma ListOfJoin(items: seq<string>)
    requires forall k :: 0 <= k < |items| ==> items[k] != "" && ',' !in items[k] && TrimSpace(items[k]) == items[k]
    ensures ListOf(Join(items, ',')) == items
  {
    if items != [] {
      SplitJoin(items, ',');
      assert Split("", ',') == [""];
      assert Join(items, ',') != "";
      RulesOfTrimmed(items);
    }
  }

  // ---------------------------------------------------------------------------
  // isDisabled and the per-file filter of analyzePackage

  /** `isDisabled`. */
  predicate IsDisabled(rule: string, disabled: seq<string>)
  {
    rule in disabled
  }

  function WithFile(v: Violation, filePath: string): Violation
  {
    v.(position := v.position.(file := filePath))
  }

  function KeepFor(filePath: string, disabled: seq<string>): Violation -> Option<Violation>
  {
    (v: Violation) => if IsDisabled(v.rule, disabled) then None else Some(WithFile(v, filePath))
  }

  function Enabled(disabled: seq<string>): Violation -> bool
  {
    (v: Violation) => !IsDisabled(v.rule, disabled)
  }

  /** The violations of a file that survive the disabled-rule filter, placed
   *  in that file. */
  function Kept(vs: seq<Violation>, filePath: string, disabled: seq<string>): seq<Violation>
  {
    Collect(vs, KeepFor(filePath, disabled))
  }

  /** The disabled-rule loop of `analyzePackage`. */
  method FilterDisabled(fileViolations: seq<Violation>, filePath: string, disabledRules: seq<string>)
    returns (filtered: seq<Violation>)
    ensures filtered == Kept(fileViolations, filePath, disabledRules)
  {
    filtered := [];
    var i := 0;
    while i < |fileViolations|
      invariant 0 <= i <= |fileViolations|
      invariant filtered == Kept(fileViolations[..i], filePath, disabledRules)
    {
      assert fileViolations[..i + 1][..i] == fileViolations[..i];
      var v := fileViolations[i];
      if !IsDisabled(v.rule, disabledRules) {
        v := v.(position := v.position.(file := filePath));
        filtered := filtered + [v];
      }
      i := i + 1;
    }
    assert fileViolations[..i] == fileViolations;
  }

  /** A survivor is an input violation of an enabled rule with its file set to
   *  the path; one survives per such input, and with nothing disabled every
   *  violation does. */
  lemma KeptFacts(vs: seq<Violation>, filePath: string, disabled: seq<string>, u: Violation)
    ensures u in Kept(vs, filePath, disabled) <==>
      exists k :: 0 <= k < |vs| && !IsDisabled(vs[k].rule, disabled) && u == WithFile(vs[k], filePath)
    ensures u in Kept(vs, filePath, disabled) ==> u.position.file == filePath && !IsDisabled(u.rule, disabled)
    ensures |Kept(vs, filePath, disabled)| == CountIf(vs, Enabled(disabled))
    ensures disabled == [] ==> |Kept(vs, filePath, disabled)| == |vs|
  {
    CollectMembers(vs, KeepFor(filePath, disabled), u);
    CollectCount(vs, KeepFor(filePath, disabled), Enabled(disabled));
    if disabled == [] {
      CountIfAll(vs, Enabled(disabled));
    }
  }

  /** Survivors keep their order: the filter works violation by violation. */
  lemma KeptAppend(a: seq<Violation>, b: seq<Violation>, filePath: string, disabled: seq<string>)
    ensures Kept(a + b, filePath, disabled) == Kept(a, filePath, disabled) + Kept(b, filePath, disabled)
  {
    CollectAppend(a, b, KeepFor(filePath, disabled));
  }

  /** Filtering the survivors again for the same file changes nothing. */
  lemma {:induction false} KeptIdempotent(vs: seq<Violation>, filePath: string, disabled: seq<string>)
    ensures Kept(Kept(vs, filePath, disabled), filePath, disabled) == Kept(vs, filePath, disabled)
  {
    if vs != [] {
      var init, v := vs[..|vs| - 1], vs[|vs| - 1];
      var once := Kept(init, filePath, disabled);
      var tail := if IsDisabled(v.rule, disabled) then [] else [WithFile(v, filePath)];
      assert Kept(vs, filePath, disabled) == once + tail;
      KeptIdempotent(init, filePath, disabled);
      KeptAppend(once, tail, filePath, disabled);
      if tail != [] {
        assert tail[..0] == [];
        assert Kept(tail, filePath, disabled) == tail;
      }
    }
  }

  // ---------------------------------------------------------------------------
  // shouldSkip and analyzePackage

  /** `shouldSkip`: whether some pattern matches the path. */
  method ShouldSkip(filePath: string, patterns: seq<string>, glob: (string, string) -> Result<bool>) returns (skip: bool)
    ensures skip == Config.Excluded(patterns, filePath, glob)
  {
    var i := 0;
    while i < |patterns|
      invariant 0 <= i <= |patterns|
      invariant forall k :: 0 <= k < i ==> glob(patterns[k], filePath) != Success(true)
    {
      var matched := glob(patterns[i], filePath);
      if matched.Success? && matched.value {
        return true;
      }
      i := i + 1;
    }
    return false;
  }

  /** A loaded package: its import path and its Go files. */
  datatype Package = Package(pkgPath: string, goFiles: seq<string>)

  /** What the front end calls and cannot see: `doublestar.Match`,
   *  `parser.ParseFile`, the transformer and `Evaluate` of one file (given
   *  the module path, the syntax tree and the file path), `evaluator.New`,
   *  `packages.Load`, and the encoder of `outputResults`, which may fail. */
  datatype Env = Env(
    glob: (string, string) -> Result<bool>,
    parse: string -> Result<GoAst.Node>,
    evaluate: (string, GoAst.Node, string) -> Result<seq<Violation>>,
    newEvaluator: map<string, string> -> Result<()>,
    loadPackages: seq<string> -> Result<seq<Package>>,
    write: seq<Violation> -> Option<string>)

  /** The parsed flags `analyzePackage` uses. */
  datatype Options = Options(disabledRules: seq<string>, excludePatterns: seq<string>, dryRun: bool)

  /** One file of `analyzePackage`: an excluded file contributes nothing, a
   *  parse error fails, a dry run stops after parsing, an evaluation error
   *  fails, and otherwise the survivors of the disabled-rule filter. */
  function FileResult(env: Env, opts: Options, modulePath: string, filePath: string): Result<seq<Violation>>
  {
    if Config.Excluded(opts.excludePatterns, filePath, env.glob) then Success([])
    else
      match env.parse(filePath)
      case Failure(e) => Failure("parsing " + filePath + ": " + e)
      case Success(file) =>
        if opts.dryRun then Success([])
        else
          match env.evaluate(modulePath, file, filePath)
          case Failure(e) => Failure("evaluating " + filePath + ": " + e)
          case Success(vs) => Success(Kept(vs, filePath, opts.disabledRules))
  }

  function FileStep(env: Env, opts: Options, modulePath: string): string -> Result<seq<Violation>>
  {
    (f: string) => FileResult(env, opts, modulePath, f)
  }

  /** `analyzePackage`: the files' results in order, or the first error. */
  function PackageResult(env: Env, opts: Options, pkg: Package): Result<seq<Violation>>
  {
    ConcatAll(pkg.goFiles, FileStep(env, opts, pkg.pkgPath))
  }

  /** The body of the file loop of `analyzePackage`. */
  method AnalyzeFile(env: Env, opts: Options, modulePath: string, filePath: string) returns (r: Result<seq<Violation>>)
    ensures r == FileResult(env, opts, modulePath, filePath)
  {
    var skip := ShouldSkip(filePath, opts.excludePatterns, env.glob);
    if skip {
      return Success([]);
    }
    var file := env.parse(filePath);
    if file.Failure? {
      return Failure("parsing " + filePath + ": " + file.error);
    }
    if opts.dryRun {
      return Success([]);
    }
    var fileViolations := env.evaluate(modulePath, file.value, filePath);
    if fileViolations.Failure? {
      return Failure("evaluating " + filePath + ": " + fileViolations.error);
    }
    var filtered := FilterDisabled(fileViolations.value, filePath, opts.disabledRules);
    return Success(filtered);
  }

  /** `analyzePackage`. */
  method AnalyzePackage(pkg: Package, env: Env, opts: Options) returns (r: Result<seq<Violation>>)
    ensures r == PackageResult(env, opts, pkg)
  {
    var files := pkg.goFiles;
    ghost var step := FileStep(env, opts, pkg.pkgPath);
    var violations := [];
    var i := 0;
    while i < |files|
      invariant 0 <= i <= |files|
      invariant Emit(files[..i], step) == (violations, None)
    {
      var fr := AnalyzeFile(env, opts, pkg.pkgPath, files[i]);
      assert files[..i + 1][..i] == files[..i] && files[..i + 1][i] == files[i];
      assert step(files[i]) == fr;
      if fr.Failure? {
        assert Emit(files[..i + 1], step) == (violations, Some(fr.error));
        EmitFailed(files, step, i + 1);
        return Failure(fr.error);
      }
      violations := violations + fr.value;
      i := i + 1;
    }
    assert files[..i] == files;
    return Success(violations);
  }

  // ---------------------------------------------------------------------------
  // loadPolicies

  /** `loadPolicies` walks the policy directory as `loadPoliciesFromDir` does:
   *  a missing directory gives no policies and no error, and a successful
   *  load holds exactly the ".rego" files of the tree that are not
   *  "_test.rego" files, keyed by path. */
  lemma LoadPoliciesFacts(dir: string, tree: Config.Listing, path: string)
    ensures Config.LoadDir(dir, Config.Missing, map[]) == Success(map[])
    ensures Config.LoadDir(dir, tree, map[]).Success? ==>
      (path in Config.LoadDir(dir, tree, map[]).value <==> Config.InTree(dir, tree, path))
    ensures Config.LoadDir(dir, tree, map[]).Success? && path in Config.LoadDir(dir, tree, map[]).value ==>
      exists d, name :: path == Config.JoinPath(d, name) && Config.IsPolicyFile(name)
  {
    if Config.LoadDir(dir, tree, map[]).Success? {
      Config.LoadDirKeys(dir, tree, map[], path);
      Config.LoadDirFacts(dir, tree, map[], path);
    }
  }

  // ---------------------------------------------------------------------------
  // run and the exit status

  datatype RunError = ViolationsFound | RunFailed(message: string)

  /** The flags `run` reads. */
  datatype Flags = Flags(policyDir: string, disabled: string, exclude: string, dryRun: bool)

  function OptionsOf(flags: Flags): Options
  {
    Options(ListOf(flags.disabled), ListOf(flags.exclude), flags.dryRun)
  }

  function PackageStep(env: Env, opts: Options): Package -> Result<seq<Violation>>
  {
    (p: Package) => PackageResult(env, opts, p)
  }

  /** What `run` returns: an error when loading the policies fails, nothing
   *  when there are none, an error when the evaluator, the packages, a
   *  package's analysis or the output fails, `ErrViolationsFound` when some
   *  violation is left, and nothing otherwise. */
  function RunOutcome(flags: Flags, args: seq<string>, tree: Config.Listing, env: Env): Option<RunError>
  {
    var policies := Config.LoadDir(flags.policyDir, tree, map[]);
    if policies.Failure? then Some(RunFailed("loading policies: " + policies.error))
    else if |policies.value| == 0 then None
    else if env.newEvaluator(policies.value).Failure? then
      Some(RunFailed("creating evaluator: " + env.newEvaluator(policies.value).error))
    else if env.loadPackages(args).Failure? then
      Some(RunFailed("loading packages: " + env.loadPackages(args).error))
    else
      match ConcatAll(env.loadPackages(args).value, PackageStep(env, OptionsOf(flags)))
      case Failure(e) => Some(RunFailed(e))
      case Success(all) =>
        var written := if |all| == 0 then None else env.write(all);
        if written.Some? then Some(RunFailed(written.value))
        else if |all| > 0 then Some(ViolationsFound)
        else None
  }

  /** `run`. */
  method Run(flags: Flags, args: seq<string>, tree: Config.Listing, env: Env) returns (err: Option<RunError>)
    ensures err == RunOutcome(flags, args, tree, env)
  {
    var policies := Config.LoadPoliciesFromDir(flags.policyDir, tree, map[]);
    if policies.Failure? {
      return Some(RunFailed("loading policies: " + policies.error));
    }
    if |policies.value| == 0 {
      return None;
    }
    var created := env.newEvaluator(policies.value);
    if created.Failure? {
      return Some(RunFailed("creating evaluator: " + created.error));
    }
    var pkgs := env.loadPackages(args);
    if pkgs.Failure? {
      return Some(RunFailed("loading packages: " + pkgs.error));
    }
    var disabledRules := ParseList(flags.disabled);
    var excludePatterns := ParseList(flags.exclude);
    var opts := Options(disabledRules, excludePatterns, flags.dryRun);
    var all := AnalyzeAll(pkgs.value, env, opts);
    if all.Failure? {
      return Some(RunFailed(all.error));
    }
    var allViolations := all.value;
    if |allViolations| > 0 {
      var written := env.write(allViolations);
      if written.Some? {
        return Some(RunFailed(written.value));
      }
      return Some(ViolationsFound);
    }
    return None;
  }

  /** The package loop of `run`: the packages' violations in order, or the
   *  first error. */
  method AnalyzeAll(pkgs: seq<Package>, env: Env, opts: Options) returns (r: Result<seq<Violation>>)
    ensures r == ConcatAll(pkgs, PackageStep(env, opts))
  {
    ghost var step := PackageStep(env, opts);
    var allViolations := [];
    var i := 0;
    while i < |pkgs|
      invariant 0 <= i <= |pkgs|
      invariant Emit(pkgs[..i], step) == (allViolations, None)
    {
      var violations := AnalyzePackage(pkgs[i], env, opts);
      assert pkgs[..i + 1][..i] == pkgs[..i] && pkgs[..i + 1][i] == pkgs[i];
      assert step(pkgs[i]) == violations;
      if violations.Failure? {
        assert Emit(pkgs[..i + 1], step) == (allViolations, Some(violations.error));
        EmitFailed(pkgs, step, i + 1);
        return Failure(violations.error);
      }
      allViolations := allViolations + violations.value;
      i := i + 1;
    }
    assert pkgs[..i] == pkgs;
    return Success(allViolations);
  }

  /** The status `main` exits with after `run`. */
  function ExitCode(err: Option<RunError>): int
  {
    match err
    case None => 0
    case Some(ViolationsFound) => 1
    case Some(RunFailed(_)) => 2
  }

  /** No policies is a success whatever the packages; a policy load error is
   *  exit 2; and exit 1 means every step succeeded and some package left a
   *  violation, while exit 0 with policies means none did. */
  lemma ExitFacts(flags: Flags, args: seq<string>, tree: Config.Listing, env: Env)
    ensures var code := ExitCode(RunOutcome(flags, args, tree, env)); 0 <= code <= 2
    ensures var policies := Config.LoadDir(flags.policyDir, tree, map[]);
      (policies.Failure? ==> ExitCode(RunOutcome(flags, args, tree, env)) == 2)
      && (policies.Success? && |policies.value| == 0 ==> ExitCode(RunOutcome(flags, args, tree, env)) == 0)
    ensures var policies := Config.LoadDir(flags.policyDir, tree, map[]);
      ExitCode(RunOutcome(flags, args, tree, env)) == 1 <==>
        policies.Success? && |policies.value| > 0 && env.newEvaluator(policies.value).Success?
        && env.loadPackages(args).Success?
        && (forall k :: 0 <= k < |env.loadPackages(args).value| ==> PackageResult(env, OptionsOf(flags), env.loadPackages(args).value[k]).Success?)
        && (exists k :: 0 <= k < |env.loadPackages(args).value| && PackageResult(env, OptionsOf(flags), env.loadPackages(args).value[k]).value != [])
        && ConcatAll(env.loadPackages(args).value, PackageStep(env, OptionsOf(flags))).Success?
        && env.write(ConcatAll(env.loadPackages(args).value, PackageStep(env, OptionsOf(flags))).value) == None
  {
    var policies := Config.LoadDir(flags.policyDir, tree, map[]);
    if policies.Success? && |policies.value| > 0 && env.newEvaluator(policies.value).Success? && env.loadPackages(args).Success? {
      var pkgs := env.loadPackages(args).value;
      var step := PackageStep(env, OptionsOf(flags));
      EmitSucceeds(pkgs, step);
      if Emit(pkgs, step).1.None? {
        FlattenNonEmpty(pkgs, ValueOr(step));
      }
    }
  }

  /** A concatenation is non-empty exactly when one of the lists is. */
  lemma FlattenNonEmpty<T, U>(xs: seq<T>, f: T -> seq<U>)
    ensures Flatten(xs, f) != [] <==> exists k :: 0 <= k < |xs| && f(xs[k]) != []
  {
    if Flatten(xs, f) != [] {
      FlattenMembers(xs, f, Flatten(xs, f)[0]);
    }
    if exists k :: 0 <= k < |xs| && f(xs[k]) != [] {
      var k :| 0 <= k < |xs| && f(xs[k]) != [];
      FlattenMembers(xs, f, f(xs[k])[0]);
    }
  }

  /** A dry run reports no violation, so it never exits with status 1. */
  lemma DryRunFindsNothing(flags: Flags, args: seq<string>, tree: Config.Listing, env: Env)
    requires flags.dryRun
    ensures ExitCode(RunOutcome(flags, args, tree, env)) != 1
  {
    var policies := Config.LoadDir(flags.policyDir, tree, map[]);
    if policies.Success? && |policies.value| > 0 && env.newEvaluator(policies.value).Success? && env.loadPackages(args).Success? {
      var pkgs := env.loadPackages(args).value;
      var opts := OptionsOf(flags);
      var step := PackageStep(env, opts);
      EmitSucceeds(pkgs, step);
      if Emit(pkgs, step).1.None? {
        forall k | 0 <= k < |pkgs|
          ensures ValueOr(step)(pkgs[k]) == []
        {
          DryRunPackageEmpty(env, opts, pkgs[k]);
        }
        FlattenNonEmpty(pkgs, ValueOr(step));
      }
    }
  }

  /** In a dry run a package yields no violations. */
  lemma DryRunPackageEmpty(env: Env, opts: Options, pkg: Package)
    requires opts.dryRun
    ensures ValueOr(PackageStep(env, opts))(pkg) == []
  {
    var files := pkg.goFiles;
    var fstep := FileStep(env, opts, pkg.pkgPath);
    EmitSucceeds(files, fstep);
    if Emit(files, fstep).1.None? {
      assert forall j :: 0 <= j < |files| ==> ValueOr(fstep)(files[j]) == [];
      FlattenNonEmpty(files, ValueOr(fstep));
    }
  }

  // ---------------------------------------------------------------------------
  // outputResults

  /** The severity the text format prints: an empty one shows as "error". */
  function TextSeverity(severity: string): (r: string)
    ensures r != ""
  {
    if severity == "" then "error" else severity
  }

  /** The text format and the SARIF log agree on how serious a violation is. */
  lemma SeverityFacts(severity: string)
    ensures TextSeverity("") == "error"
    ensures severity != "" ==> TextSeverity(severity) == severity
    ensures Sarif.Level(TextSeverity(severity)) == Sarif.Level(severity)
  {
  }
}
