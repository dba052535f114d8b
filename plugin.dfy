/** The golangci-lint plugin (plugin/regolint.go): the configuration built from
 *  the plugin settings, the analyzer's per-file pass, and `findPosition`,
 *  which maps a violation's line to a node of the file. Policy loading, the
 *  evaluator and the transformer step are parameters; the `sync.Once` barrier
 *  and plugin registration are not modelled. */
module Plugin {
  import opened Wrappers
  import opened Seqs
  import opened Model
  import GoAst
  import Config

  const Name := "regolint"
  const Doc := "Policy-as-code for Go. Write lint rules in Rego, not Go."

  // ---------------------------------------------------------------------------
  // buildConfig

  /** The plugin settings golangci-lint decodes. */
  datatype Settings = Settings(policyDir: string, policyFiles: seq<string>, disabled: seq<string>, exclude: seq<string>)

  /** The configuration `buildConfig` produces. */
  function ConfigOf(s: Settings): Config.Config
  {
    var d := Config.Default();
    Config.Config(
      Config.PoliciesConfig(
        if s.policyDir != "" then s.policyDir else d.policies.directory,
        if |s.policyFiles| > 0 then s.policyFiles else d.policies.files,
        d.policies.remote),
      Config.RulesConfig(if |s.disabled| > 0 then s.disabled else d.rules.disabled, d.rules.severity),
      d.includes,
      if |s.exclude| > 0 then s.exclude else [],
      d.output,
      d.performance)
  }

  /** `buildConfig`: the defaults without their exclude patterns, then each
   *  non-empty setting in turn. */
  method BuildConfig(s: Settings) returns (cfg: Config.Config)
    ensures cfg == ConfigOf(s)
  {
    cfg := Config.Default();
    cfg := cfg.(excludes := []);
    if s.policyDir != "" {
      cfg := cfg.(policies := cfg.policies.(directory := s.policyDir));
    }
    if |s.policyFiles| > 0 {
      cfg := cfg.(policies := cfg.policies.(files := s.policyFiles));
    }
    if |s.disabled| > 0 {
      cfg := cfg.(rules := cfg.rules.(disabled := s.disabled));
    }
    if |s.exclude| > 0 {
      cfg := cfg.(excludes := s.exclude);
    }
  }

  /** A setting overrides only when it is non-empty; since the default lists
   *  are empty, the files, disabled rules and exclude patterns are exactly
   *  the settings' own, and no exclude pattern of the defaults survives.
   *  Everything else is the default. */
  lemma ConfigFacts(s: Settings, ruleID: string)
    ensures ConfigOf(s).policies.directory == (if s.policyDir != "" then s.policyDir else ".regolint/policies")
    ensures ConfigOf(s).policies.files == s.policyFiles
    ensures ConfigOf(s).rules.disabled == s.disabled
    ensures ConfigOf(s).excludes == s.exclude
    ensures Config.IsRuleDisabled(ConfigOf(s), ruleID) <==> ruleID in s.disabled
    ensures ConfigOf(s).policies.remote == [] && ConfigOf(s).includes == ["**/*.go"]
    ensures ConfigOf(s).output == Config.Default().output && ConfigOf(s).performance == Config.Default().performance
    ensures ConfigOf(s).rules.severity == map[]
  {
  }

  /** With empty settings the directory is the default one and no file is
   *  skipped, test files included. */
  lemma EmptySettings(filePath: string, glob: (string, string) -> Result<bool>)
    ensures ConfigOf(Settings("", [], [], [])).policies.directory == Config.DefaultPolicyDirectory
    ensures !Config.Excluded(ConfigOf(Settings("", [], [], [])).excludes, filePath, glob)
  {
    Config.ExcludedFacts([], "", filePath, glob);
  }

  // ---------------------------------------------------------------------------
  // findPosition

  /** The callback of `findPosition` stops at a node on the target line. */
  function OnLine(line: int): GoAst.Node -> bool
  {
    (n: GoAst.Node) => n.pos.line == line
  }

  /** `best` and `bestLine` after the callback has seen `nodes`: a node on the
   *  target line becomes the best position, and a node on a line below the
   *  target and after `bestLine` becomes the best position and line. */
  function Best(nodes: seq<GoAst.Node>, line: int, start: GoAst.Pos): (GoAst.Pos, int)
  {
    if nodes == [] then (start, 0)
    else
      var prev := Best(nodes[..|nodes| - 1], line, start);
      var n := nodes[|nodes| - 1];
      if n.pos.line == line then (n.pos, prev.1)
      else if n.pos.line < line && n.pos.line > prev.1 then (n.pos, n.pos.line)
      else prev
  }

  /** What `findPosition(pass, file, line)` returns. */
  function FindPositionOf(file: GoAst.Node, line: int): GoAst.Pos
  {
    Best(GoAst.Walk(file, OnLine(line)), line, file.pos).0
  }

  /** `findPosition`: the callback run over the nodes `ast.Inspect` hands it. */
  method FindPosition(file: GoAst.Node, line: int) returns (best: GoAst.Pos)
    ensures best == FindPositionOf(file, line)
  {
    var nodes := GoAst.Inspect(file, OnLine(line));
    var bestLine;
    best, bestLine := BestOf(nodes, line, file.pos);
  }

  /** One more node seen by the callback of `findPosition`. */
  lemma BestSnoc(nodes: seq<GoAst.Node>, i: int, line: int, start: GoAst.Pos)
    requires 0 <= i < |nodes|
    ensures var prev := Best(nodes[..i], line, start); var p := nodes[i].pos;
      Best(nodes[..i + 1], line, start)
        == if p.line == line then (p, prev.1)
           else if p.line < line && p.line > prev.1 then (p, p.line)
           else prev
  {
    assert nodes[..i + 1][..i] == nodes[..i];
  }

  /** The callback of `findPosition` run over `nodes` in order. */
  method BestOf(nodes: seq<GoAst.Node>, line: int, start: GoAst.Pos) returns (best: GoAst.Pos, bestLine: int)
    ensures (best, bestLine) == Best(nodes, line, start)
  {
    best := start;
    bestLine := 0;
    var i := 0;
    while i < |nodes|
      invariant 0 <= i <= |nodes|
      invariant (best, bestLine) == Best(nodes[..i], line, start)
    {
      var pos := nodes[i].pos;
      BestSnoc(nodes, i, line, start);
      if pos.line == line {
        best := pos;
      } else if pos.line < line && pos.line > bestLine {
        best := pos;
        bestLine := pos.line;
      }
      i := i + 1;
    }
    assert nodes[..i] == nodes;
  }

  /** The best position is the start or that of a node not after the target
   *  line; `bestLine` is the greatest line below the target that a node is on
   *  (0 if none), so an exact match never changes it; and while it is 0 and
   *  no node is on the target line, the best position stays the start. */
  lemma {:induction false} BestFacts(nodes: seq<GoAst.Node>, line: int, start: GoAst.Pos)
    ensures var b := Best(nodes, line, start);
      b.0 == start || exists k :: 0 <= k < |nodes| && b.0 == nodes[k].pos && nodes[k].pos.line <= line
    ensures var b := Best(nodes, line, start);
      b.1 >= 0 && (b.1 == 0 || (b.1 < line && exists k :: 0 <= k < |nodes| && nodes[k].pos.line == b.1))
    ensures var b := Best(nodes, line, start);
      forall k :: 0 <= k < |nodes| && nodes[k].pos.line < line ==> nodes[k].pos.line <= b.1
    ensures var b := Best(nodes, line, start);
      b.1 == 0 && (forall k :: 0 <= k < |nodes| ==> nodes[k].pos.line != line) ==> b.0 == start
  {
    if nodes != [] {
      var init := nodes[..|nodes| - 1];
      BestFacts(init, line, start);
      assert forall k :: 0 <= k < |init| ==> init[k] == nodes[k];
    }
  }

  /** Nodes in source order: lines never decrease. */
  predicate InSourceOrder(nodes: seq<GoAst.Node>)
  {
    forall i, j :: 0 <= i < j < |nodes| ==> nodes[i].pos.line <= nodes[j].pos.line
  }

  /** On nodes in source order, `findPosition` picks the last node on the
   *  target line when there is one. */
  lemma {:induction false} BestExact(nodes: seq<GoAst.Node>, line: int, start: GoAst.Pos)
    requires InSourceOrder(nodes)
    requires exists k :: 0 <= k < |nodes| && nodes[k].pos.line == line
    ensures exists k :: 0 <= k < |nodes| && nodes[k].pos.line == line && Best(nodes, line, start).0 == nodes[k].pos
                        && forall j :: k < j < |nodes| ==> nodes[j].pos.line != line
  {
    var last := |nodes| - 1;
    var init, n := nodes[..last], nodes[last];
    var prev := Best(init, line, start);
    if n.pos.line == line {
      assert Best(nodes, line, start).0 == nodes[last].pos;
    } else {
      var k :| 0 <= k < |nodes| && nodes[k].pos.line == line;
      assert k != last && nodes[k].pos.line <= n.pos.line;
      assert Best(nodes, line, start) == prev;
      forall i, j | 0 <= i < j < |init|
        ensures init[i].pos.line <= init[j].pos.line
      {
        assert init[i] == nodes[i] && init[j] == nodes[j];
      }
      assert init[k] == nodes[k];
      BestExact(init, line, start);
      var k' :| 0 <= k' < |init| && init[k'].pos.line == line && prev.0 == init[k'].pos
                && forall j :: k' < j < |init| ==> init[j].pos.line != line;
      assert nodes[k'] == init[k'];
      forall j | k' < j < |nodes|
        ensures nodes[j].pos.line != line
      {
        if j < last {
          assert nodes[j] == init[j];
        }
      }
    }
  }

  /** On nodes in source order with none on the target line, `findPosition`
   *  picks the first node on the nearest line above it. */
  lemma {:induction false} BestNearest(nodes: seq<GoAst.Node>, line: int, start: GoAst.Pos)
    requires InSourceOrder(nodes)
    requires forall k :: 0 <= k < |nodes| ==> nodes[k].pos.line != line
    requires Best(nodes, line, start).1 > 0
    ensures exists k :: 0 <= k < |nodes| && nodes[k].pos.line == Best(nodes, line, start).1 && Best(nodes, line, start).0 == nodes[k].pos
                        && forall j :: 0 <= j < k ==> nodes[j].pos.line != Best(nodes, line, start).1
  {
    var init, n := nodes[..|nodes| - 1], nodes[|nodes| - 1];
    assert forall k :: 0 <= k < |init| ==> init[k] == nodes[k];
    var prev := Best(init, line, start);
    BestFacts(init, line, start);
    if n.pos.line < line && n.pos.line > prev.1 {
      assert forall j :: 0 <= j < |init| ==> nodes[j].pos.line <= n.pos.line;
      assert forall j :: 0 <= j < |init| ==> nodes[j].pos.line != n.pos.line;
    } else {
      assert Best(nodes, line, start) == prev;
      assert InSourceOrder(init);
      BestNearest(init, line, start);
    }
  }

  // ---------------------------------------------------------------------------
  // The analyzer's Run

  /** A report `pass.Reportf` issues. */
  datatype Report = Report(pos: GoAst.Pos, message: string)

  /** A file of the pass: its name and syntax tree. */
  datatype SourceFile = SourceFile(path: string, syntax: GoAst.Node)

  /** What the analyzer calls and cannot see: `doublestar.Match`, the
   *  transformer and `Evaluate` of one file, and `evaluator.New`. */
  datatype Host = Host(
    glob: (string, string) -> Result<bool>,
    evaluate: (GoAst.Node, string) -> Result<seq<Violation>>,
    newEvaluator: map<string, string> -> Result<()>)

  function Enabled(cfg: Config.Config): Violation -> bool
  {
    (v: Violation) => !Config.IsRuleDisabled(cfg, v.rule)
  }

  /** The message of a report: the rule id in brackets, then the message. */
  function MessageOf(v: Violation): string
  {
    "[" + v.rule + "] " + v.message
  }

  function ReportOf(file: GoAst.Node, v: Violation): Report
  {
    Report(FindPositionOf(file, v.position.line), MessageOf(v))
  }

  /** One report per violation, in order. */
  function ReportsOf(file: GoAst.Node, vs: seq<Violation>): seq<Report>
  {
    seq(|vs|, i requires 0 <= i < |vs| => ReportOf(file, vs[i]))
  }

  /** One file of the pass: an excluded file reports nothing, an evaluation
   *  error stops the pass, and otherwise the violations of enabled rules are
   *  reported. */
  function FileReports(cfg: Config.Config, host: Host, f: SourceFile): Result<seq<Report>>
  {
    if Config.Excluded(cfg.excludes, f.path, host.glob) then Success([])
    else
      match host.evaluate(f.syntax, f.path)
      case Failure(e) => Failure("evaluating " + f.path + ": " + e)
      case Success(vs) => Success(ReportsOf(f.syntax, Filter(vs, Enabled(cfg))))
  }

  function FileStep(cfg: Config.Config, host: Host): SourceFile -> Result<seq<Report>>
  {
    (f: SourceFile) => FileReports(cfg, host, f)
  }

  /** The reports the analyzer issues and the error it returns: loading the
   *  policies or creating the evaluator may fail; no policies means no
   *  reports and no error; otherwise the files are processed in order until
   *  one fails, and what was reported before stays reported. */
  function RunOf(s: Settings, policies: Result<map<string, string>>, host: Host, files: seq<SourceFile>): (seq<Report>, Option<string>)
  {
    if policies.Failure? then ([], Some(policies.error))
    else if |policies.value| == 0 then ([], None)
    else if host.newEvaluator(policies.value).Failure? then ([], Some(host.newEvaluator(policies.value).error))
    else Emit(files, FileStep(ConfigOf(s), host))
  }

  /** The disabled-rule loop of `Run`. */
  method DropDisabled(cfg: Config.Config, violations: seq<Violation>) returns (filtered: seq<Violation>)
    ensures filtered == Filter(violations, Enabled(cfg))
  {
    filtered := [];
    var i := 0;
    while i < |violations|
      invariant 0 <= i <= |violations|
      invariant filtered == Filter(violations[..i], Enabled(cfg))
    {
      assert violations[..i + 1][..i] == violations[..i];
      if !Config.IsRuleDisabled(cfg, violations[i].rule) {
        filtered := filtered + [violations[i]];
      }
      i := i + 1;
    }
    assert violations[..i] == violations;
  }

  /** The reporting loop of `Run`. */
  method ReportAll(file: GoAst.Node, filtered: seq<Violation>) returns (reports: seq<Report>)
    ensures reports == ReportsOf(file, filtered)
  {
    reports := [];
    var i := 0;
    while i < |filtered|
      invariant 0 <= i <= |filtered|
      invariant reports == ReportsOf(file, filtered[..i])
    {
      var v := filtered[i];
      var pos := FindPosition(file, v.position.line);
      var r := Report(pos, MessageOf(v));
      ReportsSnoc(file, filtered, i, r);
      reports := reports + [r];
      i := i + 1;
    }
    assert filtered[..i] == filtered;
  }

  lemma ReportsSnoc(file: GoAst.Node, vs: seq<Violation>, i: int, r: Report)
    requires 0 <= i < |vs| && r == ReportOf(file, vs[i])
    ensures ReportsOf(file, vs[..i + 1]) == ReportsOf(file, vs[..i]) + [r]
  {
  }

  /** The body of the file loop of `Run`. */
  method RunFile(cfg: Config.Config, host: Host, f: SourceFile) returns (r: Result<seq<Report>>)
    ensures r == FileReports(cfg, host, f)
  {
    var skip := Config.ShouldSkip(cfg, f.path, host.glob);
    if skip {
      return Success([]);
    }
    var violations := host.evaluate(f.syntax, f.path);
    if violations.Failure? {
      return Failure("evaluating " + f.path + ": " + violations.error);
    }
    var filtered := DropDisabled(cfg, violations.value);
    var reports := ReportAll(f.syntax, filtered);
    return Success(reports);
  }

  /** The analyzer's `Run` on one pass, after `buildConfig` and
   *  `LoadPolicies` have produced the settings' configuration and policies. */
  method Run(s: Settings, policies: Result<map<string, string>>, host: Host, files: seq<SourceFile>)
    returns (reports: seq<Report>, err: Option<string>)
    ensures (reports, err) == RunOf(s, policies, host, files)
  {
    var cfg := BuildConfig(s);
    if policies.Failure? {
      return [], Some(policies.error);
    }
    if |policies.value| == 0 {
      return [], None;
    }
    var created := host.newEvaluator(policies.value);
    if created.Failure? {
      return [], Some(created.error);
    }
    ghost var step := FileStep(cfg, host);
    reports := [];
    var i := 0;
    while i < |files|
      invariant 0 <= i <= |files|
      invariant Emit(files[..i], step) == (reports, None)
    {
      var fr := RunFile(cfg, host, files[i]);
      assert files[..i + 1][..i] == files[..i] && files[..i + 1][i] == files[i];
      assert step(files[i]) == fr;
      if fr.Failure? {
        assert Emit(files[..i + 1], step) == (reports, Some(fr.error));
        EmitFailed(files, step, i + 1);
        return reports, Some(fr.error);
      }
      reports := reports + fr.value;
      i := i + 1;
    }
    assert files[..i] == files;
    return reports, None;
  }

  /** A file reports exactly its violations of enabled rules, in order, each
   *  at the position `findPosition` gives for its line and with its rule id
   *  in brackets before its message. */
  lemma FileReportsFacts(cfg: Config.Config, host: Host, f: SourceFile, r: Report)
    requires FileReports(cfg, host, f).Success?
    ensures Config.Excluded(cfg.excludes, f.path, host.glob) ==> FileReports(cfg, host, f).value == []
    ensures !Config.Excluded(cfg.excludes, f.path, host.glob) ==>
      |FileReports(cfg, host, f).value| == |Filter(host.evaluate(f.syntax, f.path).value, Enabled(cfg))|
    ensures r in FileReports(cfg, host, f).value ==>
      exists v :: v in host.evaluate(f.syntax, f.path).value && !Config.IsRuleDisabled(cfg, v.rule)
        && r == Report(FindPositionOf(f.syntax, v.position.line), "[" + v.rule + "] " + v.message)
  {
    if r in FileReports(cfg, host, f).value {
      var vs := Filter(host.evaluate(f.syntax, f.path).value, Enabled(cfg));
      var k :| 0 <= k < |vs| && FileReports(cfg, host, f).value[k] == r;
      FilterMembers(host.evaluate(f.syntax, f.path).value, Enabled(cfg), vs[k]);
    }
  }

  /** Without policies nothing is reported and nothing fails; without an
   *  error every file's reports are issued in file order; and an error is the
   *  first failing file's, with the reports of the files before it issued. */
  lemma RunFacts(s: Settings, policies: Result<map<string, string>>, host: Host, files: seq<SourceFile>)
    ensures policies.Success? && |policies.value| == 0 ==> RunOf(s, policies, host, files) == ([], None)
    ensures policies.Success? && |policies.value| > 0 && host.newEvaluator(policies.value).Success? ==>
      var out := RunOf(s, policies, host, files);
      var step := FileStep(ConfigOf(s), host);
      (out.1.None? ==> (forall k :: 0 <= k < |files| ==> step(files[k]).Success?) && out.0 == Flatten(files, ValueOr(step)))
      && (out.1.Some? ==>
            (exists k :: 0 <= k < |files| && step(files[k]) == Failure(out.1.value)
               && (forall j :: 0 <= j < k ==> step(files[j]).Success?) && out.0 == Flatten(files[..k], ValueOr(step))))
  {
    if policies.Success? && |policies.value| > 0 && host.newEvaluator(policies.value).Success? {
      var step := FileStep(ConfigOf(s), host);
      EmitSucceeds(files, step);
      if Emit(files, step).1.Some? {
        EmitFirstFailure(files, step);
      }
    }
  }

  // ---------------------------------------------------------------------------
  // BuildAnalyzers

  datatype Analyzer = Analyzer(name: string, doc: string)

  /** `BuildAnalyzers`: exactly one analyzer, named "regolint", and no error. */
  function BuildAnalyzers(): (r: Result<seq<Analyzer>>)
    ensures r.Success? && |r.value| == 1 && r.value[0].name == "regolint"
  {
    Success([Analyzer(Name, Doc)])
  }
}
