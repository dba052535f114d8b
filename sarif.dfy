/** The SARIF report (internal/output/sarif.go): one result per violation and
 *  one rule per distinct rule id, in a log of version 2.1.0 of the OASIS
 *  Static Analysis Results Interchange Format. JSON encoding and writing are
 *  not modelled: the log is returned as a value. */
module Sarif {
  import opened Model
  import opened Seqs

  datatype Region = Region(startLine: int, startColumn: int)
  datatype Location = Location(uri: string, region: Region)
  datatype SarifResult = SarifResult(ruleId: string, level: string, message: string, locations: seq<Location>)
  datatype SarifRule = SarifRule(id: string, shortDescription: string)
  datatype Driver = Driver(name: string, version: string, informationUri: string, rules: seq<SarifRule>)
  datatype Run = Run(driver: Driver, results: seq<SarifResult>)
  datatype SarifLog = SarifLog(schema: string, version: string, runs: seq<Run>)

  const Schema := "https://json.schemastore.org/sarif-2.1.0.json"
  const InformationUri := "https://github.com/burdzwastaken/regolint"

  /** The result level of a severity: the levels of section 3.27.10 of SARIF
   *  2.1.0 that a violation can have. */
  function Level(severity: string): (level: string)
    ensures level == "error" || level == "warning" || level == "note"
  {
    if severity == "warning" then "warning"
    else if severity == "info" then "note"
    else "error"
  }

  /** Only "warning" and "info" lower the level; any other severity, the empty
   *  one included, reports an error. */
  lemma LevelFacts(severity: string)
    ensures Level("warning") == "warning" && Level("info") == "note" && Level("") == "error"
    ensures Level(severity) == "error" <==> severity != "warning" && severity != "info"
  {
  }

  /** The result reported for one violation. */
  function ResultOf(v: Violation): SarifResult
  {
    var column := if v.position.column > 1 then v.position.column else 1;
    SarifResult(v.rule, Level(v.severity), v.message,
      [Location(v.position.file, Region(v.position.line, column))])
  }

  function ResultsOf(violations: seq<Violation>): seq<SarifResult>
  {
    seq(|violations|, i requires 0 <= i < |violations| => ResultOf(violations[i]))
  }

  function RuleOf(v: Violation): string
  {
    v.rule
  }

  function RuleEntry(v: Violation): SarifRule
  {
    SarifRule(v.rule, v.rule)
  }

  /** The rules of the report: the first violation of each rule id, in
   *  order. */
  function RulesOf(violations: seq<Violation>): seq<SarifRule>
  {
    var firsts := FirstByKey(violations, RuleOf);
    seq(|firsts|, i requires 0 <= i < |firsts| => RuleEntry(firsts[i]))
  }

  function LogOf(violations: seq<Violation>, version: string): SarifLog
  {
    SarifLog(Schema, "2.1.0", [Run(Driver("regolint", version, InformationUri, RulesOf(violations)), ResultsOf(violations))])
  }

  /** `extractRules`. */
  method ExtractRules(violations: seq<Violation>) returns (rules: seq<SarifRule>)
    ensures rules == RulesOf(violations)
  {
    var seen: set<string> := {};
    rules := [];
    ghost var firsts: seq<Violation> := [];
    var i := 0;
    while i < |violations|
      invariant 0 <= i <= |violations|
      invariant firsts == FirstByKey(violations[..i], RuleOf)
      invariant seen == KeySet(violations[..i], RuleOf)
      invariant rules == seq(|firsts|, k requires 0 <= k < |firsts| => RuleEntry(firsts[k]))
    {
      var v := violations[i];
      assert violations[..i + 1] == violations[..i] + [v];
      FirstByKeySnoc(violations[..i], v, RuleOf);
      KeySetSnoc(violations[..i], v, RuleOf);
      if v.rule !in seen {
        seen := seen + {v.rule};
        rules := rules + [SarifRule(v.rule, v.rule)];
        firsts := firsts + [v];
      }
      i := i + 1;
    }
    assert violations[..|violations|] == violations;
  }

  /** `WriteSARIF`, up to the JSON encoding of the log. */
  method WriteSARIF(violations: seq<Violation>, version: string) returns (log: SarifLog)
    ensures log == LogOf(violations, version)
  {
    var rules := ExtractRules(violations);
    var results: seq<SarifResult> := [];
    var i := 0;
    while i < |violations|
      invariant 0 <= i <= |violations|
      invariant results == ResultsOf(violations[..i])
    {
      var v := violations[i];
      var level;
      if v.severity == "warning" {
        level := "warning";
      } else if v.severity == "info" {
        level := "note";
      } else {
        level := "error";
      }
      var column := if v.position.column > 1 then v.position.column else 1;
      results := results + [SarifResult(v.rule, level, v.message, [Location(v.position.file, Region(v.position.line, column))])];
      i := i + 1;
    }
    assert violations[..|violations|] == violations;
    log := SarifLog(Schema, "2.1.0", [Run(Driver("regolint", version, InformationUri, rules), results)]);
  }

  /** One result per violation, in order, with its rule id, message, file and
   *  line copied and a start column of at least 1 (the violation's column
   *  when that is positive). */
  lemma ResultsFacts(violations: seq<Violation>, i: int)
    requires 0 <= i < |violations|
    ensures |ResultsOf(violations)| == |violations|
    ensures var r := ResultsOf(violations)[i]; var v := violations[i];
      r.ruleId == v.rule && r.message == v.message && r.level == Level(v.severity)
      && |r.locations| == 1 && r.locations[0].uri == v.position.file
      && r.locations[0].region.startLine == v.position.line
      && r.locations[0].region.startColumn >= 1
      && (v.position.column >= 1 ==> r.locations[0].region.startColumn == v.position.column)
  {
  }

  function RuleIds(rules: seq<SarifRule>): set<string>
  {
    set r | r in rules :: r.id
  }

  /** One rule per distinct rule id of the violations, each id once, described
   *  by its own id (`RulesOrder` states their order). */
  lemma RulesFacts(violations: seq<Violation>)
    ensures RuleIds(RulesOf(violations)) == KeySet(violations, RuleOf)
    ensures forall i, j :: 0 <= i < j < |RulesOf(violations)| ==> RulesOf(violations)[i].id != RulesOf(violations)[j].id
    ensures forall r :: r in RulesOf(violations) ==> r.shortDescription == r.id
  {
    var firsts := FirstByKey(violations, RuleOf);
    FirstByKeyFacts(violations, RuleOf);
    var rules := RulesOf(violations);
    assert forall i :: 0 <= i < |rules| ==> rules[i].id == firsts[i].rule;
    var ids := KeySet(violations, RuleOf);
    forall id | id in ids
      ensures id in RuleIds(rules)
    {
      assert id in KeySet(firsts, RuleOf);
      var f :| f in firsts && RuleOf(f) == id;
      var k :| 0 <= k < |firsts| && firsts[k] == f;
      assert rules[k].id == id;
    }
    var rids := RuleIds(rules);
    forall id | id in rids
      ensures id in ids
    {
      var r :| r in rules && r.id == id;
      var k :| 0 <= k < |rules| && rules[k] == r;
      assert firsts[k] in firsts;
      assert RuleOf(firsts[k]) in KeySet(firsts, RuleOf);
    }
  }

  /** The rules come in the order of first occurrence: the id of an earlier
   *  rule occurs among the violations before any violation of a later one. */
  lemma RulesOrder(violations: seq<Violation>, i: int, j: int)
    requires 0 <= i < j < |RulesOf(violations)|
    ensures exists k :: (0 <= k < |violations| && violations[k].rule == RulesOf(violations)[i].id
      && forall k' :: 0 <= k' <= k ==> violations[k'].rule != RulesOf(violations)[j].id)
  {
    var firsts := FirstByKey(violations, RuleOf);
    FirstByKeyOrder(violations, RuleOf, i, j);
    assert RulesOf(violations)[i].id == RuleOf(firsts[i]) && RulesOf(violations)[j].id == RuleOf(firsts[j]);
  }

  /** The log has version 2.1.0, one run, driver "regolint" at the given
   *  version, and the rules and results above. */
  lemma LogFacts(violations: seq<Violation>, version: string)
    ensures var log := LogOf(violations, version);
      log.version == "2.1.0" && |log.runs| == 1 && log.runs[0].driver.name == "regolint"
      && log.runs[0].driver.version == version
      && log.runs[0].results == ResultsOf(violations) && log.runs[0].driver.rules == RulesOf(violations)
  {
  }
}
