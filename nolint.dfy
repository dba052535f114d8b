/** `//nolint` suppression (internal/nolint/nolint.go): comments are parsed into
 *  directives, a directive on the line just above a struct type spec is widened
 *  to the whole struct, and violations a directive covers are dropped. */
module Nolint {
  import opened Wrappers
  import opened Text
  import opened GoAst

  datatype Directive = Directive(line: int, endLine: int, rules: seq<string>, reason: string)

  /** `Directive.Match`: a directive without rules applies to every rule. */
  predicate Match(d: Directive, rule: string)
  {
    |d.rules| == 0 || rule in d.rules
  }

  lemma MatchFacts(d: Directive, rule: string)
    ensures |d.rules| == 0 ==> Match(d, rule)
    ensures |d.rules| > 0 ==> (Match(d, rule) <==> exists k :: 0 <= k < |d.rules| && d.rules[k] == rule)
    ensures forall l, e, r :: Match(d.(line := l, endLine := e, reason := r), rule) == Match(d, rule)
  {
  }

  // ---------------------------------------------------------------------------
  // The pattern `//\s*nolint(?::([A-Za-z0-9_,]+))?(?:\s+//\s*(.+))?` under RE2's
  // leftmost-first semantics, written out as a scanner.

  predicate IsRuleChar(c: char)
  {
    ('A' <= c <= 'Z') || ('a' <= c <= 'z') || ('0' <= c <= '9') || c == '_' || c == ','
  }

  /** The end of the run of `\s` that starts at `i`. */
  function SkipSpace(t: string, i: nat): (j: nat)
    requires i <= |t|
    ensures i <= j <= |t|
    ensures forall k :: i <= k < j ==> IsRegexSpace(t[k])
    ensures j == |t| || !IsRegexSpace(t[j])
    decreases |t| - i
  {
    if i < |t| && IsRegexSpace(t[i]) then SkipSpace(t, i + 1) else i
  }

  /** The end of the run of `[A-Za-z0-9_,]` that starts at `i`. */
  function SkipRuleChars(t: string, i: nat): (j: nat)
    requires i <= |t|
    ensures i <= j <= |t|
    ensures forall k :: i <= k < j ==> IsRuleChar(t[k])
    ensures j == |t| || !IsRuleChar(t[j])
    decreases |t| - i
  {
    if i < |t| && IsRuleChar(t[i]) then SkipRuleChars(t, i + 1) else i
  }

  /** The index of the first newline at or after `i`, or the length (`.` stops at '\n'). */
  function LineEnd(t: string, i: nat): (j: nat)
    requires i <= |t|
    ensures i <= j <= |t|
    ensures forall k :: i <= k < j ==> t[k] != '\n'
    ensures j == |t| || t[j] == '\n'
    decreases |t| - i
  {
    if i < |t| && t[i] != '\n' then LineEnd(t, i + 1) else i
  }

  /** `//\s*nolint` matches at position `i`. */
  predicate MarkerAt(t: string, i: nat)
  {
    i + 2 <= |t| && t[i..i + 2] == "//" && HasPrefix(t[SkipSpace(t, i + 2)..], "nolint")
  }

  /** The leftmost position at or after `i` where the pattern matches, or -1. */
  function FindMarker(t: string, i: nat): (r: int)
    requires i <= |t|
    ensures r == -1 || (i <= r <= |t| && MarkerAt(t, r))
    ensures r == -1 ==> forall k :: i <= k <= |t| ==> !MarkerAt(t, k)
    ensures r != -1 ==> forall k :: i <= k < r ==> !MarkerAt(t, k)
    decreases |t| - i
  {
    if MarkerAt(t, i) then i else if i == |t| then -1 else FindMarker(t, i + 1)
  }

  /** The two capture groups; an unmatched group is "" as in `FindStringSubmatch`. */
  datatype Submatch = Submatch(rules: string, reason: string)

  /** Group 1 at `k` (just after "nolint"): the whole run of rule characters after
   *  a ':', and the position where group 2 is tried. */
  function RulesGroup(t: string, k: nat): (r: (string, nat))
    requires k <= |t|
    ensures k <= r.1 <= |t|
    ensures forall j :: 0 <= j < |r.0| ==> IsRuleChar(r.0[j])
  {
    if k + 1 < |t| && t[k] == ':' && IsRuleChar(t[k + 1]) then
      var e := SkipRuleChars(t, k + 1);
      (t[k + 1..e], e)
    else ("", k)
  }

  /** The last index in [lo, hi) that is not a newline, or -1: where `.+` starts
   *  once `\s*` has backed off from the end of the text. */
  function LastNonNewline(t: string, lo: nat, hi: nat): (s: int)
    requires lo <= hi <= |t|
    ensures s == -1 || (lo <= s < hi && t[s] != '\n')
    decreases hi
  {
    if hi <= lo then -1 else if t[hi - 1] != '\n' then hi - 1 else LastNonNewline(t, lo, hi - 1)
  }

  /** Group 2 tried at `e`: `\s+//\s*(.+)`, or "" when that part does not match. */
  function ReasonGroup(t: string, e: nat): string
    requires e <= |t|
  {
    if e < |t| && IsRegexSpace(t[e]) then
      var q := SkipSpace(t, e);
      if q + 2 <= |t| && t[q..q + 2] == "//" then ReasonText(t, q + 2) else ""
    else ""
  }

  /** `\s*(.+)` at `p`, just after the `//`: the rest of the line after the
   *  spaces, or, when only spaces follow, the last character `\s*` can give
   *  back to `.+`. */
  function ReasonText(t: string, p: nat): string
    requires p <= |t|
  {
    var r := SkipSpace(t, p);
    if r < |t| then t[r..LineEnd(t, r)]
    else
      var s := LastNonNewline(t, p, r);
      if s == -1 then "" else t[s..LineEnd(t, s)]
  }

  /** `nolintPattern.FindStringSubmatch(text)`. */
  function FindSubmatch(t: string): Option<Submatch>
  {
    var i := FindMarker(t, 0);
    if i == -1 then None
    else
      var k := SkipSpace(t, i + 2) + 6;
      var g := RulesGroup(t, k);
      Some(Submatch(g.0, ReasonGroup(t, g.1)))
  }

  /** The rule ids of a group-1 text: comma-separated items, trimmed, empties dropped. */
  function RulesOf(items: seq<string>): (r: seq<string>)
    ensures forall k :: 0 <= k < |r| ==> r[k] != []
  {
    if items == [] then []
    else
      var rest := RulesOf(items[..|items| - 1]);
      var rule := TrimSpace(items[|items| - 1]);
      if rule != [] then rest + [rule] else rest
  }

  lemma RulesOfSnoc(items: seq<string>, x: string)
    ensures RulesOf(items + [x]) == RulesOf(items) + (if TrimSpace(x) != [] then [TrimSpace(x)] else [])
  {
    assert (items + [x])[..|items|] == items;
  }

  /** The directive `parseComment` builds from the capture groups. */
  function DirectiveOf(m: Submatch, line: int): Directive
  {
    var rules := if m.rules != [] then RulesOf(Split(m.rules, ',')) else [];
    var reason := if m.reason != [] then TrimSpace(m.reason) else [];
    Directive(line, 0, rules, reason)
  }

  /** The directive `parseComment` builds for a comment with this text on this line. */
  function Parse(text: string, line: int): Option<Directive>
  {
    match FindSubmatch(text)
    case None => None
    case Some(m) => Some(DirectiveOf(m, line))
  }

  /** `parseComment`. */
  method ParseComment(text: string, line: int) returns (d: Directive, ok: bool)
    ensures ok == Parse(text, line).Some?
    ensures ok ==> d == Parse(text, line).value
    ensures !ok ==> d == Directive(0, 0, [], [])
  {
    var matches := FindSubmatch(text);
    if matches.None? {
      return Directive(0, 0, [], []), false;
    }
    d := BuildDirective(matches.value, line);
    ok := true;
  }

  /** The part of `parseComment` after a match: the rule loop and the reason. */
  method BuildDirective(m: Submatch, line: int) returns (d: Directive)
    ensures d == DirectiveOf(m, line)
  {
    d := Directive(line, 0, [], []);
    if m.rules != [] {
      var items := Split(m.rules, ',');
      var rules := [];
      var i := 0;
      while i < |items|
        invariant 0 <= i <= |items|
        invariant rules == RulesOf(items[..i])
      {
        assert items[..i + 1] == items[..i] + [items[i]];
        RulesOfSnoc(items[..i], items[i]);
        var rule := TrimSpace(items[i]);
        if rule != [] {
          rules := rules + [rule];
        }
        i := i + 1;
      }
      assert items[..i] == items;
      d := d.(rules := rules);
    }
    if m.reason != [] {
      d := d.(reason := TrimSpace(m.reason));
    }
  }

  // ---------------------------------------------------------------------------
  // What the parser accepts.

  /** A comment yields a directive exactly when it contains `//`, optional
   *  whitespace, then `nolint`; the directive sits on the comment's line. */
  lemma ParseDefinedIff(text: string, line: int)
    ensures Parse(text, line).Some? <==> exists i :: 0 <= i <= |text| && MarkerAt(text, i)
    ensures Parse(text, line).Some? ==> Parse(text, line).value.line == line
    ensures Parse(text, line).Some? ==> Parse(text, line).value.endLine == 0
  {
    var i := FindMarker(text, 0);
    if i != -1 {
      assert MarkerAt(text, i);
    }
  }

  /** Rule ids are never empty and are made of `[A-Za-z0-9_]` only. */
  lemma ParsedRulesWellFormed(text: string, line: int)
    requires Parse(text, line).Some?
    ensures forall r :: r in Parse(text, line).value.rules ==>
      r != [] && forall j :: 0 <= j < |r| ==> IsRuleChar(r[j]) && r[j] != ','
  {
    var m := FindSubmatch(text).value;
    if m.rules != [] {
      var items := Split(m.rules, ',');
      SplitRuleChars(m.rules);
      RulesOfNoSpace(items);
      NonEmptyMembers(items);
    }
  }

  lemma SplitRuleChars(s: string)
    requires forall j :: 0 <= j < |s| ==> IsRuleChar(s[j])
    ensures forall k, j :: 0 <= k < |Split(s, ',')| && 0 <= j < |Split(s, ',')[k]| ==>
      IsRuleChar(Split(s, ',')[k][j]) && Split(s, ',')[k][j] != ','
  {
    SplitAllRuleChars(s);
    var parts := Split(s, ',');
    forall k, j | 0 <= k < |parts| && 0 <= j < |parts[k]|
      ensures IsRuleChar(parts[k][j]) && parts[k][j] != ','
    {
      assert AllRuleChars(parts[k]) && ',' !in parts[k];
      assert parts[k][j] in parts[k];
    }
  }

  predicate AllRuleChars(r: string)
  {
    forall j :: 0 <= j < |r| ==> IsRuleChar(r[j])
  }

  lemma {:induction false} SplitAllRuleChars(s: string)
    requires AllRuleChars(s)
    ensures forall k :: 0 <= k < |Split(s, ',')| ==> AllRuleChars(Split(s, ',')[k])
    decreases |s|
  {
    var i := IndexOf(s, ',');
    if i != -1 {
      var rest := s[i + 1..];
      forall j | 0 <= j < |rest|
        ensures IsRuleChar(rest[j])
      {
        assert rest[j] == s[i + 1 + j];
      }
      SplitAllRuleChars(rest);
      assert Split(s, ',') == [s[..i]] + Split(rest, ',');
      forall j | 0 <= j < i
        ensures IsRuleChar(s[..i][j])
      {
        assert s[..i][j] == s[j];
      }
    }
  }

  function NonEmpty(items: seq<string>): seq<string>
  {
    if items == [] then []
    else NonEmpty(items[..|items| - 1]) + (if items[|items| - 1] != [] then [items[|items| - 1]] else [])
  }

  lemma {:induction false} NonEmptyMembers(items: seq<string>)
    ensures forall r :: r in NonEmpty(items) <==> r in items && r != []
  {
    if items != [] {
      NonEmptyMembers(items[..|items| - 1]);
      assert items == items[..|items| - 1] + [items[|items| - 1]];
    }
  }

  /** An item of a rule list has no spaces, so trimming keeps it whole. */
  lemma {:induction false} RulesOfNoSpace(items: seq<string>)
    requires forall k, j :: 0 <= k < |items| && 0 <= j < |items[k]| ==> IsRuleChar(items[k][j])
    ensures RulesOf(items) == NonEmpty(items)
  {
    if items != [] {
      var init, last := items[..|items| - 1], items[|items| - 1];
      assert items == init + [last];
      assert forall k, j :: 0 <= k < |init| && 0 <= j < |init[k]| ==> init[k][j] == items[k][j];
      RulesOfNoSpace(init);
      if last != [] {
        assert IsRuleChar(last[0]) && IsRuleChar(last[|last| - 1]);
      }
      TrimSpaceOfTrimmed(last);
      RulesOfSnoc(init, last);
    }
  }

  /** A colon followed by a space carries no rule list: `//nolint: TAG001`
   *  suppresses every rule. */
  lemma ColonSpaceMatchesAll(rule: string)
    ensures Parse("//nolint: TAG001", 7) == Some(Directive(7, 0, [], []))
    ensures Match(Parse("//nolint: TAG001", 7).value, rule)
  {
    var t := "//nolint: TAG001";
    assert t[2] == 'n' && t[8] == ':' && t[9] == ' ';
    assert SkipSpace(t, 2) == 2;
    assert t[0..2] == "//" && t[2..][..6] == "nolint";
    assert MarkerAt(t, 0);
    assert FindMarker(t, 0) == 0;
    assert RulesGroup(t, 8) == ("", 8);
    assert ReasonGroup(t, 8) == "";
  }

  /** The reason of `//nolint:R W// X`: rules `R`, whitespace `W`, then `//` and
   *  a one-line reason `X` that is not all blank. The reason is `X` trimmed,
   *  and the rules are `R`'s items. */
  lemma ParsedReason(text: string, line: int, rules: string, space: string, reason: string)
    requires text == "//nolint:" + rules + space + "//" + reason
    requires rules != [] && AllRuleChars(rules)
    requires space != [] && forall j :: 0 <= j < |space| ==> IsRegexSpace(space[j])
    requires '\n' !in reason && exists j :: 0 <= j < |reason| && !IsRegexSpace(reason[j])
    ensures Parse(text, line).Some?
    ensures Parse(text, line).value.rules == RulesOf(Split(rules, ','))
    ensures Parse(text, line).value.reason == TrimSpace(reason)
  {
    var e := 9 + |rules|;
    var q := e + |space|;
    CommentLayout(text, rules, space, reason);
    NolintRulesGroup(text, rules);
    var j :| 0 <= j < |reason| && !IsRegexSpace(reason[j]);
    SkipSpaceTo(text, e, q);
    var g := ReasonGroupOf(text, e, q, reason, j);
    TrimSpaceDropLeading(reason, g);
    assert Parse(text, line) == Some(DirectiveOf(Submatch(rules, reason[g..]), line));
  }

  /** Where the parts of `//nolint:R W//X` sit in the text. */
  lemma CommentLayout(text: string, rules: string, space: string, reason: string)
    requires text == "//nolint:" + rules + space + "//" + reason
    requires forall j :: 0 <= j < |space| ==> IsRegexSpace(space[j])
    ensures var e, q := 9 + |rules|, 9 + |rules| + |space|;
      && text[..9] == "//nolint:" && text[9..e] == rules
      && (forall k :: e <= k < q ==> IsRegexSpace(text[k]))
      && q + 2 <= |text| && text[q] == '/' && text[q + 1] == '/' && text[q + 2..] == reason
  {
    var e := 9 + |rules|;
    var q := e + |space|;
    var head := "//nolint:" + rules;
    assert text == head + (space + ("//" + reason));
    assert text[..e] == head && text[e..] == space + ("//" + reason);
    assert text[..9] == "//nolint:" && text[9..e] == rules;
    assert text[e..][..|space|] == space && text[q..] == "//" + reason;
    forall k | e <= k < q
      ensures IsRegexSpace(text[k])
    {
      assert text[k] == text[e..][k - e] == space[k - e];
    }
  }

  lemma ReasonGroupOf(t: string, e: nat, q: nat, x: string, j: nat) returns (g: nat)
    requires e < |t| && IsRegexSpace(t[e]) && SkipSpace(t, e) == q
    requires q + 2 <= |t| && t[q + 2..] == x
    requires t[q] == '/' && t[q + 1] == '/'
    requires '\n' !in x && j < |x| && !IsRegexSpace(x[j])
    ensures g < |x| && ReasonGroup(t, e) == x[g..]
    ensures forall k :: 0 <= k < g ==> IsSpace(x[k])
  {
    assert t[q..q + 2] == "//";
    g := ReasonStart(t, q + 2, x, j);
  }

  lemma SkipSpaceTo(t: string, i: nat, j: nat)
    requires i <= j < |t| && !IsRegexSpace(t[j])
    requires forall k :: i <= k < j ==> IsRegexSpace(t[k])
    ensures SkipSpace(t, i) == j
  {
  }

  /** Where `\s*(.+)` starts in the text `x` at `p`, and that `(.+)` runs to the end. */
  lemma ReasonStart(t: string, p: nat, x: string, j: nat) returns (g: nat)
    requires p <= |t| && t[p..] == x
    requires '\n' !in x && j < |x| && !IsRegexSpace(x[j])
    ensures g < |x| && ReasonText(t, p) == x[g..]
    ensures forall k :: 0 <= k < g ==> IsSpace(x[k])
  {
    var r := SkipSpace(t, p);
    assert t[p + j] == x[j];
    g := r - p;
    forall k | r <= k < |t|
      ensures t[k] != '\n'
    {
      assert t[k] == x[k - p];
    }
    assert LineEnd(t, r) == |t|;
    assert t[r..] == x[g..];
    forall k | 0 <= k < g
      ensures IsSpace(x[k])
    {
      assert x[k] == t[p + k];
      RegexSpaceIsSpace(x[k]);
    }
  }

  /** Without a `//` after the rules there is no reason. */
  lemma NoReasonWithoutSlashes(text: string, line: int, rules: string, rest: string)
    requires text == "//nolint:" + rules + rest
    requires rules != [] && AllRuleChars(rules)
    requires rest == [] || !IsRuleChar(rest[0])
    requires '/' !in rest
    ensures Parse(text, line).Some?
    ensures Parse(text, line).value.rules == RulesOf(Split(rules, ','))
    ensures Parse(text, line).value.reason == ""
  {
    var e := 9 + |rules|;
    var head := "//nolint:" + rules;
    assert text[..e] == head && text[e..] == rest;
    assert text[..9] == head[..9] == "//nolint:" && text[9..e] == head[9..] == rules;
    if rest != [] {
      assert text[e] == rest[0];
    }
    forall k | e <= k < |text|
      ensures text[k] != '/'
    {
      assert text[k] == rest[k - e];
    }
    NolintRulesGroup(text, rules);
    NoReasonGroup(text, e);
  }

  /** Group 2 does not match where no '/' follows. */
  lemma NoReasonGroup(t: string, e: nat)
    requires e <= |t| && forall k :: e <= k < |t| ==> t[k] != '/'
    ensures ReasonGroup(t, e) == ""
  {
    if e < |t| && IsRegexSpace(t[e]) {
      var q := SkipSpace(t, e);
      if q + 2 <= |t| {
        assert t[q..q + 2][0] == t[q] != '/';
      }
    }
  }

  /** A comment that starts with `//nolint` matches at its start, and group 1
   *  is tried right after "nolint". */
  lemma MarkerAtStart(t: string)
    requires |t| >= 8 && t[..8] == "//nolint"
    ensures FindMarker(t, 0) == 0 && SkipSpace(t, 2) + 6 == 8
  {
    assert t[0..2] == "//" && t[2] == 'n';
    assert SkipSpace(t, 2) == 2;
    assert t[2..][..6] == "nolint";
    assert MarkerAt(t, 0);
  }

  lemma NolintRulesGroup(t: string, rules: string)
    requires |t| >= 9 + |rules| && t[..9] == "//nolint:" && t[9..9 + |rules|] == rules
    requires rules != [] && AllRuleChars(rules)
    requires |t| == 9 + |rules| || !IsRuleChar(t[9 + |rules|])
    ensures FindSubmatch(t) == Some(Submatch(rules, ReasonGroup(t, 9 + |rules|)))
  {
    MarkerAtStart(t);
    assert t[8] == ':';
    assert IsRuleChar(t[9]) by { assert t[9] == rules[0]; }
    var e := 9 + |rules|;
    assert forall k :: 9 <= k < e ==> IsRuleChar(t[k]) by {
      forall k | 9 <= k < e
        ensures IsRuleChar(t[k])
      {
        assert t[k] == rules[k - 9];
      }
    }
    assert RulesGroup(t, 8) == (rules, e);
  }

  /** The case from the package's tests: a rule list, then a reason. */
  lemma ReasonExample(text: string)
    requires text == "//nolint:TAG001 // uses mapstructure instead"
    ensures Parse(text, 3) == Some(Directive(3, 0, ["TAG001"], "uses mapstructure instead"))
  {
    var rules, x := "TAG001", " uses mapstructure instead";
    ExampleParts(text, rules, x);
    ParsedReason(text, 3, rules, " ", x);
    SingleRule();
    ExampleReasonTrimmed();
  }

  lemma ExampleParts(text: string, rules: string, x: string)
    requires text == "//nolint:TAG001 // uses mapstructure instead"
    requires rules == "TAG001" && x == " uses mapstructure instead"
    ensures text == "//nolint:" + rules + " " + "//" + x
    ensures AllRuleChars(rules) && '\n' !in x && !IsRegexSpace(x[1])
  {
    ExampleSplit(text, rules, x);
    ExampleLine(x);
    assert forall j :: 0 <= j < |rules| ==> IsRuleChar(rules[j]);
  }

  lemma ExampleSplit(text: string, rules: string, x: string)
    requires text == "//nolint:TAG001 // uses mapstructure instead"
    requires rules == "TAG001" && x == " uses mapstructure instead"
    ensures text == "//nolint:" + rules + " " + "//" + x
  {
  }

  lemma ExampleLine(x: string)
    requires x == " uses mapstructure instead"
    ensures '\n' !in x && !IsRegexSpace(x[1])
  {
  }

  lemma SingleRule()
    ensures RulesOf(Split("TAG001", ',')) == ["TAG001"]
  {
    assert IndexOf("TAG001", ',') == -1;
    assert Split("TAG001", ',') == ["TAG001"];
    TrimSpaceOfTrimmed("TAG001");
    assert RulesOf(["TAG001"]) == [TrimSpace("TAG001")];
  }

  lemma ExampleReasonTrimmed()
    ensures TrimSpace(" uses mapstructure instead") == "uses mapstructure instead"
  {
    var x := " uses mapstructure instead";
    TrimSpaceDropLeading(x, 1);
    assert x[1..] == "uses mapstructure instead";
    TrimSpaceOfTrimmed("uses mapstructure instead");
  }

  // ---------------------------------------------------------------------------
  // Extract: struct scopes, then every comment of the file.

  /** The (key, end line) a node contributes to `structScopes`: a type spec whose
   *  type is a struct, keyed by the line above its name. */
  function StructScope(n: Node): Option<(int, int)>
  {
    if n.TypeSpec? && n.ttype.StructType? then Some((n.tname.pos.line - 1, n.ttype.rbrace.line))
    else None
  }

  /** `structScopes` after the callback has seen `nodes`, in order. */
  function ScopesOf(nodes: seq<Node>): map<int, int>
  {
    if nodes == [] then map[]
    else
      var m := ScopesOf(nodes[..|nodes| - 1]);
      var s := StructScope(nodes[|nodes| - 1]);
      if s.Some? then m[s.value.0 := s.value.1] else m
  }

  /** A key is present exactly when some struct type spec sits on the next line. */
  lemma {:induction false} ScopesOfKeys(nodes: seq<Node>, key: int)
    ensures key in ScopesOf(nodes) <==>
      exists j :: 0 <= j < |nodes| && StructScope(nodes[j]).Some? && StructScope(nodes[j]).value.0 == key
  {
    if nodes != [] {
      var init := nodes[..|nodes| - 1];
      ScopesOfKeys(init, key);
      assert forall j :: 0 <= j < |init| ==> init[j] == nodes[j];
    }
  }

  /** `nodes[j]` is the last struct type spec keyed `key`, and it ends on `end`. */
  predicate LastScopeAt(nodes: seq<Node>, j: int, key: int, end: int)
  {
    0 <= j < |nodes| && StructScope(nodes[j]) == Some((key, end))
    && forall j' :: j < j' < |nodes| && StructScope(nodes[j']).Some? ==> StructScope(nodes[j']).value.0 != key
  }

  /** A key's end line comes from the last struct type spec in walk order that
   *  sits on the next line. */
  lemma {:induction false} ScopesOfLastWins(nodes: seq<Node>, key: int)
    requires key in ScopesOf(nodes)
    ensures exists j :: LastScopeAt(nodes, j, key, ScopesOf(nodes)[key])
  {
    var init := nodes[..|nodes| - 1];
    var s := StructScope(nodes[|nodes| - 1]);
    if s.Some? && s.value.0 == key {
      assert LastScopeAt(nodes, |nodes| - 1, key, ScopesOf(nodes)[key]);
    } else {
      ScopesOfLastWins(init, key);
      var j :| LastScopeAt(init, j, key, ScopesOf(init)[key]);
      assert nodes[j] == init[j];
      assert forall j' :: j < j' < |init| ==> nodes[j'] == init[j'];
      assert LastScopeAt(nodes, j, key, ScopesOf(nodes)[key]);
    }
  }

  function Widen(d: Directive, scopes: map<int, int>): Directive
  {
    if d.line in scopes then d.(endLine := scopes[d.line]) else d
  }

  /** The directives of one comment group's comments, widened. */
  function GroupDirectives(cs: seq<Node>, scopes: map<int, int>): seq<Directive>
  {
    if cs == [] then []
    else
      var rest := GroupDirectives(cs[..|cs| - 1], scopes);
      var c := cs[|cs| - 1];
      if c.Comment? && Parse(c.text, c.pos.line).Some? then rest + [Widen(Parse(c.text, c.pos.line).value, scopes)]
      else rest
  }

  function FileDirectives(groups: seq<Node>, scopes: map<int, int>): seq<Directive>
  {
    if groups == [] then []
    else
      var g := groups[|groups| - 1];
      FileDirectives(groups[..|groups| - 1], scopes)
        + (if g.CommentGroup? then GroupDirectives(g.list, scopes) else [])
  }

  /** What `Extract` returns for a file. */
  function Extracted(file: Node): seq<Directive>
    requires file.File?
  {
    FileDirectives(file.comments, ScopesOf(Preorder(file)))
  }

  /** `Extract`. */
  method Extract(file: Node) returns (directives: seq<Directive>)
    requires file.File?
    ensures directives == Extracted(file)
  {
    var nodes := Inspect(file, NoPrune);
    var structScopes := CollectStructScopes(nodes);
    directives := [];
    var g := 0;
    while g < |file.comments|
      invariant 0 <= g <= |file.comments|
      invariant directives == FileDirectives(file.comments[..g], structScopes)
    {
      assert file.comments[..g + 1][..g] == file.comments[..g];
      var cg := file.comments[g];
      if cg.CommentGroup? {
        var ds := GroupComments(cg.list, structScopes);
        directives := directives + ds;
      }
      g := g + 1;
    }
    assert file.comments[..g] == file.comments;
  }

  /** The `ast.Inspect` callback of `Extract`, run over the visited nodes. */
  method CollectStructScopes(nodes: seq<Node>) returns (structScopes: map<int, int>)
    ensures structScopes == ScopesOf(nodes)
  {
    structScopes := map[];
    var i := 0;
    while i < |nodes|
      invariant 0 <= i <= |nodes|
      invariant structScopes == ScopesOf(nodes[..i])
    {
      assert nodes[..i + 1][..i] == nodes[..i];
      var n := nodes[i];
      if n.TypeSpec? && n.ttype.StructType? {
        var startLine := n.tname.pos.line;
        var endLine := n.ttype.rbrace.line;
        structScopes := structScopes[startLine - 1 := endLine];
      }
      i := i + 1;
    }
    assert nodes[..i] == nodes;
  }

  /** The inner comment loop of `Extract`, over one comment group. */
  method GroupComments(list: seq<Node>, structScopes: map<int, int>) returns (directives: seq<Directive>)
    ensures directives == GroupDirectives(list, structScopes)
  {
    directives := [];
    var j := 0;
    while j < |list|
      invariant 0 <= j <= |list|
      invariant directives == GroupDirectives(list[..j], structScopes)
    {
      assert list[..j + 1][..j] == list[..j];
      var c := list[j];
      if c.Comment? {
        var d, ok := ParseComment(c.text, c.pos.line);
        if ok {
          if d.line in structScopes {
            d := d.(endLine := structScopes[d.line]);
          }
          directives := directives + [d];
        }
      }
      j := j + 1;
    }
    assert list[..j] == list;
  }

  /** Only the directive on the line just above a struct spec is widened, to the
   *  struct's end line; every other directive keeps `endLine` 0. */
  lemma {:induction false} WidenedExactly(cs: seq<Node>, scopes: map<int, int>)
    ensures forall d :: d in GroupDirectives(cs, scopes) ==>
      (d.line in scopes ==> d.endLine == scopes[d.line]) && (d.line !in scopes ==> d.endLine == 0)
  {
    if cs != [] {
      WidenedExactly(cs[..|cs| - 1], scopes);
    }
  }

  lemma {:induction false} ExtractedWidenedExactly(groups: seq<Node>, scopes: map<int, int>)
    ensures forall d :: d in FileDirectives(groups, scopes) ==>
      (d.line in scopes ==> d.endLine == scopes[d.line]) && (d.line !in scopes ==> d.endLine == 0)
  {
    if groups != [] {
      ExtractedWidenedExactly(groups[..|groups| - 1], scopes);
      var g := groups[|groups| - 1];
      if g.CommentGroup? {
        WidenedExactly(g.list, scopes);
      }
    }
  }

  // ---------------------------------------------------------------------------
  // Filter.

  /** A directive covers its own line, the line below it, and (when widened) the
   *  lines after it up to the struct's end. */
  predicate Covers(d: Directive, line: int)
  {
    d.line == line || d.line == line - 1 || (d.endLine > 0 && d.line < line <= d.endLine)
  }

  predicate Suppressed(rule: string, line: int, ds: seq<Directive>)
  {
    exists d :: d in ds && Match(d, rule) && Covers(d, line)
  }

  /** The violations no directive suppresses, in their original order. */
  function Kept<V>(vs: seq<V>, ds: seq<Directive>, rule: V -> string, line: V -> int): seq<V>
  {
    if vs == [] then []
    else
      var rest := Kept(vs[..|vs| - 1], ds, rule, line);
      var v := vs[|vs| - 1];
      if Suppressed(rule(v), line(v), ds) then rest else rest + [v]
  }

  /** What `Filter` returns. */
  function Filtered<V>(vs: seq<V>, ds: seq<Directive>, rule: V -> string, line: V -> int): seq<V>
  {
    if |ds| == 0 then vs else Kept(vs, ds, rule, line)
  }

  /** The directives of `ds` on line `k`, in order (one `lineMap` entry). */
  function OnLine(ds: seq<Directive>, k: int): seq<Directive>
  {
    if ds == [] then []
    else OnLine(ds[..|ds| - 1], k) + (if ds[|ds| - 1].line == k then [ds[|ds| - 1]] else [])
  }

  lemma {:induction false} OnLineMembers(ds: seq<Directive>, k: int)
    ensures forall d :: d in OnLine(ds, k) <==> d in ds && d.line == k
  {
    if ds != [] {
      OnLineMembers(ds[..|ds| - 1], k);
      assert ds == ds[..|ds| - 1] + [ds[|ds| - 1]];
    }
  }

  /** `lineMap` groups `ds` by line. */
  ghost predicate IndexedByLine(lineMap: map<int, seq<Directive>>, ds: seq<Directive>)
  {
    (forall k :: k in lineMap <==> OnLine(ds, k) != [])
    && (forall k :: k in lineMap ==> lineMap[k] == OnLine(ds, k))
  }

  /** The inner loop over one `lineMap` entry: is some directive there a match? */
  method AnyMatch(directives: seq<Directive>, rule: string) returns (found: bool)
    ensures found <==> exists d :: d in directives && Match(d, rule)
  {
    var j := 0;
    while j < |directives|
      invariant 0 <= j <= |directives|
      invariant forall k :: 0 <= k < j ==> !Match(directives[k], rule)
    {
      if Match(directives[j], rule) {
        return true;
      }
      j := j + 1;
    }
    return false;
  }

  /** `isSuppressed`. */
  method IsSuppressed<V>(v: V, lineMap: map<int, seq<Directive>>, allDirectives: seq<Directive>,
                         rule: V -> string, line: V -> int) returns (b: bool)
    requires IndexedByLine(lineMap, allDirectives)
    ensures b == Suppressed(rule(v), line(v), allDirectives)
  {
    var l := line(v);
    var checkLines := [l, l - 1];
    var c := 0;
    while c < 2
      invariant 0 <= c <= 2
      invariant forall d :: d in allDirectives && Match(d, rule(v)) ==> d.line !in checkLines[..c]
    {
      var checkLine := checkLines[c];
      OnLineMembers(allDirectives, checkLine);
      if checkLine in lineMap {
        var found := AnyMatch(lineMap[checkLine], rule(v));
        if found {
          return true;
        }
      }
      assert checkLines[..c + 1] == checkLines[..c] + [checkLine];
      c := c + 1;
    }
    var j := 0;
    while j < |allDirectives|
      invariant 0 <= j <= |allDirectives|
      invariant forall k :: 0 <= k < j && Match(allDirectives[k], rule(v)) ==>
        !(allDirectives[k].endLine > 0 && l > allDirectives[k].line && l <= allDirectives[k].endLine)
    {
      var d := allDirectives[j];
      if d.endLine > 0 && l > d.line && l <= d.endLine {
        if Match(d, rule(v)) {
          assert Covers(d, l);
          return true;
        }
      }
      j := j + 1;
    }
    assert checkLines[..2] == [l, l - 1];
    return false;
  }

  /** `Filter`. */
  method Filter<V>(violations: seq<V>, directives: seq<Directive>, rule: V -> string, line: V -> int)
    returns (filtered: seq<V>)
    ensures filtered == Filtered(violations, directives, rule, line)
  {
    if |directives| == 0 {
      return violations;
    }
    var lineMap := IndexLines(directives);
    filtered := [];
    var j := 0;
    while j < |violations|
      invariant 0 <= j <= |violations|
      invariant filtered == Kept(violations[..j], directives, rule, line)
    {
      var v := violations[j];
      KeptSnoc(violations, j, directives, rule, line);
      var s := IsSuppressed(v, lineMap, directives, rule, line);
      if !s {
        filtered := filtered + [v];
      }
      j := j + 1;
    }
    assert violations[..j] == violations;
  }

  lemma KeptSnoc<V>(vs: seq<V>, j: int, ds: seq<Directive>, rule: V -> string, line: V -> int)
    requires 0 <= j < |vs|
    ensures Kept(vs[..j + 1], ds, rule, line)
         == Kept(vs[..j], ds, rule, line) + (if Suppressed(rule(vs[j]), line(vs[j]), ds) then [] else [vs[j]])
  {
    assert vs[..j + 1][..j] == vs[..j];
  }

  /** The first loop of `Filter`: the directives grouped by line, in order. */
  method IndexLines(directives: seq<Directive>) returns (lineMap: map<int, seq<Directive>>)
    ensures IndexedByLine(lineMap, directives)
  {
    lineMap := map[];
    var i := 0;
    while i < |directives|
      invariant 0 <= i <= |directives|
      invariant IndexedByLine(lineMap, directives[..i])
    {
      var d := directives[i];
      OnLineSnoc(directives, i);
      lineMap := lineMap[d.line := (if d.line in lineMap then lineMap[d.line] else []) + [d]];
      i := i + 1;
    }
    assert directives[..i] == directives;
  }

  lemma OnLineSnoc(ds: seq<Directive>, i: int)
    requires 0 <= i < |ds|
    ensures forall k :: OnLine(ds[..i + 1], k) == OnLine(ds[..i], k) + (if ds[i].line == k then [ds[i]] else [])
  {
    assert ds[..i + 1][..i] == ds[..i];
  }

  // ---------------------------------------------------------------------------
  // Properties of the filter.

  /** `a` is `b` with some elements removed, order kept. */
  ghost predicate IsSubsequence<V>(a: seq<V>, b: seq<V>)
    decreases |b|
  {
    a == []
    || (b != []
        && ((a[|a| - 1] == b[|b| - 1] && IsSubsequence(a[..|a| - 1], b[..|b| - 1]))
            || IsSubsequence(a, b[..|b| - 1])))
  }

  lemma {:induction false} KeptSubsequence<V>(vs: seq<V>, ds: seq<Directive>, rule: V -> string, line: V -> int)
    ensures IsSubsequence(Kept(vs, ds, rule, line), vs)
  {
    if vs != [] {
      var init := vs[..|vs| - 1];
      KeptSubsequence(init, ds, rule, line);
      var v := vs[|vs| - 1];
      var k := Kept(init, ds, rule, line);
      if !Suppressed(rule(v), line(v), ds) {
        assert (k + [v])[..|k|] == k;
      }
    }
  }

  lemma {:induction false} KeptMembers<V>(vs: seq<V>, ds: seq<Directive>, rule: V -> string, line: V -> int)
    ensures forall v :: v in Kept(vs, ds, rule, line) <==> v in vs && !Suppressed(rule(v), line(v), ds)
  {
    if vs != [] {
      KeptMembers(vs[..|vs| - 1], ds, rule, line);
      assert vs == vs[..|vs| - 1] + [vs[|vs| - 1]];
    }
  }

  lemma {:induction false} KeptIdempotent<V>(vs: seq<V>, ds: seq<Directive>, rule: V -> string, line: V -> int)
    ensures Kept(Kept(vs, ds, rule, line), ds, rule, line) == Kept(vs, ds, rule, line)
  {
    if vs != [] {
      var init := vs[..|vs| - 1];
      var v := vs[|vs| - 1];
      KeptIdempotent(init, ds, rule, line);
      var k := Kept(init, ds, rule, line);
      if !Suppressed(rule(v), line(v), ds) {
        assert (k + [v])[..|k + [v]| - 1] == k;
      }
    }
  }

  lemma {:induction false} KeptNothingSuppressed<V>(vs: seq<V>, rule: V -> string, line: V -> int)
    ensures Kept(vs, [], rule, line) == vs
  {
    if vs != [] {
      KeptNothingSuppressed(vs[..|vs| - 1], rule, line);
      assert vs[..|vs| - 1] + [vs[|vs| - 1]] == vs;
    }
  }

  /** `Filter` without directives returns its input; with directives it keeps,
   *  order preserved, exactly the violations that no directive suppresses. */
  lemma FilterFacts<V>(vs: seq<V>, ds: seq<Directive>, rule: V -> string, line: V -> int)
    ensures |ds| == 0 ==> Filtered(vs, ds, rule, line) == vs
    ensures IsSubsequence(Filtered(vs, ds, rule, line), vs)
    ensures forall v :: v in Filtered(vs, ds, rule, line) <==> v in vs && !Suppressed(rule(v), line(v), ds)
  {
    KeptSubsequence(vs, ds, rule, line);
    KeptMembers(vs, ds, rule, line);
    if |ds| == 0 {
      SubsequenceRefl(vs);
    }
  }

  lemma {:induction false} SubsequenceRefl<V>(vs: seq<V>)
    ensures IsSubsequence(vs, vs)
  {
    if vs != [] {
      SubsequenceRefl(vs[..|vs| - 1]);
    }
  }

  /** Re-filtering the output with the same directives changes nothing. */
  lemma FilterIdempotent<V>(vs: seq<V>, ds: seq<Directive>, rule: V -> string, line: V -> int)
    ensures Filtered(Filtered(vs, ds, rule, line), ds, rule, line) == Filtered(vs, ds, rule, line)
  {
    if |ds| > 0 {
      KeptIdempotent(vs, ds, rule, line);
    }
  }
}
