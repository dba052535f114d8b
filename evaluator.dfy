/** The evaluator's own logic (internal/evaluator/evaluator.go): the capability
 *  list the policies are compiled against, and the decoding of the policy
 *  engine's nested result into violations. The engine itself is outside the
 *  model; its result arrives as a `Value`. */
module Evaluator {
  import opened Wrappers
  import opened Model
  import opened Seqs

  // ---------------------------------------------------------------------------
  // filteredCapabilities

  /** The built-ins that can reach the network or the host. */
  const DangerousBuiltins: set<string> := {"http.send", "net.lookup_ip_addr", "opa.runtime"}

  predicate Allowed(name: string)
  {
    name !in DangerousBuiltins
  }

  /** The engine capabilities that matter here: the built-in names, the hosts
   *  network built-ins may reach (`None` = no restriction, Go's nil list) and
   *  the remaining feature flags. */
  datatype Capabilities = Capabilities(builtins: seq<string>, allowNet: Option<seq<string>>, features: seq<string>)

  /** `filteredCapabilities`, from the engine's own capabilities `caps`. */
  method FilteredCapabilities(caps: Capabilities) returns (r: Capabilities)
    ensures r == caps.(builtins := Filter(caps.builtins, Allowed), allowNet := Some([]))
  {
    var filtered: seq<string> := [];
    var i := 0;
    while i < |caps.builtins|
      invariant 0 <= i <= |caps.builtins|
      invariant filtered == Filter(caps.builtins[..i], Allowed)
    {
      assert caps.builtins[..i + 1][..i] == caps.builtins[..i];
      var b := caps.builtins[i];
      if b !in DangerousBuiltins {
        filtered := filtered + [b];
      }
      i := i + 1;
    }
    assert caps.builtins[..|caps.builtins|] == caps.builtins;
    r := caps.(allowNet := Some([]), builtins := filtered);
  }

  /** A built-in stays exactly when it is not one of the three dangerous ones;
   *  none of them survives, a list without them is unchanged, and no host is
   *  reachable. */
  lemma CapabilitiesFacts(caps: Capabilities, name: string)
    ensures name in Filter(caps.builtins, Allowed) <==> name in caps.builtins && name !in DangerousBuiltins
    ensures "http.send" !in Filter(caps.builtins, Allowed)
    ensures (forall k :: 0 <= k < |caps.builtins| ==> Allowed(caps.builtins[k])) ==> Filter(caps.builtins, Allowed) == caps.builtins
  {
    FilterMembers(caps.builtins, Allowed, name);
    FilterMembers(caps.builtins, Allowed, "http.send");
    if forall k :: 0 <= k < |caps.builtins| ==> Allowed(caps.builtins[k]) {
      FilterAll(caps.builtins, Allowed);
    }
  }

  // ---------------------------------------------------------------------------
  // The decoded result

  /** The dynamic values the engine's result is made of: lists (`[]any`),
   *  string-keyed mappings (`map[string]any`), and scalars. `Float` carries the
   *  value its truncation to an integer gives; `Number` is a decimal number kept
   *  as text (`json.Number`). */
  datatype Value =
    | List(items: seq<Value>)
    | Object(fields: map<string, Value>)
    | Str(s: string)
    | Int(i: int)
    | Int64(i: int)
    | Float(truncated: int)
    | Number(text: string)
    | Bool(b: bool)
    | Null

  /** A mapping lookup; a missing key reads as nil. */
  function Field(m: map<string, Value>, key: string): Value
  {
    if key in m then m[key] else Null
  }

  /** `toString`. */
  function ToString(v: Value): string
  {
    if v.Str? then v.s else ""
  }

  // ---------------------------------------------------------------------------
  // toInt and json.Number

  const MinInt64: int := -0x8000_0000_0000_0000
  const MaxInt64: int := 0x7FFF_FFFF_FFFF_FFFF

  predicate IsDigit(c: char)
  {
    '0' <= c <= '9'
  }

  predicate AllDigits(s: string)
  {
    forall k :: 0 <= k < |s| ==> IsDigit(s[k])
  }

  /** The value of a string of decimal digits. */
  function DigitsValue(s: string): nat
    requires AllDigits(s)
  {
    if s == [] then 0 else DigitsValue(s[..|s| - 1]) * 10 + (s[|s| - 1] - '0') as int
  }

  /** `json.Number.Int64`, which is `strconv.ParseInt(s, 10, 64)` with its error
   *  dropped: an optional sign, then one or more decimal digits; anything else
   *  gives 0, and a value out of range gives the nearest bound. */
  function ParseInt64(s: string): (r: int)
    ensures MinInt64 <= r <= MaxInt64
  {
    var signed := |s| > 0 && (s[0] == '+' || s[0] == '-');
    var body := if signed then s[1..] else s;
    if body == [] || !AllDigits(body) then 0
    else
      var u: int := DigitsValue(body);
      if signed && s[0] == '-' then (if u > -MinInt64 then MinInt64 else -u)
      else (if u > MaxInt64 then MaxInt64 else u)
  }

  /** `toInt`: Go integers are kept, a number is parsed, anything else is 0. */
  function ToInt(v: Value): int
  {
    match v
    case Int(i) => i
    case Int64(i) => i
    case Float(t) => t
    case Number(text) => ParseInt64(text)
    case _ => 0
  }

  /** The decimal digits of `n`, as `strconv.FormatInt` writes them. */
  function Decimal(n: nat): (r: string)
    ensures |r| > 0 && AllDigits(r)
  {
    if n < 10 then [('0' as int + n) as char]
    else Decimal(n / 10) + [('0' as int + n % 10) as char]
  }

  function FormatInt(i: int): string
  {
    if i < 0 then "-" + Decimal(-i) else Decimal(i)
  }

  lemma {:induction false} DigitsDecimal(n: nat)
    ensures DigitsValue(Decimal(n)) == n
  {
    if n >= 10 {
      var d := Decimal(n);
      assert d[..|d| - 1] == Decimal(n / 10);
      DigitsDecimal(n / 10);
    }
  }

  lemma ParseDecimal(n: nat)
    requires n <= MaxInt64
    ensures ParseInt64(Decimal(n)) == n
  {
    var d := Decimal(n);
    DigitsDecimal(n);
    assert d[0] != '+' && d[0] != '-' by { assert IsDigit(d[0]); }
  }

  lemma ParseNegatedDecimal(n: nat)
    requires 0 < n <= -MinInt64
    ensures ParseInt64("-" + Decimal(n)) == 0 - n as int
  {
    var d := Decimal(n);
    DigitsDecimal(n);
    assert ("-" + d)[1..] == d;
  }

  /** Parsing what `FormatInt` writes gives the number back, for every 64-bit
   *  value. */
  lemma ParseFormatInt(i: int)
    requires MinInt64 <= i <= MaxInt64
    ensures ParseInt64(FormatInt(i)) == i
    ensures ToInt(Number(FormatInt(i))) == i
  {
    if i < 0 {
      ParseNegatedDecimal(-i);
    } else {
      ParseDecimal(i);
    }
  }

  /** A malformed number is 0; a leading sign of either kind is accepted. */
  lemma ParseInt64Examples()
    ensures ParseInt64("") == 0 && ParseInt64("-") == 0 && ParseInt64("1.5") == 0
    ensures ParseInt64("+7") == 7 && ParseInt64("-0") == 0
  {
    assert !AllDigits("1.5") by { assert !IsDigit("1.5"[1]); }
    assert "+7"[1..] == "7" && "-0"[1..] == "0";
  }

  // ---------------------------------------------------------------------------
  // parseViolation and parseFix

  /** A position mapping: the file when it is a string, the line and column
   *  through `toInt`. */
  function PositionOf(m: map<string, Value>): Position
  {
    Position(ToString(Field(m, "file")), ToInt(Field(m, "line")), ToInt(Field(m, "column")))
  }

  /** The position a mapping holds under "position", the zero position when that
   *  is not a mapping. */
  function PositionField(m: map<string, Value>): Position
  {
    var pos := Field(m, "position");
    if pos.Object? then PositionOf(pos.fields) else Position("", 0, 0)
  }

  /** The edit a list item decodes to; items that are not mappings are skipped. */
  function EditOf(e: Value): Option<FixEdit>
  {
    if e.Object? then
      Some(FixEdit(
        position := PositionField(e.fields),
        oldText := ToString(Field(e.fields, "old_text")),
        newText := ToString(Field(e.fields, "new_text"))))
    else None
  }

  /** The fix a "fix" mapping decodes to. */
  function FixOf(m: map<string, Value>): Fix
  {
    var edits := Field(m, "edits");
    Fix(
      description := ToString(Field(m, "description")),
      edits := if edits.List? then Collect(edits.items, EditOf) else [])
  }

  /** `parseFix`. */
  method ParseFix(m: map<string, Value>) returns (fix: Fix)
    ensures fix == FixOf(m)
  {
    var description := "";
    if "description" in m && m["description"].Str? {
      description := m["description"].s;
    }
    var edits: seq<FixEdit> := [];
    if "edits" in m && m["edits"].List? {
      var items := m["edits"].items;
      var i := 0;
      while i < |items|
        invariant 0 <= i <= |items|
        invariant edits == Collect(items[..i], EditOf)
      {
        assert items[..i + 1][..i] == items[..i];
        var e := items[i];
        if e.Object? {
          var edit := FixEdit(Position("", 0, 0), ToString(Field(e.fields, "old_text")), ToString(Field(e.fields, "new_text")));
          var pos := Field(e.fields, "position");
          if pos.Object? {
            edit := FixEdit(PositionOf(pos.fields), edit.oldText, edit.newText);
          }
          edits := edits + [edit];
        }
        i := i + 1;
      }
      assert items[..|items|] == items;
    }
    fix := Fix(description, edits);
  }

  /** The edits of a fix: one per mapping of the "edits" list, in order, each
   *  with texts that are "" unless given as strings. */
  lemma FixFacts(m: map<string, Value>)
    ensures var edits := Field(m, "edits");
      edits.List? ==> |FixOf(m).edits| == CountIf(edits.items, IsObject)
    ensures !Field(m, "edits").List? ==> FixOf(m).edits == []
    ensures Field(m, "description").Str? ==> FixOf(m).description == Field(m, "description").s
    ensures !Field(m, "description").Str? ==> FixOf(m).description == ""
  {
    var edits := Field(m, "edits");
    if edits.List? {
      CollectCount(edits.items, EditOf, IsObject);
    }
  }

  predicate IsObject(v: Value)
  {
    v.Object?
  }

  /** `parseViolation`: only a mapping is a violation; each field is taken when
   *  it has the right shape and left empty otherwise. */
  function ParseViolation(v: Value): Result<Violation>
  {
    if !v.Object? then Failure("invalid violation format")
    else
      var m := v.fields;
      var fix := Field(m, "fix");
      Success(Violation(
        message := ToString(Field(m, "message")),
        rule := ToString(Field(m, "rule")),
        severity := ToString(Field(m, "severity")),
        position := PositionField(m),
        fix := if fix.Object? then Some(FixOf(fix.fields)) else None))
  }

  /** A violation is decoded from exactly the mappings; a string field is copied
   *  and any other value leaves it empty; a fix is present exactly when "fix"
   *  is a mapping. */
  lemma ParseViolationFacts(v: Value, key: string)
    requires key in {"message", "rule", "severity"}
    ensures ParseViolation(v).Success? <==> v.Object?
    ensures v.Object? && Field(v.fields, key).Str? ==>
      var r := ParseViolation(v).value;
      (if key == "message" then r.message else if key == "rule" then r.rule else r.severity) == Field(v.fields, key).s
    ensures v.Object? && !Field(v.fields, key).Str? ==>
      var r := ParseViolation(v).value;
      (if key == "message" then r.message else if key == "rule" then r.rule else r.severity) == ""
    ensures v.Object? ==> (ParseViolation(v).value.fix.Some? <==> Field(v.fields, "fix").Object?)
    ensures v.Object? && !Field(v.fields, "position").Object? ==> ParseViolation(v).value.position == Position("", 0, 0)
  {
  }

  // ---------------------------------------------------------------------------
  // extractFromValue

  /** The violations a value yields, counted with multiplicity: a list yields
   *  what its items yield, where a mapping item is one violation and any other
   *  item is walked; a mapping with "message" is one violation; any other
   *  mapping yields what its values yield; a scalar yields nothing. */
  ghost function Extracted(v: Value): multiset<Violation>
    decreases v, 2
  {
    match v
    case List(items) => ItemsExtracted(items, v)
    case Object(m) =>
      if "message" in m then multiset{ParseViolation(v).value} else FieldsExtracted(m, m.Keys)
    case _ => multiset{}
  }

  /** What the items of a list yield (`parent` only bounds the recursion). */
  ghost function ItemsExtracted(items: seq<Value>, parent: Value): multiset<Violation>
    requires forall k :: 0 <= k < |items| ==> items[k] < parent
    decreases parent, 1, |items|
  {
    if items == [] then multiset{}
    else
      var x := items[|items| - 1];
      ItemsExtracted(items[..|items| - 1], parent) + ItemExtracted(x, parent)
  }

  ghost function ItemExtracted(x: Value, parent: Value): multiset<Violation>
    requires x < parent
    decreases parent, 0
  {
    match ParseViolation(x)
    case Success(viol) => multiset{viol}
    case Failure(_) => Extracted(x)
  }

  /** What the values under `keys` of a mapping yield, in any order. */
  ghost function FieldsExtracted(m: map<string, Value>, keys: set<string>): multiset<Violation>
    requires keys <= m.Keys
    decreases Object(m), 1, keys
  {
    if keys == {} then multiset{}
    else
      var k :| k in keys;
      Extracted(m[k]) + FieldsExtracted(m, keys - {k})
  }

  /** The yield of a mapping's values does not depend on the order they are
   *  visited in: any key can be taken first. */
  lemma {:induction false} FieldsExtractedPick(m: map<string, Value>, keys: set<string>, k: string)
    requires keys <= m.Keys && k in keys
    ensures FieldsExtracted(m, keys) == Extracted(m[k]) + FieldsExtracted(m, keys - {k})
    decreases keys
  {
    var j :| j in keys && FieldsExtracted(m, keys) == Extracted(m[j]) + FieldsExtracted(m, keys - {j});
    if j != k {
      FieldsExtractedPick(m, keys - {j}, k);
      FieldsExtractedPick(m, keys - {k}, j);
      assert keys - {j} - {k} == keys - {k} - {j};
    }
  }

  predicate AllMappings(items: seq<Value>)
  {
    forall k :: 0 <= k < |items| ==> items[k].Object?
  }

  /** The violations of a list of mappings, one per mapping in list order. */
  function MappingViolations(items: seq<Value>): seq<Violation>
    requires AllMappings(items)
  {
    seq(|items|, k requires 0 <= k < |items| => ParseViolation(items[k]).value)
  }

  /** `extractFromValue`; a mapping's values are visited in an order the model
   *  does not fix, as Go's map iteration does not. */
  method ExtractFromValue(v: Value) returns (violations: seq<Violation>)
    ensures multiset(violations) == Extracted(v)
    ensures !v.List? && !v.Object? ==> violations == []
    ensures v.Object? && "message" in v.fields ==> violations == [ParseViolation(v).value]
    ensures v.List? && AllMappings(v.items) ==> violations == MappingViolations(v.items)
    decreases v, 2
  {
    match v
    case List(items) =>
      ghost var parts;
      violations, parts := ExtractFromItems(items, v);
    case Object(m) =>
      if "message" in m {
        var r := ParseViolation(v);
        violations := [r.value];
        return;
      }
      violations := ExtractFromFields(m);
    case _ =>
      violations := [];
  }

  /** The loop of the list case. The result is the items' contributions
   *  (`parts`) concatenated in list order: a mapping item contributes exactly its
   *  own violation, and any other item what walking it yields. */
  method ExtractFromItems(items: seq<Value>, ghost parent: Value) returns (violations: seq<Violation>, ghost parts: seq<seq<Violation>>)
    requires forall k :: 0 <= k < |items| ==> items[k] < parent
    ensures multiset(violations) == ItemsExtracted(items, parent)
    ensures |parts| == |items| && violations == Flatten(parts, Part)
    ensures forall k :: 0 <= k < |items| && items[k].Object? ==> parts[k] == [ParseViolation(items[k]).value]
    ensures AllMappings(items) ==> violations == MappingViolations(items)
    decreases parent, 1
  {
    violations := [];
    parts := [];
    var i := 0;
    while i < |items|
      invariant 0 <= i <= |items|
      invariant multiset(violations) == ItemsExtracted(items[..i], parent)
      invariant |parts| == i && violations == Flatten(parts, Part)
      invariant MappingParts(items, parts)
    {
      var part := ExtractFromItem(items[i], parent);
      ItemsSnoc(items, i, parent);
      PartsSnoc(parts, part);
      MappingPartsSnoc(items, parts, part);
      violations := violations + part;
      parts := parts + [part];
      i := i + 1;
    }
    assert items[..|items|] == items;
    if AllMappings(items) {
      FlattenSingletons(items, parts);
    }
  }

  /** One item of a list: a mapping is one violation, anything else is walked. */
  method ExtractFromItem(item: Value, ghost parent: Value) returns (part: seq<Violation>)
    requires item < parent
    ensures item.Object? ==> part == [ParseViolation(item).value]
    ensures multiset(part) == ItemExtracted(item, parent)
    decreases parent, 0
  {
    var r := ParseViolation(item);
    if r.Success? {
      part := [r.value];
    } else {
      part := ExtractFromValue(item);
    }
  }

  lemma ItemsSnoc(items: seq<Value>, i: int, parent: Value)
    requires 0 <= i < |items|
    requires forall k :: 0 <= k < |items| ==> items[k] < parent
    ensures ItemsExtracted(items[..i + 1], parent) == ItemsExtracted(items[..i], parent) + ItemExtracted(items[i], parent)
  {
    assert items[..i + 1][..i] == items[..i] && items[..i + 1][i] == items[i];
  }

  /** The parts of the mapping items among the first `|parts|` items are their
   *  own violations. */
  ghost predicate MappingParts(items: seq<Value>, parts: seq<seq<Violation>>)
  {
    |parts| <= |items|
    && forall k :: 0 <= k < |parts| && items[k].Object? ==> parts[k] == [ParseViolation(items[k]).value]
  }

  lemma MappingPartsSnoc(items: seq<Value>, parts: seq<seq<Violation>>, part: seq<Violation>)
    requires MappingParts(items, parts) && |parts| < |items|
    requires items[|parts|].Object? ==> part == [ParseViolation(items[|parts|]).value]
    ensures MappingParts(items, parts + [part])
  {
  }

  lemma PartsSnoc(parts: seq<seq<Violation>>, part: seq<Violation>)
    ensures Flatten(parts + [part], Part) == Flatten(parts, Part) + part
  {
    FlattenSnoc(parts + [part], |parts|, Part);
    assert (parts + [part])[..|parts|] == parts && (parts + [part])[..|parts| + 1] == parts + [part];
  }

  /** When every item is a mapping, the parts are single violations and their
   *  concatenation is the items' violations in list order. */
  lemma {:induction false} FlattenSingletons(items: seq<Value>, parts: seq<seq<Violation>>)
    requires |parts| == |items|
    requires forall k :: 0 <= k < |items| ==> items[k].Object? && parts[k] == [ParseViolation(items[k]).value]
    ensures Flatten(parts, Part) == MappingViolations(items)
    decreases |items|
  {
    if items != [] {
      var n := |items| - 1;
      FlattenSingletons(items[..n], parts[..n]);
      assert Flatten(parts, Part) == Flatten(parts[..n], Part) + parts[n];
      SingletonsSnoc(items);
    }
  }

  lemma SingletonsSnoc(items: seq<Value>)
    requires items != [] && AllMappings(items)
    ensures MappingViolations(items) == MappingViolations(items[..|items| - 1]) + [ParseViolation(items[|items| - 1]).value]
  {
  }

  /** A part is its own list of violations. */
  function Part(p: seq<Violation>): seq<Violation>
  {
    p
  }

  /** The loop over a mapping's values. */
  method ExtractFromFields(m: map<string, Value>) returns (violations: seq<Violation>)
    ensures multiset(violations) == FieldsExtracted(m, m.Keys)
    decreases Object(m), 0
  {
    violations := [];
    var keys := m.Keys;
    while keys != {}
      invariant keys <= m.Keys
      invariant multiset(violations) + FieldsExtracted(m, keys) == FieldsExtracted(m, m.Keys)
      decreases keys
    {
      var k :| k in keys;
      FieldsExtractedPick(m, keys, k);
      var nested := ExtractFromValue(m[k]);
      violations := violations + nested;
      keys := keys - {k};
    }
  }

  /** A scalar yields nothing, and a mapping with "message" yields exactly its own
   *  violation, whatever it nests. */
  lemma ExtractedLeaves(v: Value)
    ensures !v.List? && !v.Object? ==> |Extracted(v)| == 0
    ensures v.Object? && "message" in v.fields ==> Extracted(v) == multiset{ParseViolation(v).value}
  {
  }

  /** A list yields what its parts yield, and a single item yields one violation
   *  when it is a mapping (with or without "message") and its own yield
   *  otherwise. */
  lemma {:induction false} ExtractedList(a: seq<Value>, b: seq<Value>)
    ensures Extracted(List(a + b)) == Extracted(List(a)) + Extracted(List(b))
    decreases |b|
  {
    if b == [] {
      assert a + b == a;
    } else {
      var b' := b[..|b| - 1];
      var x := b[|b| - 1];
      assert (a + b)[..|a + b| - 1] == a + b' && (a + b)[|a + b| - 1] == x;
      ExtractedList(a, b');
      ItemsParent(a + b', List(a + b), List(a + b'));
      ItemsParent(b', List(b), List(b'));
      ItemParent(x, List(a + b), List(b));
    }
  }

  lemma ExtractedSingleton(x: Value)
    ensures Extracted(List([x])) == (if x.Object? then multiset{ParseViolation(x).value} else Extracted(x))
  {
    assert [x][..0] == [] && [x][0] == x;
    assert ItemsExtracted([x], List([x])) == ItemExtracted(x, List([x]));
  }

  /** The yield of items does not depend on the bound used for the recursion. */
  lemma {:induction false} ItemsParent(items: seq<Value>, p: Value, q: Value)
    requires forall k :: 0 <= k < |items| ==> items[k] < p
    requires forall k :: 0 <= k < |items| ==> items[k] < q
    ensures ItemsExtracted(items, p) == ItemsExtracted(items, q)
    decreases |items|
  {
    if items != [] {
      var x := items[|items| - 1];
      ItemsParent(items[..|items| - 1], p, q);
      ItemParent(x, p, q);
    }
  }

  lemma ItemParent(x: Value, p: Value, q: Value)
    requires x < p && x < q
    ensures ItemExtracted(x, p) == ItemExtracted(x, q)
  {
  }

  /** A mapping without "message" yields what its values yield: one key's value
   *  plus the rest of the mapping, for any key; the empty mapping yields nothing. */
  lemma ExtractedObject(m: map<string, Value>, k: string)
    requires "message" !in m && k in m
    ensures Extracted(Object(m)) == Extracted(m[k]) + Extracted(Object(m - {k}))
  {
    FieldsExtractedPick(m, m.Keys, k);
    var rest := m - {k};
    assert rest.Keys == m.Keys - {k};
    FieldsRestrict(m, rest, rest.Keys);
  }

  /** The yield of keys shared by two mappings that agree on them. */
  lemma {:induction false} FieldsRestrict(m: map<string, Value>, n: map<string, Value>, keys: set<string>)
    requires keys <= n.Keys && n.Keys <= m.Keys
    requires forall k :: k in n ==> n[k] == m[k]
    ensures FieldsExtracted(m, keys) == FieldsExtracted(n, keys)
    decreases keys
  {
    if keys != {} {
      var j :| j in keys && FieldsExtracted(n, keys) == Extracted(n[j]) + FieldsExtracted(n, keys - {j});
      FieldsExtractedPick(m, keys, j);
      FieldsRestrict(m, n, keys - {j});
    }
  }

  /** A list of mappings yields exactly one violation per mapping. */
  lemma {:induction false} ExtractedMappings(items: seq<Value>)
    requires forall k :: 0 <= k < |items| ==> items[k].Object?
    ensures |Extracted(List(items))| == |items|
    decreases |items|
  {
    if items != [] {
      var init := items[..|items| - 1];
      var x := items[|items| - 1];
      assert items == init + [x];
      ExtractedList(init, [x]);
      ExtractedSingleton(x);
      ExtractedMappings(init);
    }
  }

  // ---------------------------------------------------------------------------
  // extractViolations

  /** The result set of a query: per result, the values of its expressions. */
  ghost function ResultsExtracted(results: seq<seq<Value>>): multiset<Violation>
  {
    if results == [] then multiset{} else ResultsExtracted(results[..|results| - 1]) + ExpressionsExtracted(results[|results| - 1])
  }

  ghost function ExpressionsExtracted(exprs: seq<Value>): multiset<Violation>
  {
    if exprs == [] then multiset{} else ExpressionsExtracted(exprs[..|exprs| - 1]) + Extracted(exprs[|exprs| - 1])
  }

  /** A deny set as the policies produce it: a list of mappings. */
  predicate IsDenySet(v: Value)
  {
    v.List? && AllMappings(v.items)
  }

  /** The violations of a deny set, one per mapping in list order; a value that
   *  is not a deny set has no fixed order and is given none here. */
  function DenySet(v: Value): seq<Violation>
  {
    if IsDenySet(v) then MappingViolations(v.items) else []
  }

  predicate AllDenySets(exprs: seq<Value>)
  {
    forall j :: 0 <= j < |exprs| ==> IsDenySet(exprs[j])
  }

  /** The violations of one result whose expressions are all deny sets. */
  function DenySets(exprs: seq<Value>): seq<Violation>
  {
    Flatten(exprs, DenySet)
  }

  /** `extractViolations`: the results' contributions (`parts`) concatenated in
   *  slice order, each the yield of that result's expressions; when every
   *  expression is a deny set, exactly their violations in order. */
  method ExtractViolations(results: seq<seq<Value>>) returns (violations: seq<Violation>, ghost parts: seq<seq<Violation>>)
    ensures multiset(violations) == ResultsExtracted(results)
    ensures |parts| == |results| && violations == Flatten(parts, Part)
    ensures ResultParts(results, parts)
    ensures (forall i :: 0 <= i < |results| ==> AllDenySets(results[i])) ==> violations == Flatten(results, DenySets)
  {
    violations := [];
    parts := [];
    var i := 0;
    while i < |results|
      invariant 0 <= i <= |results|
      invariant multiset(violations) == ResultsExtracted(results[..i])
      invariant |parts| == i && violations == Flatten(parts, Part)
      invariant ResultParts(results, parts)
    {
      assert results[..i + 1][..i] == results[..i];
      ghost var exprParts;
      var vs;
      vs, exprParts := ExtractExpressions(results[i]);
      PartsSnoc(parts, vs);
      ResultPartsSnoc(results, parts, vs);
      violations := violations + vs;
      parts := parts + [vs];
      i := i + 1;
    }
    assert results[..|results|] == results;
    if forall i :: 0 <= i < |results| ==> AllDenySets(results[i]) {
      FlattenPointwise(results, parts, DenySets);
    }
  }

  /** The inner loop of `extractViolations`: the expressions' contributions
   *  (`parts`) concatenated in slice order, each the expression's yield, and
   *  exactly its violations for a deny set. */
  method ExtractExpressions(exprs: seq<Value>) returns (violations: seq<Violation>, ghost parts: seq<seq<Violation>>)
    ensures multiset(violations) == ExpressionsExtracted(exprs)
    ensures |parts| == |exprs| && violations == Flatten(parts, Part)
    ensures ExprParts(exprs, parts)
    ensures AllDenySets(exprs) ==> violations == DenySets(exprs)
  {
    violations := [];
    parts := [];
    var j := 0;
    while j < |exprs|
      invariant 0 <= j <= |exprs|
      invariant multiset(violations) == ExpressionsExtracted(exprs[..j])
      invariant |parts| == j && violations == Flatten(parts, Part)
      invariant ExprParts(exprs, parts)
    {
      var vs := ExtractFromValue(exprs[j]);
      ExpressionsSnoc(exprs, j);
      PartsSnoc(parts, vs);
      ExprPartsSnoc(exprs, parts, vs);
      violations := violations + vs;
      parts := parts + [vs];
      j := j + 1;
    }
    assert exprs[..|exprs|] == exprs;
    ExprPartsDenySets(exprs, parts);
  }

  /** The first `|parts|` expressions' parts are their yields, and exactly their
   *  violations for deny sets. */
  ghost predicate ExprParts(exprs: seq<Value>, parts: seq<seq<Violation>>)
  {
    |parts| <= |exprs|
    && forall j :: 0 <= j < |parts| ==>
      multiset(parts[j]) == Extracted(exprs[j]) && (IsDenySet(exprs[j]) ==> parts[j] == DenySet(exprs[j]))
  }

  lemma ExpressionsSnoc(exprs: seq<Value>, j: int)
    requires 0 <= j < |exprs|
    ensures ExpressionsExtracted(exprs[..j + 1]) == ExpressionsExtracted(exprs[..j]) + Extracted(exprs[j])
  {
    assert exprs[..j + 1][..j] == exprs[..j];
  }

  lemma ExprPartsSnoc(exprs: seq<Value>, parts: seq<seq<Violation>>, part: seq<Violation>)
    requires ExprParts(exprs, parts) && |parts| < |exprs|
    requires multiset(part) == Extracted(exprs[|parts|])
    requires IsDenySet(exprs[|parts|]) ==> part == DenySet(exprs[|parts|])
    ensures ExprParts(exprs, parts + [part])
  {
  }

  lemma ExprPartsDenySets(exprs: seq<Value>, parts: seq<seq<Violation>>)
    requires |parts| == |exprs| && ExprParts(exprs, parts)
    ensures AllDenySets(exprs) ==> Flatten(parts, Part) == DenySets(exprs)
  {
    if AllDenySets(exprs) {
      FlattenPointwise(exprs, parts, DenySet);
    }
  }

  /** The first `|parts|` results' parts are their expressions' yields, and
   *  exactly their violations when all are deny sets. */
  ghost predicate ResultParts(results: seq<seq<Value>>, parts: seq<seq<Violation>>)
  {
    |parts| <= |results|
    && forall i :: 0 <= i < |parts| ==>
      multiset(parts[i]) == ExpressionsExtracted(results[i]) && (AllDenySets(results[i]) ==> parts[i] == DenySets(results[i]))
  }

  lemma ResultPartsSnoc(results: seq<seq<Value>>, parts: seq<seq<Violation>>, part: seq<Violation>)
    requires ResultParts(results, parts) && |parts| < |results|
    requires multiset(part) == ExpressionsExtracted(results[|parts|])
    requires AllDenySets(results[|parts|]) ==> part == DenySets(results[|parts|])
    ensures ResultParts(results, parts + [part])
  {
  }

  /** Parts that are, index by index, the lists `f` gives concatenate to the
   *  flattening by `f`. */
  lemma {:induction false} FlattenPointwise<T>(xs: seq<T>, parts: seq<seq<Violation>>, f: T -> seq<Violation>)
    requires |parts| == |xs| && forall j :: 0 <= j < |xs| ==> parts[j] == f(xs[j])
    ensures Flatten(parts, Part) == Flatten(xs, f)
    decreases |xs|
  {
    if xs != [] {
      var n := |xs| - 1;
      FlattenPointwise(xs[..n], parts[..n], f);
    }
  }
}
