# regolint in Dafny

A model of regolint, a Go linter. It turns every Go file into a bag of facts:
imports, functions, types, variables, constants and calls. Rego policies are
evaluated over that bag. Violations of disabled rules are dropped, and so are
violations that `//nolint` comments suppress. The rest are reported as text,
as SARIF, or as golangci-lint diagnostics. A remote policy URL must pass an
SSRF gate (scheme and host) before any request is made. The body must then
pass a size gate and a checksum gate before it is accepted.

The modules follow the program's packages:

- `GoAst` is the part of the Go syntax tree the extractors read. `Children`
  lists a node's children in `ast.Walk` order, and `Inspect` visits nodes as
  `ast.Inspect` does.
- `Naming`, `Functions`, `Types`, `Calls`, `Variables`, `Imports`,
  `Transformer` and `Package` are the fact extractor
  (`internal/transformer`).
- `Nolint` handles suppression directives: a scanner for their comment
  pattern, struct-scope widening, and the filter.
- `Evaluator` decodes the policy engine's result into violations and filters
  the engine's capabilities.
- `Builtins` holds the custom policy built-ins and the bounded cache of
  compiled patterns.
- `Remote` holds the remote-policy gates: host normalisation, blocked
  addresses, policy names, checksums, the order of the fetch and dial gates,
  and the fail-fast download loop.
- `Config` covers configuration defaults, lookups, policy loading and merge
  precedence.
- `Sarif` builds the SARIF 2.1.0 log.
- `Cli` is the command-line pipeline and its exit status.
- `Plugin` is the golangci-lint plugin: configuration from settings,
  `findPosition`, and the analyzer's per-file run.
- `Model`, `Wrappers`, `Seqs` and `Text` hold the fact records, `Option` and
  `Result`, list combinators, and the Go string routines the code uses.

Operations that build their result step by step are methods with loops.
Most methods are proved equal to a specification function, and the lemmas
state what the code promises about that function. Some methods are specified
case by case instead: the regex cache's `Add`, `GetCompiledRegex` and
`MatchesPatternBuiltin`. The walk of the engine's result is another
exception: the results, their expressions and list items are joined in
slice order, and the violations are exact for the deny sets the policies
produce (lists of mappings); only what a mapping's values yield, which Go
walks in no fixed order, is stated up to a multiset. Objects the code updates
in place are classes:

- the regex cache (`Builtins.RegexCache`);
- the context the declaration extractor appends to
  (`Variables.ContextRef`).

Random Go map iteration is modelled as a choice the model does not fix.
This applies to the mapping values `extractFromValue` walks.

## Model

| member | source | states |
|---|---|---|
| Builtins.IsExportedBuiltin | internal/evaluator/builtins.go:56-64 | `go.is_exported` always answers a boolean, true exactly for a string argument whose first byte is an ASCII capital letter (false for the empty string and for non-strings) |
| Builtins.IsTestFileFacts | internal/evaluator/builtins.go:75-84 | `go.is_test_file` is true exactly for a non-empty stem followed by `_test.go`; `_test.go` alone and non-strings are not test files |
| Builtins.LastSegmentEmpty | internal/evaluator/builtins.go:95-109 | the text after the last '/' is empty exactly when the path ends in '/' |
| Builtins.PackageNameBuiltin | internal/evaluator/builtins.go:95-109 | `go.package_name` is undefined for a non-string and otherwise returns the text after the last `/` found scanning from the end, or the whole path |
| Builtins.LastSegmentFacts | internal/evaluator/builtins.go:101-108 | the package name has no `/`, is a suffix of the path, is the whole path exactly when the path has no `/`, and is empty exactly when the path is empty or ends in `/` |
| Builtins.RegexCache.constructor | internal/evaluator/builtins.go:12-14 | the cache starts empty and within its bound of 1000 entries |
| Builtins.RegexCache.Get | internal/evaluator/builtins.go:114 | a lookup returns the entry stored under the pattern, or nothing |
| Builtins.RegexCache.Add | internal/evaluator/builtins.go:123 | the new pattern is stored under itself, the cache stays within 1000 entries, and every other entry is kept unchanged except at most one evicted when the cache was full |
| Builtins.GetCompiledRegex | internal/evaluator/builtins.go:113-125 | a cached pattern is returned without touching the cache; a pattern that does not compile is an error and is not cached; a new pattern that compiles is returned and cached (exactly added when the cache is below its bound); in every case each other entry left in the cache was there before, unchanged |
| Builtins.MatchesPatternBuiltin | internal/evaluator/builtins.go:29-45 | `go.matches_pattern` is undefined unless both arguments are strings, false for a pattern that does not compile, otherwise the match result; the cache never changes the answer. Non-string arguments leave the cache alone; a cached or non-compiling pattern leaves it unchanged; a new compiling pattern is cached (exactly added below the bound); every other entry left was there before, unchanged |
| Builtins.MatchesPatternFacts | internal/evaluator/builtins.go:39-42 | an invalid pattern yields `false` rather than an error, and the answer is defined for every pair of strings |
| Calls.FormatsAgree | internal/transformer/calls.go:65-94 | on identifiers, selectors and pointers to them, `formatExpr` and `formatType` render the same text |
| Calls.ArgStrings | internal/transformer/calls.go:55-63 | one rendered argument per argument, each the `formatExpr` of the argument at the same index |
| Calls.ExtractCallArgs | internal/transformer/calls.go:55-63 | the argument strings have the arguments' count and, index by index, their `formatExpr` renderings |
| Calls.ExtractCallee | internal/transformer/calls.go:28-46 | the callee names computed by the switch are those of the callee classification `CalleeOf` |
| Calls.CallAt | internal/transformer/calls.go:17-48 | a call expression gives one fact naming the enclosing function, at the call's position, with its rendered arguments and classified callee; any other node gives none |
| Calls.ExtractCalls | internal/transformer/calls.go:9-53 | the calls are one fact per call expression of the body in `ast.Inspect` order; a declaration without a body has none |
| Calls.CallsCount | internal/transformer/calls.go:16-50 | there are exactly as many call facts as call expressions in the body, each naming the enclosing function and with no receiver type |
| Calls.OuterCallFirst | internal/transformer/calls.go:16-50 | inside one call, the call's own fact comes before those of the calls in its callee and arguments |
| Calls.CalleeFacts | internal/transformer/calls.go:28-46 | a package is recorded only for a selector on an identifier and then equals the receiver; a selector on a call has receiver "call"; closures and parenthesised callees get the fixed names; any other callee is unnamed |
| Cli.ParseList | cmd/regolint/main.go:143-155 | `parseList` returns the comma-separated items, each trimmed, empty items dropped, in order; an empty flag gives no items |
| Cli.RulesOfMembers | cmd/regolint/main.go:148-153 | an item is in the list exactly when it is non-empty and is the trimmed form of some piece between commas |
| Cli.TrimmedItem | cmd/regolint/main.go:149 | a trimmed piece of a comma-free text has no comma and trimming it again changes nothing |
| Cli.ListFacts | cmd/regolint/main.go:143-155 | the empty flag gives no items; membership is exactly "non-empty trimmed piece"; every item is comma-free and already trimmed |
| Cli.RulesOfTrimmed | cmd/regolint/main.go:148-153 | a list of non-empty, already trimmed items is kept as it is |
| Cli.ListOfJoin | cmd/regolint/main.go:143-155 | writing non-empty, trimmed, comma-free items as one comma-separated flag and parsing it gives the same items back |
| Cli.FilterDisabled | cmd/regolint/main.go:205-211 | the filter loop keeps, in order, the violations of rules not disabled, each with its file set to the path |
| Cli.KeptFacts | cmd/regolint/main.go:205-211 | a violation survives exactly when it is an input violation of an enabled rule with the file set; survivors are as many as the enabled inputs; with nothing disabled all survive |
| Cli.KeptAppend | cmd/regolint/main.go:206-210 | the filter works violation by violation, so it distributes over concatenation and keeps order |
| Cli.KeptIdempotent | cmd/regolint/main.go:205-211 | filtering the survivors again for the same file changes nothing |
| Cli.ShouldSkip | cmd/regolint/main.go:221-229 | a file is skipped exactly when some pattern matches it without error |
| Cli.AnalyzeFile | cmd/regolint/main.go:177-215 | one file: skipped when excluded; a parse error stops with "parsing <file>: "; a dry run yields nothing; an evaluation error stops with "evaluating <file>: "; otherwise the filtered violations |
| Cli.AnalyzePackage | cmd/regolint/main.go:165-219 | the files' violations are concatenated in file order, and the first failing file's error is returned |
| Cli.LoadPoliciesFacts | cmd/regolint/main.go:111-141 | a missing directory gives no policies and no error; a successful load holds exactly the `.rego` files of the tree that are not `_test.rego`, keyed by path |
| Cli.Run | cmd/regolint/main.go:67-109 | `run` follows the steps in order: a policy load error, no policies (no error), an evaluator error, a package load error, then the packages in order stopping at the first error, then output only when there are violations, and finally "violations found" when there are any |
| Cli.AnalyzeAll | cmd/regolint/main.go:94-100 | the packages' violations are concatenated in order, stopping at the first package that fails |
| Cli.ExitFacts | cmd/regolint/main.go:58-64 | the exit status is 0, 1 or 2; a policy load error exits 2; no policies exits 0; status 1 holds exactly when every step succeeds, some package has a violation and the output is written |
| Cli.FlattenNonEmpty | cmd/regolint/main.go:99 | the concatenated violations are non-empty exactly when some package's list is |
| Cli.DryRunFindsNothing | cmd/regolint/main.go:189-193 | a dry run never exits with status 1 |
| Cli.DryRunPackageEmpty | cmd/regolint/main.go:189-193 | in a dry run every package yields an empty violation list |
| Cli.TextSeverity | cmd/regolint/main.go:253-256 | the printed severity is never empty |
| Cli.SeverityFacts | cmd/regolint/main.go:253-256 | an empty severity prints as "error" and any other is printed as it is; the text format and the SARIF level agree on how serious a violation is |
| Config.DefaultFacts | internal/config/config.go:58-78 | the defaults: policies from `.regolint/policies` and no remotes, every Go file included, test files, vendored and test-data trees excluded, text output, caching on with parallelism 4 and a 30s timeout, no rule disabled and every rule at the severity it asks for |
| Config.RuleSettingsFacts | internal/config/config.go:165-175 | disabling a rule and overriding a severity affect that rule alone; `GetSeverity` returns the override when there is one |
| Config.ShouldSkip | internal/config/config.go:178-186 | a file is skipped exactly when some exclude pattern matches it without error |
| Config.ExcludedFacts | internal/config/config.go:178-186 | no patterns skip nothing; a matching pattern skips whatever the others say; a pattern that fails to parse never decides |
| Config.LoadPoliciesFromDir | internal/config/config.go:126-162 | a missing directory adds nothing, an unreadable one fails with "reading policy directory: ", and otherwise the entries are visited in order as `LoadDir` says |
| Config.LoadEntriesFrom | internal/config/config.go:135-159 | the entry loop: subdirectories loaded in place, `.rego` files that are not `_test.rego` read and stored under the joined path, a read error stops with "reading policy <path>: ", other files skipped |
| Config.LoadDirKeys | internal/config/config.go:126-162 | a successful load keeps the keys already there and adds exactly the joined paths of the tree's policy files |
| Config.LoadEntriesKeys | internal/config/config.go:135-159 | the same for one list of entries: the keys after the loop are those before plus the policy files of the entries and their subtrees |
| Config.LoadDirFacts | internal/config/config.go:127-131 | a missing directory is no policies, not an error; every new key of a successful load is a joined path of a policy file name |
| Config.InTreePolicyFile | internal/config/config.go:145-158 | every path of the tree's policy files is a directory joined with a `.rego` name that is not `_test.rego` |
| Config.InEntriesPolicyFile | internal/config/config.go:135-159 | the same for a list of entries |
| Config.PolicyFileNames | internal/config/config.go:145-151 | `<stem>.rego` is loaded unless the stem ends in `_test`; `_test.rego` files and `.go` files are never loaded |
| Config.ExtRego | internal/config/config.go:145 | the extension of `<stem>.rego` is `.rego` |
| Config.LoadPolicies | internal/config/config.go:100-124 | the directory's policies when a directory is set, then the listed files by base name, then the fetched remote policies, the first failure stopping the load |
| Config.LoadFiles | internal/config/config.go:109-115 | every listed file is read and stored under its base name on top of what was loaded; the first unreadable file fails with "reading policy <file>: " |
| Config.LoadPoliciesPrecedence | internal/config/config.go:114-121 | a remote policy overrides a listed file of the same name, which overrides a directory policy; of two listed files with one base name the later wins |
| Config.LoadPoliciesFacts | internal/config/config.go:100-124 | loading fails exactly when the directory walk, a listed file or the remote fetch fails; a missing directory with no files and no remotes gives no policies |
| Evaluator.FilteredCapabilities | internal/evaluator/evaluator.go:21-34 | the capabilities keep every builtin except the dangerous ones, in order, and allow no network host |
| Evaluator.CapabilitiesFacts | internal/evaluator/evaluator.go:15-33 | a builtin survives exactly when it was offered and is not `http.send`, `net.lookup_ip_addr` or `opa.runtime`; a list without them is unchanged |
| Evaluator.ParseInt64 | internal/evaluator/evaluator.go:217-219 | the integer a `json.Number` gives always lies in the 64-bit range |
| Evaluator.ParseFormatInt | internal/evaluator/evaluator.go:209-223 | every 64-bit integer written in decimal as a `json.Number` converts back to itself |
| Evaluator.ParseInt64Examples | internal/evaluator/evaluator.go:217-219 | example: a malformed number (empty, a lone sign, a fraction) converts to 0; a leading `+` or `-` is accepted |
| Evaluator.ParseFix | internal/evaluator/evaluator.go:175-200 | the fix built field by field is the fix the mapping describes |
| Evaluator.FixFacts | internal/evaluator/evaluator.go:175-200 | one edit per mapping in the `edits` list and none without a list; the description is the given string or "" |
| Evaluator.ParseViolationFacts | internal/evaluator/evaluator.go:142-173 | a value parses exactly when it is a mapping; message, rule and severity are the given strings or ""; a fix exactly when `fix` is a mapping; no `position` mapping gives the zero position |
| Evaluator.FieldsExtractedPick | internal/evaluator/evaluator.go:134-136 | the violations of a mapping's values do not depend on the order its keys are visited in |
| Evaluator.ExtractFromValue | internal/evaluator/evaluator.go:115-140 | the violations returned, counted with multiplicity, are those the value yields: per list item a violation or the item's own yield, one for a mapping with "message", its values' yields for any other mapping, none for a scalar; exactly `[]` for a scalar, exactly the one violation for a mapping with "message", and exactly the items' violations in list order for a list of mappings |
| Evaluator.ExtractFromItems | internal/evaluator/evaluator.go:119-126 | the list loop returns the items' contributions concatenated in list order, where a mapping item contributes exactly its own violation; as a multiset, the result is what the items yield; a list of mappings gives exactly their violations in order |
| Evaluator.ExtractFromFields | internal/evaluator/evaluator.go:134-136 | the mapping loop returns the yields of all the mapping's values |
| Evaluator.ExtractedLeaves | internal/evaluator/evaluator.go:127-139 | a scalar yields nothing; a mapping with "message" yields exactly its own violation, whatever it nests |
| Evaluator.ExtractedList | internal/evaluator/evaluator.go:119-126 | the yield of a concatenated list is the sum of the yields of its parts |
| Evaluator.ExtractedSingleton | internal/evaluator/evaluator.go:120-125 | a one-item list yields one violation when the item is a mapping and the item's own yield otherwise |
| Evaluator.ExtractedObject | internal/evaluator/evaluator.go:134-136 | a mapping without "message" yields one value's yield plus that of the rest of the mapping, for any key |
| Evaluator.ExtractedMappings | internal/evaluator/evaluator.go:119-126 | a list of mappings yields exactly one violation per mapping |
| Evaluator.ExtractViolations | internal/evaluator/evaluator.go:103-113 | the results' contributions are concatenated in slice order, each being (with multiplicity) what that result's expressions yield; when every expression is a deny set, the output is exactly the deny sets' violations in result, expression and list order |
| Evaluator.ExtractExpressions | internal/evaluator/evaluator.go:107-109 | the expressions' contributions are concatenated in slice order, each being (with multiplicity) the expression's yield and exactly its violations in list order when it is a deny set; all deny sets give exactly their violations in order |
| Functions.FormatTypeNonEmpty | internal/transformer/functions.go:74-109 | only an identifier can render as empty text; every other type expression, an unknown one included, renders to something |
| Functions.NamedParams | internal/transformer/functions.go:58-63 | one entry per name, in order, each carrying that name and the group's type |
| Functions.GroupParamsShape | internal/transformer/functions.go:52-64 | a group gives one entry per name, or one unnamed entry when it has no names, all with the group's rendered type |
| Functions.ParamsLength | internal/transformer/functions.go:49-68 | the parameter list has one entry per name plus one per nameless group |
| Functions.ExtractParams | internal/transformer/functions.go:49-68 | the parameters are the groups' entries concatenated in order |
| Functions.AppendNamed | internal/transformer/functions.go:58-63 | the inner loop appends exactly one entry per name |
| Functions.CalculateComplexity | internal/transformer/functions.go:111-137 | the complexity is one plus the number of decision nodes (branches, loops, switches, selects and their clauses, `&&`, `\|\|`) anywhere in the body |
| Functions.BranchFree | internal/transformer/functions.go:111-137 | the complexity is 1 exactly when the body holds no decision node |
| Functions.WalkListDecisions | internal/transformer/functions.go:114-134 | the decisions counted over a list of subtrees are the sum of each subtree's decisions |
| Functions.DecisionsCompose | internal/transformer/functions.go:114-134 | a node's decisions are its own plus those of each child subtree, so nesting adds branches and never hides one |
| Functions.ExtractComments | internal/transformer/functions.go:139-155 | the comments are the cleaned texts of the group's comments, in order, empty ones dropped |
| Functions.CommentsStep | internal/transformer/functions.go:145-153 | each comment adds its cleaned text when that is non-empty and nothing otherwise |
| Functions.CommentsFacts | internal/transformer/functions.go:139-155 | at most one entry per comment; a text is kept exactly when it is non-empty and is the cleaned text of some comment |
| Functions.ExtractAnnotations | internal/transformer/functions.go:157-176 | the annotations are the key/value pairs of the lines starting with '@', the later of two lines with one key winning |
| Functions.AnnotationKeys | internal/transformer/functions.go:157-176 | a key is present exactly when some '@' line carries it, and its value is that of the last such line |
| Functions.ExtractFunction | internal/transformer/functions.go:11-47 | the function's facts are its name, receiver, parameters, results, export and test flags, complexity, line count, position, doc comments and annotations |
| Functions.ExtractReceiver | internal/transformer/functions.go:21-23 | the receiver is the type of the first receiver field, empty for a plain function |
| Functions.ExtractSignature | internal/transformer/functions.go:25-31 | parameters and results are the flattened field lists, empty when a list is absent |
| Functions.ExtractMetrics | internal/transformer/functions.go:33-38 | with a body, complexity and the brace-to-brace line count; without one, both 0 |
| Functions.ExtractDocLines | internal/transformer/functions.go:40-42 | the comments are the cleaned doc comments, none without a doc comment |
| Functions.FunctionMetrics | internal/transformer/functions.go:33-38 | a function with a body has complexity at least 1 and counts the lines from its opening to its closing brace; one without a body keeps both at 0 |
| Functions.FunctionAnnotations | internal/transformer/functions.go:40-44 | an annotation key exists exactly when some '@' line of the doc comments carries it |
| Imports.ImportsUpTo | internal/transformer/imports.go:13-24 | the first n facts are, index by index, the facts of the first n import specs |
| Imports.ExtractImports | internal/transformer/imports.go:10-27 | one fact per import spec of the file, in order |
| Imports.ImportsFacts | internal/transformer/imports.go:10-27 | as many facts as specs; a path never starts or ends with a quote; a spec's alias is recorded exactly when the spec names one (`_` and `.` included), with that name as its value; the position is the spec's |
| Imports.UnquotePath | internal/transformer/imports.go:15 | a quoted path loses exactly its two quotes |
| Naming.MakePosition | internal/transformer/transformer.go:67-74 | the position keeps line and column and names the base of the file's path, which holds no separator |
| Naming.ExtractDoc | internal/transformer/transformer.go:76-81 | no doc comment gives ""; otherwise the comment text with surrounding white space removed, so it neither starts nor ends with a space |
| Naming.TestPrefixAny | internal/transformer/transformer.go:90-95 | every name made of Test, Benchmark, Example or Fuzz followed by anything is a test function |
| Naming.TestFunctionPrefix | internal/transformer/transformer.go:90-95 | conversely, every test function name is one of the four prefixes, in that letter case, followed by something |
| Naming.TestPrefixes | internal/transformer/transformer.go:90-95 | example: TestParse, Testify, BenchmarkX, FuzzDecode and Example are test functions; MyTest, test and the empty name are not |
| Nolint.MatchFacts | internal/nolint/nolint.go:20-25 | a directive without rules matches every rule; one with rules matches exactly the rules it lists; its lines and reason play no part |
| Nolint.SkipSpace | internal/nolint/nolint.go:28 | the end of the longest run of `\s` characters from the given index |
| Nolint.SkipRuleChars | internal/nolint/nolint.go:28 | the end of the longest run of `[A-Za-z0-9_,]` characters from the given index |
| Nolint.LineEnd | internal/nolint/nolint.go:28 | the first newline at or after the index, or the end of the text (`.` does not cross a newline) |
| Nolint.FindMarker | internal/nolint/nolint.go:28 | the leftmost position where `//`, optional white space and `nolint` start, or -1 when there is none |
| Nolint.RulesGroup | internal/nolint/nolint.go:28 | the first capture group is a run of rule characters, empty unless a colon is directly followed by one |
| Nolint.LastNonNewline | internal/nolint/nolint.go:28 | the last index of the range that is not a newline, where the reason group starts once `\s*` backs off |
| Nolint.RulesOf | internal/nolint/nolint.go:72-79 | the rule list holds no empty rule |
| Nolint.RulesOfSnoc | internal/nolint/nolint.go:73-78 | each comma-separated item adds its trimmed text when that is non-empty, nothing otherwise |
| Nolint.ParseComment | internal/nolint/nolint.go:60-86 | a comment gives a directive exactly when the pattern matches it, and then the directive of the capture groups; otherwise the zero directive and false |
| Nolint.BuildDirective | internal/nolint/nolint.go:68-85 | the directive sits on the comment's line, lists the trimmed non-empty items of the first group and has the trimmed second group as reason |
| Nolint.ParseDefinedIff | internal/nolint/nolint.go:60-70 | a comment yields a directive exactly when it contains `//`, optional white space, then `nolint`; the directive is on the comment's line and not widened |
| Nolint.ParsedRulesWellFormed | internal/nolint/nolint.go:72-79 | every parsed rule id is non-empty and made of letters, digits and `_` only |
| Nolint.SplitRuleChars | internal/nolint/nolint.go:73 | splitting a run of rule characters at commas gives items of rule characters without commas |
| Nolint.SplitAllRuleChars | internal/nolint/nolint.go:73 | every item of such a split consists of rule characters |
| Nolint.NonEmptyMembers | internal/nolint/nolint.go:75-77 | the non-empty items are exactly the items that are not empty |
| Nolint.RulesOfNoSpace | internal/nolint/nolint.go:73-78 | trimming keeps an item of rule characters whole, so the rules are the non-empty items |
| Nolint.ColonSpaceMatchesAll | internal/nolint/nolint.go:28 | `//nolint: TAG001` carries no rule list, because the colon is not followed by a rule character, and so suppresses every rule |
| Nolint.ParsedReason | internal/nolint/nolint.go:28-83 | for `//nolint:R W//X` with a rule run R, whitespace W and a one-line reason X that is not all blank, the rules are R's items and the reason is X trimmed (leading blanks of X are taken by `\s*`) |
| Nolint.NoReasonWithoutSlashes | internal/nolint/nolint.go:28-83 | when no `/` follows the rule run, the directive has the rule run's items and an empty reason |
| Nolint.ReasonExample | internal/nolint/nolint.go:28-83 | example: `//nolint:TAG001 // uses mapstructure instead` gives the rules `["TAG001"]` and the reason `uses mapstructure instead` |
| Nolint.ScopesOfKeys | internal/nolint/nolint.go:35-44 | a line is a scope key exactly when some struct type spec starts on the line after it |
| Nolint.ScopesOfLastWins | internal/nolint/nolint.go:35-44 | a scope key's end line is that of the last struct type spec visited for it |
| Nolint.Extract | internal/nolint/nolint.go:31-58 | the directives are those of every comment of every group, in order, each widened to the end line of a struct that starts on the next line |
| Nolint.CollectStructScopes | internal/nolint/nolint.go:35-44 | the inspection maps the line above each struct type spec to the spec's end line |
| Nolint.GroupComments | internal/nolint/nolint.go:47-54 | one comment group gives the directives of its comments, in order |
| Nolint.WidenedExactly | internal/nolint/nolint.go:49-51 | within a group, a directive's end line is the struct's end line when a struct starts on the next line and 0 otherwise |
| Nolint.ExtractedWidenedExactly | internal/nolint/nolint.go:46-55 | across a file, only the directive on the line just above a struct spec gets an end line |
| Nolint.OnLineMembers | internal/nolint/nolint.go:94-97 | the entry for a line holds exactly the directives on that line |
| Nolint.AnyMatch | internal/nolint/nolint.go:122-126 | true exactly when some directive of the entry matches the rule |
| Nolint.IsSuppressed | internal/nolint/nolint.go:114-138 | a violation is suppressed exactly when a matching directive sits on its line or the line above, or is widened over it |
| Nolint.Filter | internal/nolint/nolint.go:89-106 | without directives the violations come back unchanged; with them, those that no directive suppresses, in order |
| Nolint.KeptSnoc | internal/nolint/nolint.go:100-104 | each violation is appended exactly when it is not suppressed |
| Nolint.IndexLines | internal/nolint/nolint.go:94-97 | the line map groups the directives by line, in their order |
| Nolint.OnLineSnoc | internal/nolint/nolint.go:95-97 | each directive is appended to its own line's entry and to no other |
| Nolint.KeptSubsequence | internal/nolint/nolint.go:99-105 | the kept violations are the input with some removed, order preserved |
| Nolint.KeptMembers | internal/nolint/nolint.go:99-105 | a violation is kept exactly when it is in the input and not suppressed |
| Nolint.KeptIdempotent | internal/nolint/nolint.go:99-105 | filtering the kept violations again keeps all of them |
| Nolint.KeptNothingSuppressed | internal/nolint/nolint.go:114-138 | with no directives nothing is suppressed |
| Nolint.FilterFacts | internal/nolint/nolint.go:89-106 | no directives leave the input unchanged; otherwise the output is a subsequence that holds exactly the violations no directive suppresses |
| Nolint.SubsequenceRefl | internal/nolint/nolint.go:90-92 | a list is a subsequence of itself, so the early return also keeps order |
| Nolint.FilterIdempotent | internal/nolint/nolint.go:89-106 | filtering twice with the same directives is the same as filtering once |
| Package.SeenKeyInjective | internal/transformer/package.go:29-31 | two import paths have the same `import:` seen key only when they are equal |
| Package.SeenKeysPaths | internal/transformer/package.go:29-31 | a path's seen key is recorded exactly when some import already carries that path |
| Package.SeenKeysSnoc | internal/transformer/package.go:31 | recording an import adds exactly its own seen key |
| Package.BuildPackageContext | internal/transformer/package.go:6-43 | no files give no package; otherwise the package of the files: every file in order, the first file's module and package, the imports deduplicated by path and every other list concatenated |
| Package.PackageStep | internal/transformer/package.go:25-40 | adding a file extends the import list by that file's imports |
| Package.AddImports | internal/transformer/package.go:28-33 | after one file's imports, the kept imports are the first per path of everything seen so far, and the seen keys those of every path so far |
| Package.AppendPrefixSnoc | internal/transformer/package.go:28 | the imports handled so far grow by one import per step |
| Package.AddImport | internal/transformer/package.go:29-32 | one import is kept exactly when its path is new, and its path becomes seen |
| Package.ImportStep | internal/transformer/package.go:29-32 | an import is appended exactly when its seen key is new, and its key is then seen |
| Package.PackageFacts | internal/transformer/package.go:6-43 | a package has every file in order and the first file's module path; each import path of any file appears exactly once, as its first occurrence; there are as many functions as all files have together |
| Plugin.BuildConfig | plugin/regolint.go:134-155 | the configuration is the defaults without exclude patterns, each non-empty setting replacing its default |
| Plugin.ConfigFacts | plugin/regolint.go:134-155 | the policy directory is the setting's or the default; files, disabled rules and excludes are the settings' own; a rule is disabled exactly when listed; everything else is the default |
| Plugin.EmptySettings | plugin/regolint.go:134-155 | with empty settings the directory is the default one and no file is excluded, test files included |
| Plugin.FindPosition | plugin/regolint.go:157-178 | the position is the one the callback settles on over the nodes `ast.Inspect` visits, pruning below a node on the target line |
| Plugin.BestSnoc | plugin/regolint.go:165-173 | a node on the target line becomes the best position; a node on a later line above the target than the best so far becomes best and raises the best line; others change nothing |
| Plugin.BestOf | plugin/regolint.go:158-177 | the best position and line after the callback has seen the nodes in order |
| Plugin.BestFacts | plugin/regolint.go:157-178 | the position is the file's start or that of a visited node at or above the target line; the best line is 0 or a visited line above the target, at least every visited line above it; with no node on the target line and best line 0 the start is returned |
| Plugin.BestExact | plugin/regolint.go:166-169 | on nodes in source order with one on the target line, the position is that of the last visited node on that line |
| Plugin.BestNearest | plugin/regolint.go:170-173 | on nodes in source order with none on the target line, the position is the first node on the nearest line above it |
| Plugin.DropDisabled | plugin/regolint.go:107-112 | the violations of enabled rules, in order |
| Plugin.ReportAll | plugin/regolint.go:116-119 | one report per violation, in order, at its found position with the message `[rule] message` |
| Plugin.ReportsSnoc | plugin/regolint.go:116-119 | each violation adds exactly its own report |
| Plugin.RunFile | plugin/regolint.go:93-120 | an excluded file gives no reports; an evaluation error fails with `evaluating <path>: `; otherwise the reports of the enabled violations |
| Plugin.Run | plugin/regolint.go:63-123 | a policy loading error is returned; no policies give no reports and no error; an evaluator error is returned; otherwise the reports of the files in order up to the first failing file |
| Plugin.FileReportsFacts | plugin/regolint.go:93-120 | an excluded file reports nothing; otherwise one report per enabled violation, each at its found position with the rule in brackets before the message |
| Plugin.RunFacts | plugin/regolint.go:63-123 | without policies nothing is reported; without an error every file's reports are issued in file order; an error is the first failing file's, after the reports of the files before it |
| Plugin.BuildAnalyzers | plugin/regolint.go:52-127 | exactly one analyzer, named "regolint", and no error |
| Remote.To4 | internal/config/remote.go:135-137 | an address taken as IPv4 (a 4-byte one, or a 16-byte IPv4-mapped one) has 4 bytes |
| Remote.MasksV4 | internal/config/remote.go:135-137 | the private 172.16.0.0/12 test on the second byte selects exactly 16 to 31 |
| Remote.MasksV6 | internal/config/remote.go:135-137 | the unique-local, link-local and link-local-multicast masks select exactly their byte ranges |
| Remote.BlockedIPRanges | internal/config/remote.go:135-137 | an IPv4 address (or its mapped form) is blocked exactly when loopback, private, link-local or unspecified; another 16-byte address by the IPv6 ranges; an address of another length never |
| Remote.MappedAsV4 | internal/config/remote.go:135-137 | an IPv4 address and its IPv4-mapped IPv6 form are blocked alike |
| Remote.BlockedV4Examples | internal/config/remote.go:135-137 | example: 127.0.0.1, 10.0.0.1, 172.16.0.1, 192.168.1.1, 169.254.169.254 and 0.0.0.0 are blocked; 8.8.8.8 and 172.32.0.1 are not |
| Remote.BlockedV6Examples | internal/config/remote.go:135-137 | example: ::1, :: and fe80::1 are blocked; a public IPv6 address is not |
| Remote.NormalizeBracketed | internal/config/remote.go:142-145 | a bracketed host is the text between the brackets, whatever follows |
| Remote.NormalizePort | internal/config/remote.go:146-149 | a host with exactly one colon loses the port after it |
| Remote.NormalizeUnchanged | internal/config/remote.go:140-150 | a host without brackets and with no colon or more than one colon is kept as it is |
| Remote.NormalizeNoColon | internal/config/remote.go:140-150 | a host without brackets and colons is kept as it is |
| Remote.LocalhostAnyCase | internal/config/remote.go:131-162 | every host equal to localhost under ASCII case folding is blocked, whatever the address parser says |
| Remote.LocalhostBlocked | internal/config/remote.go:131-133 | example: `localhost` and `LocalHost` are blocked |
| Remote.LocalhostNames | internal/config/remote.go:131-133 | example: `localhost` and `LocalHost` are blocked host names |
| Remote.LocalhostAnyPort | internal/config/remote.go:139-162 | `localhost:` followed by any colon-free port is blocked |
| Remote.LocalhostPortBlocked | internal/config/remote.go:139-162 | example: `localhost:8080` is blocked |
| Remote.LiteralWithPort | internal/config/remote.go:139-162 | an address literal followed by `:port` is blocked exactly when it is localhost or its address is in the blocked ranges |
| Remote.LiteralBracketed | internal/config/remote.go:139-162 | a bracketed address literal, whatever follows the bracket, is blocked exactly when it is localhost or its address is in the blocked ranges |
| Remote.LiteralHostBlocked | internal/config/remote.go:156-159 | example: `127.0.0.1:443` and `[::1]:443` are blocked |
| Remote.PublicNameAllowed | internal/config/remote.go:139-162 | a name without port or brackets that is not localhost and that the address parser rejects is allowed |
| Remote.PublicHostAllowed | internal/config/remote.go:139-162 | example: `example.com` is allowed when the address parser rejects it |
| Remote.NormalizeNames | internal/config/remote.go:140-150 | example: names without a port are left alone |
| Remote.NormalizePorts | internal/config/remote.go:146-149 | example: `localhost:8080` and `127.0.0.1:443` lose their ports |
| Remote.NormalizeLoopback6 | internal/config/remote.go:142-145 | example: `[::1]:443` normalises to `::1` |
| Remote.Loopback6Blocked | internal/config/remote.go:135-137 | the IPv6 loopback address is blocked |
| Remote.PolicyNameFacts | internal/config/remote.go:177-195 | a parsed URL names a policy ending in `.rego`: the host's name or a path segment without '/'; an unparsable URL is its own name |
| Remote.PolicyNameOfSegment | internal/config/remote.go:183-194 | a path ending in a non-empty segment names the policy after that segment when it ends in `.rego`, after the host otherwise |
| Remote.PolicyNameTrailingSlash | internal/config/remote.go:183 | trailing slashes of the path do not change the name |
| Remote.PolicyNameNoPath | internal/config/remote.go:183-188 | a URL with an empty or root path is named after its host |
| Remote.ChecksumFacts | internal/config/remote.go:164-175 | the data's own digest passes, with or without the `sha256:` prefix; any other expected value fails |
| Remote.GateBeforeRequest | internal/config/remote.go:88-99 | an unparsable URL, a non-https scheme or a blocked host fails before any request, whatever the network would answer |
| Remote.FetchPolicyFacts | internal/config/remote.go:87-129 | a fetched policy is the whole body, at most 10 MiB, of a status-200 answer to an https URL on an allowed host, with a matching checksum when one is configured; a longer body fails |
| Remote.SafeDialContext | internal/config/remote.go:45-83 | an unsplittable address, a blocked host name, a DNS failure, no addresses or any blocked address fail; otherwise the first address that dials |
| Remote.DialFirstFacts | internal/config/remote.go:72-82 | a connection is to the first address whose dial succeeds; when every dial fails, so does the call |
| Remote.SafeDialFacts | internal/config/remote.go:45-83 | a connection is to a resolved, unblocked address of an allowed host; one blocked address fails the call before any dial |
| Remote.FetchRemotePolicies | internal/config/remote.go:19-43 | the policies are those of every remote, named by their URLs, a later remote of the same name winning; the first failing fetch is the error |
| Remote.RemotePoliciesFacts | internal/config/remote.go:19-43 | the download succeeds exactly when every fetch does, and then holds each remote's content under its name; otherwise the error is a failing remote's |
| Transformer.ContextStep | internal/transformer/transformer.go:51-62 | the facts after one more visited node are those of the visit applied to the facts before it |
| Transformer.VisitNode | internal/transformer/transformer.go:52-60 | a function declaration adds its function fact and its calls; a general declaration adds its types, variables and constants; any other node changes nothing |
| Transformer.NewContext | internal/transformer/transformer.go:31-49 | a fresh context with the file path, module path, package name, path and doc, the file's imports, and every other list empty |
| Transformer.Transform | internal/transformer/transformer.go:30-65 | the facts of a file are its header and imports followed by the visits of every node in `ast.Inspect` order |
| Transformer.VisitStep | internal/transformer/transformer.go:51-62 | the walk loop keeps the facts equal to those of the nodes visited so far |
| Transformer.FunctionsAndCalls | internal/transformer/transformer.go:52-57 | there is one function fact per function declaration anywhere in the file, and every call is attributed to one of the file's functions |
| Transformer.NestedDeclarations | internal/transformer/transformer.go:51-62 | a type declared anywhere in the file, inside a function body included, is among the file's types |
| Transformer.ContextShape | internal/transformer/transformer.go:30-49 | one import fact per import spec; the package name is the file's; no doc comment gives an empty doc; type usages and field accesses stay empty |
| Types.ExtractTags | internal/transformer/types.go:111-120 | a missing tag is ""; a backquoted literal of two or more characters loses exactly its backquotes; any other literal is kept as written |
| Types.TagExamples | internal/transformer/types.go:111-120 | example: a raw tag is unquoted, a lone backquote and a double-quoted tag are kept |
| Types.NamedFields | internal/transformer/types.go:59-67 | one field per name, in order, each with that name, the group's type and tag, exported when its name is, not embedded, at the name's position |
| Types.ExtractStructFields | internal/transformer/types.go:36-71 | the fields and embeds are those of the struct's members in order; no field list gives none |
| Types.AddStructMember | internal/transformer/types.go:45-67 | an embedded member adds its type as embed and one embedded field named after its type; a named member adds one field per name and no embed |
| Types.AppendFields | internal/transformer/types.go:59-67 | the inner loop appends exactly one field per name |
| Types.FieldEntriesShape | internal/transformer/types.go:44-68 | a member gives one field per name, or one for an embedded member, and contributes its type to the embeds exactly when embedded |
| Types.StructFieldsShape | internal/transformer/types.go:44-68 | a struct has one field fact per declared name and one per embedded member, and its embeds are the types of its embedded fields, in order |
| Types.StructFieldFacts | internal/transformer/types.go:47-66 | an embedded field is named after its type and not exported; a named field is exported exactly when its name is |
| Types.NamedMethods | internal/transformer/types.go:88-104 | one method per name, in order, all with the member's signature, exported when its name is |
| Types.ExtractInterfaceMethods | internal/transformer/types.go:73-109 | the methods and embeds are those of the interface's members, in order; no member list gives none |
| Types.AddInterfaceMember | internal/transformer/types.go:82-105 | an embedded member adds its type as embed; a function-typed named member adds one method per name; any other member adds nothing |
| Types.AppendMethods | internal/transformer/types.go:88-104 | the inner loop appends one method per name with the parameters and results of the member's function type |
| Types.InterfaceMethodCount | internal/transformer/types.go:81-106 | an interface declares one method per name of each function-typed member and none for other members |
| Types.InterfaceMethodFacts | internal/transformer/types.go:88-104 | every method is exported exactly when its name is and has the signature of one of the interface's members |
| Types.KindOf | internal/transformer/types.go:20-31 | the kind is struct, interface or func for those shapes and alias for anything else, and nothing else |
| Types.ExtractType | internal/transformer/types.go:9-34 | the type fact has the spec's name, export flag, position and doc, its kind, and the fields, methods and embeds of its shape |
| Types.TypeShape | internal/transformer/types.go:9-34 | only a struct has fields, only an interface methods; an alias or function type has no embeds; implemented interfaces are never filled in |
| Variables.VariablesUpTo | internal/transformer/variables.go:44-58 | the first n facts are, index by index, the facts of the first n names |
| Variables.ExtractVariables | internal/transformer/variables.go:36-61 | one fact per name of the spec, in order |
| Variables.VariablesFacts | internal/transformer/variables.go:36-61 | one fact per name, each with that name, the spec's type (or ""), the given constant flag, exported when its name is, and the rendered value at its index or "" beyond the values |
| Variables.ContextRef.constructor | internal/transformer/transformer.go:31-47 | the collected facts start as the given context |
| Variables.ContextRef.ExtractGenDecl | internal/transformer/variables.go:10-34 | the declaration's types, variables or constants are appended after those already collected and nothing else changes |
| Variables.ContextRef.AddTypes | internal/transformer/variables.go:12-18 | one type fact per type spec of the declaration is appended, in order |
| Variables.ContextRef.AddValues | internal/transformer/variables.go:19-32 | the facts of every value spec are appended to the variables or, for constants, to the constants |
| Variables.WithValuesAppend | internal/transformer/variables.go:20-31 | appending two batches of facts one after the other is appending their concatenation |
| Variables.DeclDispatch | internal/transformer/variables.go:10-34 | a declaration adds to at most the one list its keyword picks; variables are never constant and constants always are; at most one type per spec |
| Variables.SpecEntriesFlag | internal/transformer/variables.go:20-31 | every fact of a list of value specs carries the constant flag it was made with |
| Sarif.Level | internal/output/sarif.go:81-89 | the level is always one of "error", "warning" and "note" |
| Sarif.LevelFacts | internal/output/sarif.go:81-89 | "warning" maps to warning and "info" to note; every other severity, the empty one included, is an error |
| Sarif.ExtractRules | internal/output/sarif.go:128-145 | one rule per distinct rule id, for its first violation, in order |
| Sarif.WriteSARIF | internal/output/sarif.go:76-122 | the log of the violations: schema, version 2.1.0, one run whose driver is regolint at the given version with the extracted rules, and one result per violation |
| Sarif.ResultsFacts | internal/output/sarif.go:80-105 | one result per violation, in order, with its rule id, message, level, file and line, and a start column that is at least 1 and equals the violation's column when that is positive |
| Sarif.RulesFacts | internal/output/sarif.go:128-145 | the rule ids are exactly the violations' rule ids, each once, each rule described by its own id |
| Sarif.RulesOrder | internal/output/sarif.go:128-145 | the rules come in order of first occurrence: an earlier rule's id occurs among the violations before any violation of a later rule |
| Sarif.LogFacts | internal/output/sarif.go:107-121 | the log has version 2.1.0 and one run, whose driver is "regolint" at the given version, with these rules and results |

## Left out

- The policy engine: OPA parsing, compiling and query evaluation (`evaluator.New`, `Evaluate`, `EvaluatePackage`, `evaluate`). The engine's result is the input of `Evaluator.ExtractViolations`. The evaluator is a parameter of `Cli` and `Plugin`, each a function from a file to its violations or an error.
- The Go parser and `token.FileSet`. Trees are `GoAst.Node` values whose nodes carry their own line and column. `(*ast.CommentGroup).Text` is a parameter of `Naming.Source`.
- `ast.Node` kinds that no extractor tells apart share one `Other` constructor.
- Regular expressions. `regexp.Compile` and matching are parameters of `Builtins`. The cache keeps the code's bound and its insert-only-on-success rule, but which entry the LRU evicts is not modelled. The `nolint` pattern is written out as a scanner instead.
- The network, DNS, `url.Parse`, `net.ParseIP`, SHA-256 and hex encoding. All are parameters of `Remote`.
- The HTTP client's dial function is not composed with `Remote.SafeDialContext`. Fetching and dialling are proved separately.
- `string(body)` is modelled as a byte-to-character mapping.
- `strings.EqualFold` is modelled for ASCII letters only.
- Float-to-integer conversion in `toInt`. A float value carries its truncated integer as data.
- Go's bounded `int`. Integers are unbounded, except where `json.Number` parsing clamps to 64 bits.
- Nil and empty slices, and nil and empty maps, are not told apart. The nil annotations map is the empty map.
- File I/O, YAML decoding in `config.Load`, and `os.ReadDir`/`os.ReadFile`. The policy directory is a value describing what those calls return. Glob matching (`doublestar.Match`) is a parameter.
- `filepath.Clean` inside `filepath.Join` is not modelled.
- `cmd/regolint/main.go` `loadPolicies` is modelled by the same walk as `Config.LoadDir`. Its error wording differs from `filepath.WalkDir`'s. A root that is a file, and a missing directory below the root, are not modelled.
- Plugin registration and lifetime: `init`, `New` (settings decoding), `GetLoadMode`, and the `sync.Once` that builds the evaluator once. `Plugin.Run` models a single run of the analyzer.
- The nolint step of the file pipelines (`cmd/regolint/main.go:213`, `plugin/regolint.go:114`). It calls `nolint.FilterModelViolations` on `CodeContext.Nolints`, and neither is defined in the repository's sources.
- Output: logging (`log.Printf` warnings), JSON and SARIF encoding and writing, text-line formatting, printing of dry runs and debug contexts, and the exit itself. `Cli` returns the exit status, and `Sarif.WriteSARIF` returns the log as a value.
- Evaluator.ExtractFromValue: proved equal to the specification only as a multiset, because Go visits a mapping's values in no fixed order. The order is stated exactly only for a scalar, for a mapping with "message", and for a list of mappings. For a list, `Evaluator.ExtractFromItems` also states that the items' contributions come in list order; the contribution of a non-mapping item is itself known only up to a multiset.
- Evaluator.ExtractExpressions: an expression whose value is not a deny set (a list of mappings) contributes its violations as a block in slice order, but the order inside that block is stated only as a multiset, for the reason given for `Evaluator.ExtractFromValue`; the same holds for `Evaluator.ExtractViolations`.
- Evaluator.ExtractFromItems: a list item that is not a mapping contributes its violations as a block in list order, but the order inside that block is stated only as a multiset, because the item may hold mappings that Go walks in no fixed order.
- Plugin.BestExact: states the position on the target line only for nodes visited in source order. Inspection order is proved to be the walk's preorder, not source order.
- Imports.ExtractImports: requires every import entry to be an import spec, as the Go parser guarantees.
