/** `BuildPackageContext` (internal/transformer/package.go): the facts of a
 *  package's files put together. Imports are kept once per path, at their first
 *  occurrence; every other list is the files' lists one after another. */
module Package {
  import opened Wrappers
  import opened Model
  import opened Seqs

  // ---------------------------------------------------------------------------
  // First-seen import deduplication

  function ImportPath(x: ImportInfo): string
  {
    x.path
  }

  /** The key under which a path is remembered as seen. */
  function SeenKey(path: string): string
  {
    "import:" + path
  }

  lemma SeenKeyInjective(a: string, b: string)
    ensures SeenKey(a) == SeenKey(b) ==> a == b
  {
    if SeenKey(a) == SeenKey(b) {
      assert a == SeenKey(a)[7..];
      assert b == SeenKey(b)[7..];
    }
  }

  function SeenKeys(xs: seq<ImportInfo>): set<string>
  {
    set x | x in xs :: SeenKey(x.path)
  }

  lemma {:induction false} SeenKeysPaths(xs: seq<ImportInfo>, path: string)
    ensures SeenKey(path) in SeenKeys(xs) <==> path in KeySet(xs, ImportPath)
  {
    if SeenKey(path) in SeenKeys(xs) {
      var x :| x in xs && SeenKey(x.path) == SeenKey(path);
      SeenKeyInjective(x.path, path);
    }
    if path in KeySet(xs, ImportPath) {
      var x :| x in xs && ImportPath(x) == path;
      assert SeenKey(x.path) in SeenKeys(xs);
    }
  }

  lemma SeenKeysSnoc(xs: seq<ImportInfo>, x: ImportInfo)
    ensures SeenKeys(xs + [x]) == SeenKeys(xs) + {SeenKey(x.path)}
  {
    assert forall y :: y in xs + [x] <==> y in xs || y == x;
  }

  // ---------------------------------------------------------------------------
  // BuildPackageContext

  function ImportsField(f: CodeContext): seq<ImportInfo> { f.imports }
  function FunctionsField(f: CodeContext): seq<FunctionInfo> { f.functions }
  function TypesField(f: CodeContext): seq<TypeInfo> { f.types }
  function VariablesField(f: CodeContext): seq<VariableInfo> { f.variables }
  function ConstantsField(f: CodeContext): seq<VariableInfo> { f.constants }
  function CallsField(f: CodeContext): seq<CallInfo> { f.calls }

  /** The package context after the first `files` have been added to one that
   *  takes its module path and package from `first`. */
  function PackageAfter(first: CodeContext, files: seq<CodeContext>): PackageContext
  {
    PackageContext(
      modulePath := first.modulePath,
      package := first.package,
      files := files,
      allImports := FirstByKey(Flatten(files, ImportsField), ImportPath),
      allFunctions := Flatten(files, FunctionsField),
      allTypes := Flatten(files, TypesField),
      allVariables := Flatten(files, VariablesField),
      allConstants := Flatten(files, ConstantsField),
      allCalls := Flatten(files, CallsField))
  }

  /** No package for no files. */
  function PackageOf(files: seq<CodeContext>): Option<PackageContext>
  {
    if files == [] then None else Some(PackageAfter(files[0], files))
  }

  /** `BuildPackageContext`. */
  method BuildPackageContext(files: seq<CodeContext>) returns (pkg: Option<PackageContext>)
    ensures pkg == PackageOf(files)
  {
    if |files| == 0 {
      return None;
    }
    var p := PackageAfter(files[0], []);
    var seen: set<string> := {};
    var i := 0;
    while i < |files|
      invariant 0 <= i <= |files|
      invariant p == PackageAfter(files[0], files[..i])
      invariant seen == SeenKeys(Flatten(files[..i], ImportsField))
    {
      var f := files[i];
      ghost var before := Flatten(files[..i], ImportsField);
      p := p.(files := p.files + [f]);
      var all, seen' := AddImports(p.allImports, seen, before, f.imports);
      p := p.(allImports := all);
      seen := seen';
      p := p.(allFunctions := p.allFunctions + f.functions,
              allTypes := p.allTypes + f.types,
              allVariables := p.allVariables + f.variables,
              allConstants := p.allConstants + f.constants,
              allCalls := p.allCalls + f.calls);
      PackageStep(files, i);
      i := i + 1;
    }
    assert files[..|files|] == files;
    return Some(p);
  }

  /** Adding file `i` extends every list by that file's. */
  lemma PackageStep(files: seq<CodeContext>, i: nat)
    requires 0 <= i < |files|
    ensures files[..i + 1][..i] == files[..i] && files[..i + 1][i] == files[i]
    ensures Flatten(files[..i + 1], ImportsField) == Flatten(files[..i], ImportsField) + files[i].imports
  {
    assert files[..i + 1][..i] == files[..i];
  }

  /** The inner loop of `BuildPackageContext`: the imports of one file whose
   *  path has not been seen are added, and their paths become seen. */
  method AddImports(all: seq<ImportInfo>, seen: set<string>, ghost prefix: seq<ImportInfo>, imps: seq<ImportInfo>)
    returns (all': seq<ImportInfo>, seen': set<string>)
    requires all == FirstByKey(prefix, ImportPath) && seen == SeenKeys(prefix)
    ensures all' == FirstByKey(prefix + imps, ImportPath) && seen' == SeenKeys(prefix + imps)
  {
    all', seen' := all, seen;
    ghost var done := prefix;
    var j := 0;
    assert prefix + imps[..0] == prefix;
    while j < |imps|
      invariant 0 <= j <= |imps|
      invariant done == prefix + imps[..j]
      invariant all' == FirstByKey(done, ImportPath) && seen' == SeenKeys(done)
    {
      var imp := imps[j];
      AppendPrefixSnoc(prefix, imps, j);
      all', seen' := AddImport(all', seen', done, imp);
      done := done + [imp];
      j := j + 1;
    }
    assert imps[..|imps|] == imps;
  }

  lemma AppendPrefixSnoc(prefix: seq<ImportInfo>, imps: seq<ImportInfo>, j: int)
    requires 0 <= j < |imps|
    ensures prefix + imps[..j + 1] == (prefix + imps[..j]) + [imps[j]]
  {
    assert imps[..j + 1] == imps[..j] + [imps[j]];
  }

  /** The body of the inner loop: one import, kept when its path is new. */
  method AddImport(all: seq<ImportInfo>, seen: set<string>, ghost done: seq<ImportInfo>, imp: ImportInfo)
    returns (all': seq<ImportInfo>, seen': set<string>)
    requires all == FirstByKey(done, ImportPath) && seen == SeenKeys(done)
    ensures all' == FirstByKey(done + [imp], ImportPath) && seen' == SeenKeys(done + [imp])
  {
    ImportStep(done, imp);
    if SeenKey(imp.path) !in seen {
      all', seen' := all + [imp], seen + {SeenKey(imp.path)};
    } else {
      all', seen' := all, seen;
    }
  }

  /** One import of the inner loop: it is kept exactly when its seen key is
   *  new, and its key becomes seen. */
  lemma ImportStep(xs: seq<ImportInfo>, imp: ImportInfo)
    ensures FirstByKey(xs + [imp], ImportPath) == FirstByKey(xs, ImportPath) + (if SeenKey(imp.path) in SeenKeys(xs) then [] else [imp])
    ensures SeenKeys(xs + [imp]) == SeenKeys(xs) + {SeenKey(imp.path)}
  {
    SeenKeysPaths(xs, imp.path);
    FirstByKeySnoc(xs, imp, ImportPath);
    SeenKeysSnoc(xs, imp);
  }

  /** The package keeps one copy of every file in order, takes its module path and
   *  package from the first, concatenates the other lists in file order, and
   *  keeps each import path once, at its first occurrence. */
  lemma PackageFacts(files: seq<CodeContext>)
    requires files != []
    ensures PackageOf(files).Some?
    ensures PackageOf(files).value.files == files
    ensures PackageOf(files).value.modulePath == files[0].modulePath
    ensures KeySet(PackageOf(files).value.allImports, ImportPath) == KeySet(Flatten(files, ImportsField), ImportPath)
    ensures var a := PackageOf(files).value.allImports;
      forall i, j :: 0 <= i < j < |a| ==> a[i].path != a[j].path
    ensures forall y :: y in PackageOf(files).value.allImports ==>
      var all := Flatten(files, ImportsField);
      exists k :: 0 <= k < |all| && all[k] == y && forall k' :: 0 <= k' < k ==> all[k'].path != y.path
    ensures |PackageOf(files).value.allFunctions| == TotalLength(files, FunctionsField)
  {
    var all := Flatten(files, ImportsField);
    var a := FirstByKey(all, ImportPath);
    assert PackageOf(files) == Some(PackageAfter(files[0], files));
    assert PackageOf(files).value.allImports == a;
    FirstByKeyFacts(all, ImportPath);
    FlattenLength(files, FunctionsField);
    forall y | y in a
      ensures exists k :: 0 <= k < |all| && all[k] == y && forall k' :: 0 <= k' < k ==> all[k'].path != y.path
    {
      FirstByKeyIsFirst(all, ImportPath, y);
    }
  }
}
