/** Import facts (internal/transformer/imports.go): one fact per import spec of
 *  the file, in order. */
module Imports {
  import opened Wrappers
  import opened Text
  import opened GoAst
  import opened Model
  import opened Naming

  /** Every entry of a file's import list is an import spec, as the parser builds it. */
  predicate ImportSpecs(specs: seq<Node>)
  {
    forall k :: 0 <= k < |specs| ==> specs[k].ImportSpec?
  }

  /** The fact for one import: the path without its quotes, the explicit name
   *  when one is written ("_" and "." included), and the spec's position. */
  function ImportOf(src: Source, spec: Node): ImportInfo
    requires spec.ImportSpec?
  {
    ImportInfo(
      path := TrimChar(LitValue(spec.path), '"'),
      alias := if spec.alias.Some? then IdentName(spec.alias.value) else "",
      position := MakePosition(src, spec.pos))
  }

  function ImportsUpTo(src: Source, specs: seq<Node>, n: nat): (r: seq<ImportInfo>)
    requires ImportSpecs(specs) && n <= |specs|
    ensures |r| == n
    ensures forall k :: 0 <= k < n ==> r[k] == ImportOf(src, specs[k])
  {
    if n == 0 then [] else ImportsUpTo(src, specs, n - 1) + [ImportOf(src, specs[n - 1])]
  }

  function ImportsOf(src: Source, specs: seq<Node>): seq<ImportInfo>
    requires ImportSpecs(specs)
  {
    ImportsUpTo(src, specs, |specs|)
  }

  /** `extractImports`. */
  method ExtractImports(src: Source, file: Node) returns (imports: seq<ImportInfo>)
    requires file.File? && ImportSpecs(file.imports)
    ensures imports == ImportsOf(src, file.imports)
  {
    imports := [];
    var i := 0;
    while i < |file.imports|
      invariant 0 <= i <= |file.imports|
      invariant imports == ImportsUpTo(src, file.imports, i)
    {
      var imp := file.imports[i];
      var alias := "";
      if imp.alias.Some? {
        alias := IdentName(imp.alias.value);
      }
      var info := ImportInfo(TrimChar(LitValue(imp.path), '"'), alias, MakePosition(src, imp.pos));
      imports := imports + [info];
      i := i + 1;
    }
  }

  /** One fact per spec, in order; a path never starts or ends with a quote, an
   *  alias is recorded only for a spec that names one, and the position is the
   *  spec's own. */
  lemma ImportsFacts(src: Source, specs: seq<Node>)
    requires ImportSpecs(specs)
    ensures |ImportsOf(src, specs)| == |specs|
    ensures forall k :: 0 <= k < |specs| ==>
      var p := ImportsOf(src, specs)[k].path;
      p != [] ==> p[0] != '"' && p[|p| - 1] != '"'
    ensures forall k :: 0 <= k < |specs| && ImportsOf(src, specs)[k].alias != "" ==> specs[k].alias.Some?
    ensures forall k :: 0 <= k < |specs| && specs[k].alias.Some? ==>
      ImportsOf(src, specs)[k].alias == IdentName(specs[k].alias.value)
    ensures forall k :: 0 <= k < |specs| ==> ImportsOf(src, specs)[k].position.line == specs[k].pos.line
  {
  }

  /** A quoted path loses exactly its quotes. */
  lemma UnquotePath(p: string)
    requires p == [] || (p[0] != '"' && p[|p| - 1] != '"')
    ensures TrimChar("\"" + p + "\"", '"') == p
  {
    var s := "\"" + p + "\"";
    var t := p + "\"";
    assert s[1..] == t;
    assert TrimChar(s, '"') == TrimChar(t, '"');
    if p == [] {
      assert t[1..] == [];
    } else {
      assert t[0] == p[0] && t[..|t| - 1] == p;
      assert TrimChar(t, '"') == TrimChar(p, '"');
    }
  }
}
