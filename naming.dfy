/** The small helpers every fact extractor shares (internal/transformer/transformer.go):
 *  exported and test names, positions and doc text. */
module Naming {
  import opened Wrappers
  import opened Text
  import opened GoAst
  import Model

  /** What a `Transformer` knows besides the tree: the file set maps every
   *  position of the file to `fileName`, the analysis pass names the package
   *  path, and `commentText` is `(*ast.CommentGroup).Text`, a library routine
   *  that is not part of this model. */
  datatype Source = Source(
    fileName: string,
    modulePath: string,
    pkgPath: string,
    commentText: Node -> string)

  /** `isExported`: the name starts with an ASCII capital letter. */
  predicate IsExported(name: string)
  {
    |name| > 0 && 'A' <= name[0] <= 'Z'
  }

  /** `isTestFunction`: the name has one of the four prefixes `go test` looks for. */
  predicate IsTestFunction(name: string)
  {
    HasPrefix(name, "Test") || HasPrefix(name, "Benchmark")
    || HasPrefix(name, "Example") || HasPrefix(name, "Fuzz")
  }

  /** `position`: the base name of the file and the given line and column. */
  function MakePosition(src: Source, p: Pos): (r: Model.Position)
    ensures r.line == p.line && r.column == p.column
    ensures r.file == Base(src.fileName)
    ensures r.file == "/" || '/' !in r.file
  {
    Model.Position(Base(src.fileName), p.line, p.column)
  }

  /** `extractDoc`: the trimmed text of a doc comment, "" without one. */
  function ExtractDoc(src: Source, doc: Option<Node>): (r: string)
    ensures doc.None? ==> r == ""
    ensures r != [] ==> !IsSpace(r[0]) && !IsSpace(r[|r| - 1])
    ensures doc.Some? ==> r == TrimSpace(src.commentText(doc.value))
  {
    if doc.None? then ""
    else
      TrimSpaceEnds(src.commentText(doc.value));
      TrimSpace(src.commentText(doc.value))
  }

  /** A name counts as a test function when it starts with one of the four
   *  prefixes, whatever follows ("Testify" included). */
  lemma TestPrefixAny(s: string)
    ensures IsTestFunction("Test" + s) && IsTestFunction("Benchmark" + s)
    ensures IsTestFunction("Example" + s) && IsTestFunction("Fuzz" + s)
  {
    assert ("Test" + s)[..4] == "Test";
    assert ("Benchmark" + s)[..9] == "Benchmark";
    assert ("Example" + s)[..7] == "Example";
    assert ("Fuzz" + s)[..4] == "Fuzz";
  }

  /** A name counts as a test function only when it starts with one of the
   *  four prefixes, in that letter case. */
  lemma TestFunctionPrefix(name: string)
    requires IsTestFunction(name)
    ensures exists p, s :: p in {"Test", "Benchmark", "Example", "Fuzz"} && name == p + s
  {
    var p := if HasPrefix(name, "Test") then "Test"
      else if HasPrefix(name, "Benchmark") then "Benchmark"
      else if HasPrefix(name, "Example") then "Example"
      else "Fuzz";
    assert |p| <= |name| && name[..|p|] == p;
    assert name == p + name[|p|..];
  }

  /** Examples: names with the prefixes count; a name that only mentions a
   *  prefix later, a lower-case one and the empty name do not. */
  lemma TestPrefixes()
    ensures IsTestFunction("TestParse") && IsTestFunction("Testify")
    ensures IsTestFunction("BenchmarkX") && IsTestFunction("FuzzDecode") && IsTestFunction("Example")
    ensures !IsTestFunction("MyTest") && !IsTestFunction("test") && !IsTestFunction("")
  {
    assert HasPrefix("TestParse", "Test");
    assert HasPrefix("Testify", "Test");
    assert HasPrefix("BenchmarkX", "Benchmark");
    assert HasPrefix("FuzzDecode", "Fuzz");
    assert HasPrefix("Example", "Example");
    assert "MyTest"[..4] == "MyTe";
    assert "test"[..4][0] != "Test"[0];
  }
}
