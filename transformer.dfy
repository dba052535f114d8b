/** `Transform` (internal/transformer/transformer.go): the fact bag of one file.
 *  Imports come first; then one walk over the whole file adds a function fact
 *  for every function declaration, followed by that function's calls, and
 *  dispatches every general declaration it meets, those inside function bodies
 *  included. */
module Transformer {
  import opened Wrappers
  import opened GoAst
  import opened Model
  import opened Naming
  import opened Seqs
  import opened Functions
  import opened Calls
  import opened Types
  import opened Variables
  import opened Imports

  function FunctionEntry(src: Source): Node -> Option<FunctionInfo>
  {
    (n: Node) => if n.FuncDecl? then Some(FunctionOf(src, n)) else None
  }

  /** The calls a walked node contributes: those of a function declaration,
   *  attributed to the function's name. */
  function CallsEntry(src: Source): Node -> seq<CallInfo>
  {
    (n: Node) => if n.FuncDecl? then CallsOf(src, n, IdentName(n.fname)) else []
  }

  function TypesEntry(src: Source): Node -> seq<TypeInfo>
  {
    (n: Node) => DeclTypes(src, n)
  }

  function VariablesEntry(src: Source): Node -> seq<VariableInfo>
  {
    (n: Node) => DeclVariables(src, n)
  }

  function ConstantsEntry(src: Source): Node -> seq<VariableInfo>
  {
    (n: Node) => DeclConstants(src, n)
  }

  /** The context after the walk has visited `nodes`. */
  function ContextAfter(src: Source, file: Node, filePath: string, nodes: seq<Node>): CodeContext
    requires file.File? && ImportSpecs(file.imports)
  {
    CodeContext(
      filePath := filePath,
      modulePath := src.modulePath,
      package := PackageInfo(IdentName(file.pkgName), src.pkgPath, ExtractDoc(src, file.doc)),
      imports := ImportsOf(src, file.imports),
      functions := Collect(nodes, FunctionEntry(src)),
      types := Flatten(nodes, TypesEntry(src)),
      variables := Flatten(nodes, VariablesEntry(src)),
      constants := Flatten(nodes, ConstantsEntry(src)),
      calls := Flatten(nodes, CallsEntry(src)),
      typeUsages := [],
      fieldAccess := [])
  }

  /** The fact bag of a file: the context after walking all of it. */
  function TransformOf(src: Source, file: Node, filePath: string): CodeContext
    requires file.File? && ImportSpecs(file.imports)
  {
    ContextAfter(src, file, filePath, Preorder(file))
  }

  /** What visiting one node adds, at the end of each list: a function fact and
   *  its calls for a function declaration, the declared types, variables or
   *  constants for a general declaration. */
  function Visit(src: Source, c: CodeContext, n: Node): CodeContext
  {
    c.(functions := c.functions + (if n.FuncDecl? then [FunctionOf(src, n)] else []),
       types := c.types + DeclTypes(src, n),
       variables := c.variables + DeclVariables(src, n),
       constants := c.constants + DeclConstants(src, n),
       calls := c.calls + (if n.FuncDecl? then CallsOf(src, n, IdentName(n.fname)) else []))
  }

  lemma ContextStep(src: Source, file: Node, filePath: string, nodes: seq<Node>, n: Node)
    requires file.File? && ImportSpecs(file.imports)
    ensures ContextAfter(src, file, filePath, nodes + [n]) == Visit(src, ContextAfter(src, file, filePath, nodes), n)
  {
    assert (nodes + [n])[..|nodes|] == nodes;
  }

  /** The walk callback of `Transform` for one node. */
  method VisitNode(b: ContextRef, src: Source, n: Node)
    modifies b
    ensures b.ctx == Visit(src, old(b.ctx), n)
  {
    if n.FuncDecl? {
      var fn := ExtractFunction(src, n);
      b.ctx := b.ctx.(functions := b.ctx.functions + [fn]);
      var calls := ExtractCalls(src, n, fn.name);
      b.ctx := b.ctx.(calls := b.ctx.calls + calls);
    } else if n.GenDecl? {
      b.ExtractGenDecl(src, n);
    }
  }

  /** The context `Transform` starts from: the file and package facts, the
   *  imports, and every other list empty. */
  method NewContext(src: Source, file: Node, filePath: string) returns (b: ContextRef)
    requires file.File? && ImportSpecs(file.imports)
    ensures fresh(b) && b.ctx == ContextAfter(src, file, filePath, [])
  {
    var pkg := PackageInfo(IdentName(file.pkgName), src.pkgPath, ExtractDoc(src, file.doc));
    b := new ContextRef(CodeContext(filePath, src.modulePath, pkg, [], [], [], [], [], [], [], []));
    var imports := ExtractImports(src, file);
    b.ctx := b.ctx.(imports := imports);
  }

  /** `Transform`. */
  method Transform(src: Source, file: Node, filePath: string) returns (ctx: CodeContext)
    requires file.File? && ImportSpecs(file.imports)
    ensures ctx == TransformOf(src, file, filePath)
  {
    var b := NewContext(src, file, filePath);
    var nodes := Inspect(file, NoPrune);
    var i := 0;
    while i < |nodes|
      invariant 0 <= i <= |nodes|
      invariant b.ctx == ContextAfter(src, file, filePath, nodes[..i])
    {
      ghost var before := b.ctx;
      VisitNode(b, src, nodes[i]);
      VisitStep(src, file, filePath, nodes, i, before, b.ctx);
      i := i + 1;
    }
    assert nodes[..|nodes|] == nodes;
    ctx := b.ctx;
  }

  /** The loop step of `Transform`: visiting node `i` extends the context after
   *  the first `i` nodes to the context after `i + 1`. */
  lemma VisitStep(src: Source, file: Node, filePath: string, nodes: seq<Node>, i: nat, before: CodeContext, after: CodeContext)
    requires file.File? && ImportSpecs(file.imports)
    requires i < |nodes|
    requires before == ContextAfter(src, file, filePath, nodes[..i])
    requires after == Visit(src, before, nodes[i])
    ensures after == ContextAfter(src, file, filePath, nodes[..i + 1])
  {
    ContextStep(src, file, filePath, nodes[..i], nodes[i]);
    assert nodes[..i + 1] == nodes[..i] + [nodes[i]];
  }

  predicate IsFuncDecl(n: Node)
  {
    n.FuncDecl?
  }

  /** One function fact per function declaration anywhere in the file, and every
   *  call is attributed to one of the file's functions. */
  lemma FunctionsAndCalls(src: Source, file: Node, filePath: string, c: CallInfo)
    requires file.File? && ImportSpecs(file.imports)
    ensures |TransformOf(src, file, filePath).functions| == CountIf(Preorder(file), IsFuncDecl)
    ensures c in TransformOf(src, file, filePath).calls ==>
      exists f :: f in TransformOf(src, file, filePath).functions && f.name == c.inFunction
  {
    var nodes := Preorder(file);
    CollectCount(nodes, FunctionEntry(src), IsFuncDecl);
    if c in TransformOf(src, file, filePath).calls {
      FlattenMembers(nodes, CallsEntry(src), c);
      var k :| 0 <= k < |nodes| && c in CallsEntry(src)(nodes[k]);
      var fn := nodes[k];
      CallsCount(src, fn, IdentName(fn.fname), c);
      CollectMembers(nodes, FunctionEntry(src), FunctionOf(src, fn));
      assert FunctionOf(src, fn).name == c.inFunction;
    }
  }

  /** Declarations are found wherever the walk reaches them: the types of a type
   *  declaration nested inside any walked node (a function body, say) are all
   *  in the file's types. */
  lemma NestedDeclarations(src: Source, file: Node, filePath: string, outer: Node, decl: Node, t: TypeInfo)
    requires file.File? && ImportSpecs(file.imports)
    requires outer in Preorder(file) && decl in Preorder(outer)
    requires t in DeclTypes(src, decl)
    ensures t in TransformOf(src, file, filePath).types
  {
    PreorderClosed(file, outer, decl);
    var nodes := Preorder(file);
    var k :| 0 <= k < |nodes| && nodes[k] == decl;
    FlattenMembers(nodes, TypesEntry(src), t);
  }

  /** Imports keep the file's spec order; the package facts come from the file's
   *  name and doc; type usages and field accesses are never collected. */
  lemma ContextShape(src: Source, file: Node, filePath: string)
    requires file.File? && ImportSpecs(file.imports)
    ensures |TransformOf(src, file, filePath).imports| == |file.imports|
    ensures TransformOf(src, file, filePath).package.name == IdentName(file.pkgName)
    ensures file.doc.None? ==> TransformOf(src, file, filePath).package.doc == ""
    ensures TransformOf(src, file, filePath).typeUsages == [] && TransformOf(src, file, filePath).fieldAccess == []
  {
    ImportsFacts(src, file.imports);
  }
}
