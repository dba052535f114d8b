/** Declaration dispatch (internal/transformer/variables.go): type, var and const
 *  declarations are added to the file's context; a var or const spec gives one
 *  fact per name, with an initialiser attached by position. */
module Variables {
  import opened Wrappers
  import opened GoAst
  import opened Model
  import opened Naming
  import opened Seqs
  import opened Functions
  import opened Calls
  import opened Types

  // ---------------------------------------------------------------------------
  // extractVariables

  /** The written type of a spec, "" when the type is inferred. */
  function SpecType(spec: Node): string
    requires spec.ValueSpec?
  {
    if spec.vtype.Some? then FormatType(spec.vtype.value) else ""
  }

  /** The first `n` names of a spec as facts: name `i` takes initialiser `i` when
   *  there is one. */
  function VariablesUpTo(src: Source, spec: Node, isConst: bool, n: nat): (r: seq<VariableInfo>)
    requires spec.ValueSpec? && n <= |spec.names|
    ensures |r| == n
    ensures forall i :: 0 <= i < n ==> r[i] == VariableOf(src, spec, isConst, i)
  {
    if n == 0 then [] else VariablesUpTo(src, spec, isConst, n - 1) + [VariableOf(src, spec, isConst, n - 1)]
  }

  /** The fact for name `i` of a spec. */
  function VariableOf(src: Source, spec: Node, isConst: bool, i: nat): VariableInfo
    requires spec.ValueSpec? && i < |spec.names|
  {
    var name := IdentName(spec.names[i]);
    VariableInfo(
      name := name,
      typ := SpecType(spec),
      isExported := IsExported(name),
      isConst := isConst,
      value := if i < |spec.values| then FormatExpr(spec.values[i]) else "",
      inFunction := "",
      position := MakePosition(src, spec.names[i].pos))
  }

  function VariablesOf(src: Source, spec: Node, isConst: bool): seq<VariableInfo>
    requires spec.ValueSpec?
  {
    VariablesUpTo(src, spec, isConst, |spec.names|)
  }

  /** `extractVariables`. */
  method ExtractVariables(src: Source, spec: Node, isConst: bool) returns (vars: seq<VariableInfo>)
    requires spec.ValueSpec?
    ensures vars == VariablesOf(src, spec, isConst)
  {
    vars := [];
    var typeStr := "";
    if spec.vtype.Some? {
      typeStr := FormatType(spec.vtype.value);
    }
    assert typeStr == SpecType(spec);
    var i := 0;
    while i < |spec.names|
      invariant 0 <= i <= |spec.names|
      invariant vars == VariablesUpTo(src, spec, isConst, i)
    {
      var name := spec.names[i];
      var value := "";
      if i < |spec.values| {
        value := FormatExpr(spec.values[i]);
      }
      var v := VariableInfo(IdentName(name), typeStr, IsExported(IdentName(name)), isConst, value, "", MakePosition(src, name.pos));
      vars := vars + [v];
      i := i + 1;
    }
  }

  /** One fact per name in written order, all of the spec's type and constness;
   *  a name has a value exactly when an initialiser stands at its index, and is
   *  exported exactly when its name is. */
  lemma VariablesFacts(src: Source, spec: Node, isConst: bool)
    requires spec.ValueSpec?
    ensures |VariablesOf(src, spec, isConst)| == |spec.names|
    ensures forall i :: 0 <= i < |spec.names| ==>
      var v := VariablesOf(src, spec, isConst)[i];
      v.name == IdentName(spec.names[i]) && v.typ == SpecType(spec) && v.isConst == isConst
      && v.isExported == IsExported(v.name)
      && (i < |spec.values| ==> v.value == FormatExpr(spec.values[i]))
      && (i >= |spec.values| ==> v.value == "")
  {
  }

  // ---------------------------------------------------------------------------
  // extractGenDecl

  function TypeSpecEntry(src: Source, doc: Option<Node>): Node -> Option<TypeInfo>
  {
    (s: Node) => if s.TypeSpec? then Some(TypeOf(src, s, doc)) else None
  }

  function ValueSpecEntries(src: Source, isConst: bool): Node -> seq<VariableInfo>
  {
    (s: Node) => if s.ValueSpec? then VariablesOf(src, s, isConst) else []
  }

  /** The types a declaration adds: those of its type specs, all documented by
   *  the declaration's doc comment. */
  function DeclTypes(src: Source, decl: Node): seq<TypeInfo>
  {
    if decl.GenDecl? && decl.tok == TypeTok then Collect(decl.specs, TypeSpecEntry(src, decl.doc)) else []
  }

  function DeclVariables(src: Source, decl: Node): seq<VariableInfo>
  {
    if decl.GenDecl? && decl.tok == VarTok then Flatten(decl.specs, ValueSpecEntries(src, false)) else []
  }

  function DeclConstants(src: Source, decl: Node): seq<VariableInfo>
  {
    if decl.GenDecl? && decl.tok == ConstTok then Flatten(decl.specs, ValueSpecEntries(src, true)) else []
  }

  /** The file context being built, which `extractGenDecl` appends to through a
   *  pointer. */
  class ContextRef {
    var ctx: CodeContext

    constructor(ctx0: CodeContext)
      ensures ctx == ctx0
    {
      ctx := ctx0;
    }

    /** `extractGenDecl`: the declaration's types, variables or constants go
     *  after those already collected; nothing else changes. */
    method ExtractGenDecl(src: Source, decl: Node)
      requires decl.GenDecl?
      modifies this
      ensures ctx == old(ctx).(types := old(ctx).types + DeclTypes(src, decl),
                               variables := old(ctx).variables + DeclVariables(src, decl),
                               constants := old(ctx).constants + DeclConstants(src, decl))
    {
      match decl.tok {
        case TypeTok => AddTypes(src, decl.specs, decl.doc);
        case VarTok => AddValues(src, decl.specs, false);
        case ConstTok => AddValues(src, decl.specs, true);
        case ImportTok =>
      }
    }

    /** The loop of the `token.TYPE` case. */
    method AddTypes(src: Source, specs: seq<Node>, doc: Option<Node>)
      modifies this
      ensures ctx == old(ctx).(types := old(ctx).types + Collect(specs, TypeSpecEntry(src, doc)))
    {
      var i := 0;
      while i < |specs|
        invariant 0 <= i <= |specs|
        invariant ctx == old(ctx).(types := old(ctx).types + Collect(specs[..i], TypeSpecEntry(src, doc)))
      {
        assert specs[..i + 1][..i] == specs[..i];
        if specs[i].TypeSpec? {
          var info := ExtractType(src, specs[i], doc);
          ctx := ctx.(types := ctx.types + [info]);
        }
        i := i + 1;
      }
      assert specs[..|specs|] == specs;
    }

    /** The loops of the `token.VAR` and `token.CONST` cases. */
    method AddValues(src: Source, specs: seq<Node>, isConst: bool)
      modifies this
      ensures ctx == WithValues(old(ctx), isConst, Flatten(specs, ValueSpecEntries(src, isConst)))
    {
      var i := 0;
      ghost var c0 := ctx;
      assert c0 == WithValues(c0, isConst, []);
      while i < |specs|
        invariant 0 <= i <= |specs|
        invariant ctx == WithValues(c0, isConst, Flatten(specs[..i], ValueSpecEntries(src, isConst)))
      {
        ghost var before := Flatten(specs[..i], ValueSpecEntries(src, isConst));
        assert specs[..i + 1][..i] == specs[..i];
        assert Flatten(specs[..i + 1], ValueSpecEntries(src, isConst)) == before + ValueSpecEntries(src, isConst)(specs[i]);
        if specs[i].ValueSpec? {
          var vars := ExtractVariables(src, specs[i], isConst);
          WithValuesAppend(c0, isConst, before, vars);
          if isConst {
            ctx := ctx.(constants := ctx.constants + vars);
          } else {
            ctx := ctx.(variables := ctx.variables + vars);
          }
        } else {
          assert before + ValueSpecEntries(src, isConst)(specs[i]) == before;
        }
        i := i + 1;
      }
      assert specs[..|specs|] == specs;
    }
  }

  /** A context with `vs` added to its constants or to its variables. */
  function WithValues(c: CodeContext, isConst: bool, vs: seq<VariableInfo>): CodeContext
  {
    if isConst then c.(constants := c.constants + vs) else c.(variables := c.variables + vs)
  }

  lemma WithValuesAppend(c: CodeContext, isConst: bool, a: seq<VariableInfo>, b: seq<VariableInfo>)
    ensures WithValues(WithValues(c, isConst, a), isConst, b) == WithValues(c, isConst, a + b)
  {
    assert c.constants + a + b == c.constants + (a + b);
    assert c.variables + a + b == c.variables + (a + b);
  }

  /** A declaration adds to at most one list, chosen by its keyword: types to
   *  `Types`, vars to `Variables` (not constant), consts to `Constants`
   *  (constant), imports to none. */
  lemma DeclDispatch(src: Source, decl: Node, v: VariableInfo)
    requires decl.GenDecl?
    ensures decl.tok != TypeTok ==> DeclTypes(src, decl) == []
    ensures decl.tok != VarTok ==> DeclVariables(src, decl) == []
    ensures decl.tok != ConstTok ==> DeclConstants(src, decl) == []
    ensures v in DeclVariables(src, decl) ==> !v.isConst
    ensures v in DeclConstants(src, decl) ==> v.isConst
    ensures |DeclTypes(src, decl)| <= |decl.specs|
  {
    CollectLength(decl.specs, TypeSpecEntry(src, decl.doc));
    SpecEntriesFlag(src, decl.specs, false, v);
    SpecEntriesFlag(src, decl.specs, true, v);
  }

  /** Every fact of a list of value specs carries the flag it was made with. */
  lemma SpecEntriesFlag(src: Source, specs: seq<Node>, isConst: bool, v: VariableInfo)
    ensures v in Flatten(specs, ValueSpecEntries(src, isConst)) ==> v.isConst == isConst
  {
    FlattenMembers(specs, ValueSpecEntries(src, isConst), v);
    if v in Flatten(specs, ValueSpecEntries(src, isConst)) {
      var k :| 0 <= k < |specs| && v in ValueSpecEntries(src, isConst)(specs[k]);
      var vs := ValueSpecEntries(src, isConst)(specs[k]);
      var j :| 0 <= j < |vs| && vs[j] == v;
    }
  }
}
