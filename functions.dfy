/** Function facts (internal/transformer/functions.go): type rendering, parameter
 *  flattening, cyclomatic complexity, doc comments and `@` annotations. */
module Functions {
  import opened Wrappers
  import opened Text
  import opened GoAst
  import opened Model
  import opened Naming
  import opened Seqs

  // ---------------------------------------------------------------------------
  // formatType

  /** `formatType`: the short rendering of a type expression. */
  function FormatType(e: Node): (r: string)
  {
    match e
    case Ident(_, name) => name
    case StarExpr(_, x) => "*" + FormatType(x)
    case SelectorExpr(_, x, sel) => FormatType(x) + "." + IdentName(sel)
    case ArrayType(_, len, elt) => (if len.None? then "[]" else "[...]") + FormatType(elt)
    case MapType(_, k, v) => "map[" + FormatType(k) + "]" + FormatType(v)
    case ChanType(_, dir, v) =>
      (match dir
       case Send => "chan<- "
       case Recv => "<-chan "
       case SendRecv => "chan ") + FormatType(v)
    case FuncType(_, _, _, _) => "func(...)"
    case InterfaceType(_, _) => "interface{}"
    case StructType(_, _, _) => "struct{}"
    case Ellipsis(_, elt) => "..." + FormatTypeOpt(elt)
    case _ => "unknown"
  }

  /** Only an identifier can render as empty text: every other type expression,
   *  an unknown one included, has a non-empty rendering. */
  lemma FormatTypeNonEmpty(e: Node)
    ensures !e.Ident? ==> FormatType(e) != ""
  {
  }

  /** `formatType` of a possibly nil expression: nil falls to the default case. */
  function FormatTypeOpt(e: Option<Node>): string
  {
    if e.Some? then FormatType(e.value) else "unknown"
  }

  // ---------------------------------------------------------------------------
  // extractParams

  /** The fields of a `*ast.FieldList` field (a non-list holds none). */
  function FieldsOf(n: Node): seq<Node>
  {
    if n.FieldList? then n.list else []
  }

  /** One entry per name, all sharing `typ`. */
  function NamedParams(names: seq<Node>, typ: string): (r: seq<ParameterInfo>)
    ensures |r| == |names|
    ensures forall i :: 0 <= i < |names| ==> r[i] == ParameterInfo(IdentName(names[i]), typ)
  {
    if names == [] then []
    else NamedParams(names[..|names| - 1], typ) + [ParameterInfo(IdentName(names[|names| - 1]), typ)]
  }

  /** The entries one parameter group contributes: a nameless group gives a single
   *  entry with an empty name. */
  function GroupParams(field: Node): seq<ParameterInfo>
  {
    if !field.Field? then []
    else if field.names == [] then [ParameterInfo("", FormatType(field.ftype))]
    else NamedParams(field.names, FormatType(field.ftype))
  }

  /** `extractParams` over a field list: the groups' entries, in order. */
  function Params(fields: seq<Node>): seq<ParameterInfo>
  {
    Flatten(fields, GroupParams)
  }

  /** The number of entries a group contributes: one per name, at least one. */
  function Slots(field: Node): nat
  {
    if !field.Field? then 0 else if field.names == [] then 1 else |field.names|
  }

  function SlotsOf(fields: seq<Node>): nat
  {
    if fields == [] then 0 else SlotsOf(fields[..|fields| - 1]) + Slots(fields[|fields| - 1])
  }

  /** Every group keeps its type string for each of its names, and the names come
   *  in written order. */
  lemma GroupParamsShape(field: Node)
    requires field.Field?
    ensures |GroupParams(field)| == Slots(field)
    ensures forall p :: p in GroupParams(field) ==> p.typ == FormatType(field.ftype)
    ensures field.names == [] ==> GroupParams(field)[0].name == ""
    ensures forall i :: 0 <= i < |field.names| ==> GroupParams(field)[i].name == IdentName(field.names[i])
  {
  }

  /** The flattened list has exactly one entry per name, and one per nameless group. */
  lemma {:induction false} ParamsLength(fields: seq<Node>)
    ensures |Params(fields)| == SlotsOf(fields)
  {
    if fields != [] {
      ParamsLength(fields[..|fields| - 1]);
      var f := fields[|fields| - 1];
      if f.Field? {
        GroupParamsShape(f);
      }
      assert Params(fields) == Params(fields[..|fields| - 1]) + GroupParams(f);
    }
  }

  /** `extractParams`. */
  method ExtractParams(fields: Node) returns (params: seq<ParameterInfo>)
    ensures params == Params(FieldsOf(fields))
  {
    var list := FieldsOf(fields);
    params := [];
    var i := 0;
    while i < |list|
      invariant 0 <= i <= |list|
      invariant params == Params(list[..i])
    {
      var field := list[i];
      assert list[..i + 1][..i] == list[..i];
      if field.Field? {
        var typeStr := FormatType(field.ftype);
        if |field.names| == 0 {
          params := params + [ParameterInfo("", typeStr)];
        } else {
          params := AppendNamed(params, field.names, typeStr);
        }
      }
      i := i + 1;
    }
    assert list[..|list|] == list;
  }

  /** The inner loop of `extractParams`: one entry per name. */
  method AppendNamed(params: seq<ParameterInfo>, names: seq<Node>, typ: string)
    returns (r: seq<ParameterInfo>)
    ensures r == params + NamedParams(names, typ)
  {
    r := params;
    var j := 0;
    while j < |names|
      invariant 0 <= j <= |names|
      invariant r == params + NamedParams(names[..j], typ)
    {
      assert names[..j + 1][..j] == names[..j];
      r := r + [ParameterInfo(IdentName(names[j]), typ)];
      j := j + 1;
    }
    assert names[..|names|] == names;
  }

  // ---------------------------------------------------------------------------
  // calculateComplexity

  /** A node that opens a decision: a branch, a loop, a switch or select and each
   *  of their clauses, or a short-circuit operator. */
  predicate IsDecision(n: Node)
  {
    n.IfStmt? || n.ForStmt? || n.RangeStmt? || n.SwitchStmt? || n.TypeSwitchStmt?
    || n.CaseClause? || n.SelectStmt? || n.CommClause?
    || (n.BinaryExpr? && (n.op == "&&" || n.op == "||"))
  }

  function Decisions(ns: seq<Node>): nat
  {
    CountIf(ns, IsDecision)
  }

  /** The cyclomatic complexity of a body: one plus its decision nodes, closures included. */
  function Complexity(body: Node): int
  {
    1 + Decisions(Preorder(body))
  }

  method CalculateComplexity(body: Node) returns (complexity: int)
    ensures complexity == Complexity(body)
  {
    var nodes := Inspect(body, NoPrune);
    complexity := 1;
    var i := 0;
    while i < |nodes|
      invariant 0 <= i <= |nodes|
      invariant complexity == 1 + Decisions(nodes[..i])
    {
      assert nodes[..i + 1][..i] == nodes[..i];
      if IsDecision(nodes[i]) {
        complexity := complexity + 1;
      }
      i := i + 1;
    }
    assert nodes[..|nodes|] == nodes;
  }

  /** A body without any decision node has complexity 1, and only such a body. */
  lemma BranchFree(body: Node)
    ensures Complexity(body) == 1 <==> forall k :: 0 <= k < |Preorder(body)| ==> !IsDecision(Preorder(body)[k])
  {
    CountIfZero(Preorder(body), IsDecision);
  }

  /** The sum of the decision counts of a list of subtrees. */
  function ChildDecisions(ns: seq<Node>): nat
  {
    if ns == [] then 0 else Decisions(Preorder(ns[0])) + ChildDecisions(ns[1..])
  }

  lemma {:induction false} WalkListDecisions(ns: seq<Node>)
    ensures Decisions(WalkList(ns, NoPrune)) == ChildDecisions(ns)
    decreases |ns|
  {
    if ns != [] {
      WalkListDecisions(ns[1..]);
      CountIfAppend(Preorder(ns[0]), WalkList(ns[1..], NoPrune), IsDecision);
    }
  }

  /** Complexity composes: a node's decisions are its own plus those of each child
   *  subtree, so nesting adds and never hides a branch. */
  lemma DecisionsCompose(n: Node)
    ensures Decisions(Preorder(n)) == (if IsDecision(n) then 1 else 0) + ChildDecisions(Children(n))
  {
    PreorderUnfold(n);
    CountIfAppend([n], WalkList(Children(n), NoPrune), IsDecision);
    WalkListDecisions(Children(n));
  }

  // ---------------------------------------------------------------------------
  // extractComments

  /** The comments held by a `*ast.CommentGroup`. */
  function GroupList(n: Node): seq<Node>
  {
    if n.CommentGroup? then n.list else []
  }

  function CommentText(c: Node): string
  {
    if c.Comment? then c.text else ""
  }

  /** One comment cleaned: a leading `//` or `/*` and a trailing `*/` removed, then trimmed. */
  function CleanComment(text: string): (r: string)
  {
    TrimSpace(TrimSuffix(TrimPrefix(TrimPrefix(text, "//"), "/*"), "*/"))
  }

  /** A comment's cleaned text, when there is any. */
  function CleanedText(c: Node): Option<string>
  {
    var text := CleanComment(CommentText(c));
    if text != "" then Some(text) else None
  }

  /** The cleaned comments of a group that are not empty, in order. */
  function Comments(list: seq<Node>): seq<string>
  {
    Collect(list, CleanedText)
  }

  /** `extractComments` on a doc group that is present. */
  method ExtractComments(doc: Node) returns (comments: seq<string>)
    ensures comments == Comments(GroupList(doc))
  {
    var list := GroupList(doc);
    comments := [];
    var i := 0;
    while i < |list|
      invariant 0 <= i <= |list|
      invariant comments == Comments(list[..i])
    {
      var text := TrimPrefix(CommentText(list[i]), "//");
      text := TrimPrefix(text, "/*");
      text := TrimSuffix(text, "*/");
      text := TrimSpace(text);
      CommentsStep(list, i);
      if text != "" {
        comments := comments + [text];
      }
      i := i + 1;
    }
    assert list[..|list|] == list;
  }

  lemma CommentsStep(list: seq<Node>, i: nat)
    requires i < |list|
    ensures Comments(list[..i + 1]) ==
      Comments(list[..i]) + (if CleanComment(CommentText(list[i])) != "" then [CleanComment(CommentText(list[i]))] else [])
  {
    assert list[..i + 1][..i] == list[..i];
  }

  /** Every kept comment is non-empty and trimmed, and the kept comments are
   *  exactly the non-empty cleaned texts of the group's comments. */
  lemma CommentsFacts(list: seq<Node>, s: string)
    ensures |Comments(list)| <= |list|
    ensures s in Comments(list) <==>
      s != "" && exists k :: 0 <= k < |list| && s == CleanComment(CommentText(list[k]))
  {
    CollectLength(list, CleanedText);
    CollectMembers(list, CleanedText, s);
  }

  // ---------------------------------------------------------------------------
  // extractAnnotations

  /** The key and value of an `@key rest` line: the value is the trimmed rest, or
   *  the flag when no space follows the key. */
  function AnnotationOf(comment: string): (string, AnnotationValue)
  {
    var parts := SplitFirst(comment, ' ');
    var key := TrimPrefix(parts[0], "@");
    if |parts| > 1 then (key, AnnotationText(TrimSpace(parts[1]))) else (key, AnnotationFlag)
  }

  /** The entry an annotation line contributes; other lines contribute none. */
  function AnnotationEntry(comment: string): Option<(string, AnnotationValue)>
  {
    if HasPrefix(comment, "@") then Some(AnnotationOf(comment)) else None
  }

  function Annotations(comments: seq<string>): map<string, AnnotationValue>
  {
    Assign(comments, AnnotationEntry)
  }

  /** `extractAnnotations`; the empty map stands for the nil one it returns when
   *  no line is an annotation. */
  method ExtractAnnotations(comments: seq<string>) returns (annotations: map<string, AnnotationValue>)
    ensures annotations == Annotations(comments)
  {
    annotations := map[];
    var i := 0;
    while i < |comments|
      invariant 0 <= i <= |comments|
      invariant annotations == Annotations(comments[..i])
    {
      assert comments[..i + 1][..i] == comments[..i];
      var comment := comments[i];
      if HasPrefix(comment, "@") {
        var parts := SplitFirst(comment, ' ');
        var key := TrimPrefix(parts[0], "@");
        if |parts| > 1 {
          annotations := annotations[key := AnnotationText(TrimSpace(parts[1]))];
        } else {
          annotations := annotations[key := AnnotationFlag];
        }
      }
      i := i + 1;
    }
    assert comments[..|comments|] == comments;
  }

  /** A key is present exactly when some line starting with '@' carries it, and
   *  a repeated key keeps the value of its last line. */
  lemma AnnotationKeys(comments: seq<string>, key: string)
    ensures key in Annotations(comments) <==>
      exists j :: 0 <= j < |comments| && HasPrefix(comments[j], "@") && AnnotationOf(comments[j]).0 == key
    ensures key in Annotations(comments) ==>
      exists j :: LastEntryAt(comments, AnnotationEntry, j, key)
                  && Annotations(comments)[key] == AnnotationOf(comments[j]).1
  {
    AssignKeys(comments, AnnotationEntry, key);
    if key in Annotations(comments) {
      AssignLastWins(comments, AnnotationEntry, key);
    }
  }

  // ---------------------------------------------------------------------------
  // extractFunction

  /** `formatReceiver`: the type of the receiver field. */
  function ReceiverOf(recv: Option<Node>): string
  {
    if recv.Some? && FieldsOf(recv.value) != [] && FieldsOf(recv.value)[0].Field?
    then FormatType(FieldsOf(recv.value)[0].ftype)
    else ""
  }

  /** The flattened parameters of an optional field list (none when absent). */
  function ParamsOpt(fields: Option<Node>): seq<ParameterInfo>
  {
    if fields.Some? then Params(FieldsOf(fields.value)) else []
  }

  /** The line of the closing brace of a body. */
  function EndLine(body: Node): int
  {
    if body.BlockStmt? then body.rbrace.line else body.pos.line
  }

  function DocComments(doc: Option<Node>): seq<string>
  {
    if doc.Some? then Comments(GroupList(doc.value)) else []
  }

  /** The facts of one function declaration. */
  function FunctionOf(src: Source, fn: Node): FunctionInfo
    requires fn.FuncDecl?
  {
    var name := IdentName(fn.fname);
    var comments := DocComments(fn.doc);
    FunctionInfo(
      name := name,
      receiver := ReceiverOf(fn.recv),
      parameters := if fn.ftype.FuncType? then ParamsOpt(fn.ftype.params) else [],
      results := if fn.ftype.FuncType? then ParamsOpt(fn.ftype.results) else [],
      isExported := IsExported(name),
      isTest := IsTestFunction(name),
      complexity := if fn.fbody.Some? then Complexity(fn.fbody.value) else 0,
      lineCount := if fn.fbody.Some? then EndLine(fn.fbody.value) - fn.fbody.value.pos.line + 1 else 0,
      position := MakePosition(src, fn.pos),
      comments := comments,
      annotations := Annotations(comments))
  }

  /** `extractFunction`. */
  method ExtractFunction(src: Source, fn: Node) returns (info: FunctionInfo)
    requires fn.FuncDecl?
    ensures info == FunctionOf(src, fn)
  {
    var name := IdentName(fn.fname);
    var receiver := ExtractReceiver(fn.recv);
    var params, results := ExtractSignature(fn.ftype);
    var complexity, lineCount := ExtractMetrics(fn.fbody);
    var comments := ExtractDocLines(fn.doc);
    var annotations := ExtractAnnotations(comments);
    info := FunctionInfo(name, receiver, params, results, IsExported(name), IsTestFunction(name),
                         complexity, lineCount, MakePosition(src, fn.pos), comments, annotations);
  }

  /** The receiver type of a method declaration; empty for a function. */
  method ExtractReceiver(recv: Option<Node>) returns (receiver: string)
    ensures receiver == ReceiverOf(recv)
  {
    receiver := "";
    if recv.Some? {
      var fields := FieldsOf(recv.value);
      if |fields| > 0 && fields[0].Field? {
        receiver := FormatType(fields[0].ftype);
      }
    }
  }

  /** The complexity and line count of an optional body (both 0 without one). */
  method ExtractMetrics(body: Option<Node>) returns (complexity: int, lineCount: int)
    ensures complexity == if body.Some? then Complexity(body.value) else 0
    ensures lineCount == if body.Some? then EndLine(body.value) - body.value.pos.line + 1 else 0
  {
    complexity, lineCount := 0, 0;
    if body.Some? {
      var b := body.value;
      lineCount := EndLine(b) - b.pos.line + 1;
      complexity := CalculateComplexity(b);
    }
  }

  /** The lines of an optional doc comment (none without one). */
  method ExtractDocLines(doc: Option<Node>) returns (comments: seq<string>)
    ensures comments == DocComments(doc)
  {
    comments := [];
    if doc.Some? {
      comments := ExtractComments(doc.value);
    }
  }

  /** The parameter and result lists of a function type; absent lists stay empty. */
  method ExtractSignature(ftype: Node) returns (params: seq<ParameterInfo>, results: seq<ParameterInfo>)
    ensures ftype.FuncType? ==> params == ParamsOpt(ftype.params) && results == ParamsOpt(ftype.results)
    ensures !ftype.FuncType? ==> params == [] && results == []
  {
    params, results := [], [];
    if ftype.FuncType? && ftype.params.Some? {
      params := ExtractParams(ftype.params.value);
    }
    if ftype.FuncType? && ftype.results.Some? {
      results := ExtractParams(ftype.results.value);
    }
  }

  /** A function with a body has complexity at least 1 and counts the lines from
   *  its opening to its closing brace; one without a body keeps both at 0. */
  lemma FunctionMetrics(src: Source, fn: Node)
    requires fn.FuncDecl?
    ensures fn.fbody.Some? ==> FunctionOf(src, fn).complexity >= 1
    ensures fn.fbody.Some? && fn.fbody.value.BlockStmt? ==>
      FunctionOf(src, fn).lineCount == fn.fbody.value.rbrace.line - fn.fbody.value.pos.line + 1
    ensures fn.fbody.None? ==> FunctionOf(src, fn).complexity == 0 && FunctionOf(src, fn).lineCount == 0
  {
  }

  /** Every annotation key comes from an '@' line of the function's doc comments. */
  lemma FunctionAnnotations(src: Source, fn: Node, key: string)
    requires fn.FuncDecl?
    ensures key in FunctionOf(src, fn).annotations <==>
      exists j :: 0 <= j < |DocComments(fn.doc)| && HasPrefix(DocComments(fn.doc)[j], "@")
                  && AnnotationOf(DocComments(fn.doc)[j]).0 == key
  {
    AnnotationKeys(DocComments(fn.doc), key);

  }
}
