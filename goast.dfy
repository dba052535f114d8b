/** The part of Go's `go/ast` tree that the fact extractor, the nolint scanner and
 *  the plugin's position search look at. Every node carries the line and column of
 *  its `Pos()` as the parser reports them; `Other` stands for every statement or
 *  expression kind that no modelled function tells apart (assignments, returns,
 *  key/value pairs, ...), with its children in walk order. */
module GoAst {
  import opened Wrappers

  datatype Pos = Pos(line: int, column: int)

  datatype ChanDir = Send | Recv | SendRecv

  datatype DeclTok = ImportTok | ConstTok | TypeTok | VarTok

  datatype Node =
    | Ident(pos: Pos, name: string)
    | BasicLit(pos: Pos, lit: string)
    | Ellipsis(pos: Pos, ellElt: Option<Node>)
    | FuncLit(pos: Pos, ftype: Node, body: Node)
    | CompositeLit(pos: Pos, ctype: Option<Node>, elts: seq<Node>)
    | ParenExpr(pos: Pos, x: Node)
    | SelectorExpr(pos: Pos, x: Node, sel: Node)
    | IndexExpr(pos: Pos, x: Node, index: Node)
    | SliceExpr(pos: Pos, x: Node, low: Option<Node>, high: Option<Node>, max: Option<Node>)
    | TypeAssertExpr(pos: Pos, x: Node, atype: Option<Node>)
    | CallExpr(pos: Pos, fun: Node, args: seq<Node>)
    | StarExpr(pos: Pos, x: Node)
    | UnaryExpr(pos: Pos, op: string, x: Node)
    | BinaryExpr(pos: Pos, x: Node, op: string, y: Node)
    | ArrayType(pos: Pos, alen: Option<Node>, elt: Node)
    | StructType(pos: Pos, fields: Option<Node>, rbrace: Pos)
    | FuncType(pos: Pos, typeParams: Option<Node>, params: Option<Node>, results: Option<Node>)
    | InterfaceType(pos: Pos, methods: Option<Node>)
    | MapType(pos: Pos, key: Node, value: Node)
    | ChanType(pos: Pos, dir: ChanDir, value: Node)
    | Field(pos: Pos, doc: Option<Node>, names: seq<Node>, ftype: Node, tag: Option<Node>, comment: Option<Node>)
    | FieldList(pos: Pos, list: seq<Node>)
    | Comment(pos: Pos, text: string)
    | CommentGroup(pos: Pos, list: seq<Node>)
    | BlockStmt(pos: Pos, list: seq<Node>, rbrace: Pos)
    | IfStmt(pos: Pos, init: Option<Node>, cond: Node, body: Node, els: Option<Node>)
    | CaseClause(pos: Pos, list: seq<Node>, stmts: seq<Node>)
    | SwitchStmt(pos: Pos, init: Option<Node>, stag: Option<Node>, body: Node)
    | TypeSwitchStmt(pos: Pos, init: Option<Node>, assign: Node, body: Node)
    | CommClause(pos: Pos, comm: Option<Node>, stmts: seq<Node>)
    | SelectStmt(pos: Pos, body: Node)
    | ForStmt(pos: Pos, init: Option<Node>, fcond: Option<Node>, post: Option<Node>, body: Node)
    | RangeStmt(pos: Pos, rkey: Option<Node>, rvalue: Option<Node>, x: Node, body: Node)
    | ImportSpec(pos: Pos, doc: Option<Node>, alias: Option<Node>, path: Node, comment: Option<Node>)
    | ValueSpec(pos: Pos, doc: Option<Node>, names: seq<Node>, vtype: Option<Node>, values: seq<Node>, comment: Option<Node>)
    | TypeSpec(pos: Pos, doc: Option<Node>, tname: Node, typeParams: Option<Node>, ttype: Node, comment: Option<Node>)
    | GenDecl(pos: Pos, doc: Option<Node>, tok: DeclTok, specs: seq<Node>)
    | FuncDecl(pos: Pos, doc: Option<Node>, recv: Option<Node>, fname: Node, ftype: Node, fbody: Option<Node>)
    | File(pos: Pos, doc: Option<Node>, pkgName: Node, decls: seq<Node>, imports: seq<Node>, comments: seq<Node>)
    | Other(pos: Pos, kind: string, kids: seq<Node>)

  // ---------------------------------------------------------------------------
  // Children in the order `ast.Walk` visits them.

  function Opt(o: Option<Node>): (r: seq<Node>)
    ensures forall c :: c in r ==> o == Some(c)
  {
    if o.Some? then [o.value] else []
  }

  /** `Children` of identifiers, literals and primary expressions. */
  function Children1(n: Node): (r: seq<Node>)
    requires n.Ident? || n.BasicLit? || n.Ellipsis? || n.FuncLit? || n.CompositeLit? || n.ParenExpr? || n.SelectorExpr? || n.IndexExpr?
    ensures forall c :: c in r ==> c < n
  {
    match n
    case Ident(_, _) => []
    case BasicLit(_, _) => []
    case Ellipsis(_, e) => Opt(e)
    case FuncLit(_, t, b) => [t, b]
    case CompositeLit(_, t, es) => Opt(t) + es
    case ParenExpr(_, x) => [x]
    case SelectorExpr(_, x, s) => [x, s]
    case IndexExpr(_, x, i) => [x, i]
  }

  /** `Children` of operator expressions and array and struct types. */
  function Children2(n: Node): (r: seq<Node>)
    requires n.SliceExpr? || n.TypeAssertExpr? || n.CallExpr? || n.StarExpr? || n.UnaryExpr? || n.BinaryExpr? || n.ArrayType? || n.StructType?
    ensures forall c :: c in r ==> c < n
  {
    match n
    case SliceExpr(_, x, lo, hi, mx) => [x] + Opt(lo) + Opt(hi) + Opt(mx)
    case TypeAssertExpr(_, x, t) => [x] + Opt(t)
    case CallExpr(_, f, xs) => [f] + xs
    case StarExpr(_, x) => [x]
    case UnaryExpr(_, _, x) => [x]
    case BinaryExpr(_, x, _, y) => [x, y]
    case ArrayType(_, l, e) => Opt(l) + [e]
    case StructType(_, fs, _) => Opt(fs)
  }

  /** `Children` of the other type expressions, fields and comments. */
  function Children3(n: Node): (r: seq<Node>)
    requires n.FuncType? || n.InterfaceType? || n.MapType? || n.ChanType? || n.Field? || n.FieldList? || n.Comment? || n.CommentGroup?
    ensures forall c :: c in r ==> c < n
  {
    match n
    case FuncType(_, tp, ps, rs) => Opt(tp) + Opt(ps) + Opt(rs)
    case InterfaceType(_, ms) => Opt(ms)
    case MapType(_, k, v) => [k, v]
    case ChanType(_, _, v) => [v]
    case Field(_, d, ns, t, tg, c) => Opt(d) + ns + [t] + Opt(tg) + Opt(c)
    case FieldList(_, l) => l
    case Comment(_, _) => []
    case CommentGroup(_, l) => l
  }

  /** `Children` of blocks and statements. */
  function Children4(n: Node): (r: seq<Node>)
    requires n.BlockStmt? || n.IfStmt? || n.CaseClause? || n.SwitchStmt? || n.TypeSwitchStmt? || n.CommClause? || n.SelectStmt? || n.ForStmt?
    ensures forall c :: c in r ==> c < n
  {
    match n
    case BlockStmt(_, l, _) => l
    case IfStmt(_, i, c, b, e) => Opt(i) + [c, b] + Opt(e)
    case CaseClause(_, l, ss) => l + ss
    case SwitchStmt(_, i, t, b) => Opt(i) + Opt(t) + [b]
    case TypeSwitchStmt(_, i, a, b) => Opt(i) + [a, b]
    case CommClause(_, c, ss) => Opt(c) + ss
    case SelectStmt(_, b) => [b]
    case ForStmt(_, i, c, p, b) => Opt(i) + Opt(c) + Opt(p) + [b]
  }

  /** `Children` of range loops and specs. */
  function Children5(n: Node): (r: seq<Node>)
    requires n.RangeStmt? || n.ImportSpec? || n.ValueSpec? || n.TypeSpec?
    ensures forall c :: c in r ==> c < n
  {
    match n
    case RangeStmt(_, k, v, x, b) => Opt(k) + Opt(v) + [x, b]
    case ImportSpec(_, d, a, p, c) => Opt(d) + Opt(a) + [p] + Opt(c)
    case ValueSpec(_, d, ns, t, vs, c) => Opt(d) + ns + Opt(t) + vs + Opt(c)
    case TypeSpec(_, d, nm, tp, t, c) => Opt(d) + [nm] + Opt(tp) + [t] + Opt(c)
  }

  /** `Children` of declarations, files and other nodes. */
  function Children6(n: Node): (r: seq<Node>)
    requires n.GenDecl? || n.FuncDecl? || n.File? || n.Other?
    ensures forall c :: c in r ==> c < n
  {
    match n
    case GenDecl(_, d, _, ss) => Opt(d) + ss
    case FuncDecl(_, d, r, nm, t, b) => Opt(d) + Opt(r) + [nm, t] + Opt(b)
    case File(_, d, nm, ds, _, _) => Opt(d) + [nm] + ds
    case Other(_, _, ks) => ks
  }

  /** The children of `n` in the order `ast.Walk` visits them. */
  function Children(n: Node): (r: seq<Node>)
    ensures forall c :: c in r ==> c < n
  {
    if n.Ident? || n.BasicLit? || n.Ellipsis? || n.FuncLit? || n.CompositeLit? || n.ParenExpr? || n.SelectorExpr? || n.IndexExpr? then Children1(n)
    else if n.SliceExpr? || n.TypeAssertExpr? || n.CallExpr? || n.StarExpr? || n.UnaryExpr? || n.BinaryExpr? || n.ArrayType? || n.StructType? then Children2(n)
    else if n.FuncType? || n.InterfaceType? || n.MapType? || n.ChanType? || n.Field? || n.FieldList? || n.Comment? || n.CommentGroup? then Children3(n)
    else if n.BlockStmt? || n.IfStmt? || n.CaseClause? || n.SwitchStmt? || n.TypeSwitchStmt? || n.CommClause? || n.SelectStmt? || n.ForStmt? then Children4(n)
    else if n.RangeStmt? || n.ImportSpec? || n.ValueSpec? || n.TypeSpec? then Children5(n)
    else Children6(n)
  }

  /** A call's children are its callee followed by its arguments. */
  lemma CallChildren(n: Node)
    requires n.CallExpr?
    ensures Children(n) == [n.fun] + n.args
  {
    assert Children2(n) == [n.fun] + n.args;
  }

  /** The name an `*ast.Ident` field holds (those fields only ever hold `Ident`s). */
  function IdentName(n: Node): string
  {
    if n.Ident? then n.name else ""
  }

  /** The text a `*ast.BasicLit` field holds, quotes included. */
  function LitValue(n: Node): string
  {
    if n.BasicLit? then n.lit else ""
  }

  // ---------------------------------------------------------------------------
  // `ast.Inspect`: a preorder walk in `Children` order. A callback returning
  // false for a node prunes that node's subtree; `prune` says which nodes.

  function Walk(n: Node, prune: Node -> bool): (r: seq<Node>)
    ensures |r| >= 1 && r[0] == n
    decreases n, 1
  {
    [n] + WalkKids(Pending(n, prune), n, prune)
  }

  /** The children a walk descends into after visiting `n`. */
  function Pending(n: Node, prune: Node -> bool): (r: seq<Node>)
    ensures forall c :: c in r ==> c < n
  {
    if prune(n) then [] else Children(n)
  }

  /** The walks of the children of `parent`, one after the other (`parent` only
   *  bounds the recursion). */
  function WalkKids(ns: seq<Node>, ghost parent: Node, prune: Node -> bool): seq<Node>
    requires forall c :: c in ns ==> c < parent
    decreases parent, 0, |ns|
  {
    if ns == [] then []
    else
      assert ns[0] in ns && forall c :: c in ns[1..] ==> c in ns;
      Walk(ns[0], prune) + WalkKids(ns[1..], parent, prune)
  }

  /** The walks of a sequence of subtrees, one after the other. */
  function WalkList(ns: seq<Node>, prune: Node -> bool): seq<Node>
  {
    if ns == [] then [] else Walk(ns[0], prune) + WalkList(ns[1..], prune)
  }

  lemma {:induction false} WalkKidsList(ns: seq<Node>, parent: Node, prune: Node -> bool)
    requires forall c :: c in ns ==> c < parent
    ensures WalkKids(ns, parent, prune) == WalkList(ns, prune)
    decreases |ns|
  {
    if ns != [] {
      assert forall c :: c in ns[1..] ==> c in ns;
      WalkKidsList(ns[1..], parent, prune);
    }
  }

  /** The walk equation: a node, then the walks of the children it descends into. */
  lemma WalkUnfold(n: Node, prune: Node -> bool)
    ensures Walk(n, prune) == [n] + WalkList(Pending(n, prune), prune)
  {
    WalkKidsList(Pending(n, prune), n, prune);
  }

  /** The callback that never prunes: the full preorder of `n`'s subtree. */
  function NoPrune(n: Node): bool
  {
    false
  }

  function Preorder(n: Node): seq<Node>
  {
    Walk(n, NoPrune)
  }

  lemma {:induction false} WalkListAppend(a: seq<Node>, b: seq<Node>, prune: Node -> bool)
    ensures WalkList(a + b, prune) == WalkList(a, prune) + WalkList(b, prune)
    decreases |a|
  {
    if a == [] {
      assert a + b == b;
    } else {
      assert (a + b)[1..] == a[1..] + b;
      WalkListAppend(a[1..], b, prune);
    }
  }

  /** Without pruning, a node's preorder is the node followed by its children's. */
  lemma PreorderUnfold(n: Node)
    ensures Preorder(n) == [n] + WalkList(Children(n), NoPrune)
  {
    WalkUnfold(n, NoPrune);
  }

  /** Every node of a walk lies in the full preorder; pruning only removes nodes. */
  lemma {:induction false} WalkWithinPreorder(n: Node, prune: Node -> bool)
    ensures forall m :: m in Walk(n, prune) ==> m in Preorder(n)
    decreases n, 1
  {
    WalkUnfold(n, prune);
    PreorderUnfold(n);
    WalkKidsWithinPreorder(Children(n), n, prune);
    WalkKidsList(Children(n), n, prune);
    WalkKidsList(Children(n), n, NoPrune);
  }

  lemma {:induction false} WalkKidsWithinPreorder(ns: seq<Node>, parent: Node, prune: Node -> bool)
    requires forall c :: c in ns ==> c < parent
    ensures forall m :: m in WalkKids(ns, parent, prune) ==> m in WalkKids(ns, parent, NoPrune)
    decreases parent, 0, |ns|
  {
    if ns != [] {
      assert ns[0] in ns && forall c :: c in ns[1..] ==> c in ns;
      WalkWithinPreorder(ns[0], prune);
      WalkKidsWithinPreorder(ns[1..], parent, prune);
    }
  }

  /** A node is in the walk of a list exactly when it is in the walk of one of
   *  the list's subtrees. */
  lemma {:induction false} WalkListMember(ns: seq<Node>, prune: Node -> bool, m: Node)
    ensures m in WalkList(ns, prune) <==> exists k :: 0 <= k < |ns| && m in Walk(ns[k], prune)
    decreases |ns|
  {
    if ns != [] {
      WalkListMember(ns[1..], prune, m);
      assert forall k :: 1 <= k < |ns| ==> ns[k] == ns[1..][k - 1];
      if m in WalkList(ns[1..], prune) {
        var k :| 0 <= k < |ns[1..]| && m in Walk(ns[1..][k], prune);
        assert m in Walk(ns[k + 1], prune);
      }
    }
  }

  /** The preorder is closed under subtrees: whatever lies below a node of the
   *  walk is walked as well. */
  lemma {:induction false} PreorderClosed(n: Node, m: Node, x: Node)
    requires m in Preorder(n) && x in Preorder(m)
    ensures x in Preorder(n)
    decreases n
  {
    if m != n {
      PreorderUnfold(n);
      WalkListMember(Children(n), NoPrune, m);
      var k :| 0 <= k < |Children(n)| && m in Preorder(Children(n)[k]);
      var c := Children(n)[k];
      assert c in Children(n);
      PreorderClosed(c, m, x);
      WalkListMember(Children(n), NoPrune, x);
    }
  }

  /** One step of the stack-based walk: visiting the top node replaces it by
   *  the children the walk descends into. */
  lemma InspectStep(stack: seq<Node>, prune: Node -> bool)
    requires stack != []
    ensures WalkList(stack, prune)
         == [stack[0]] + WalkList(Pending(stack[0], prune) + stack[1..], prune)
  {
    WalkUnfold(stack[0], prune);
    WalkListAppend(Pending(stack[0], prune), stack[1..], prune);
    ConsAssoc(stack[0], WalkList(Pending(stack[0], prune), prune), WalkList(stack[1..], prune));
  }

  lemma ConsAssoc(x: Node, a: seq<Node>, b: seq<Node>)
    ensures ([x] + a) + b == [x] + (a + b)
  {
  }

  /** `ast.Inspect(root, f)` with an explicit stack of pending subtrees; the
   *  nodes it hands to the callback, in order. */
  method Inspect(root: Node, prune: Node -> bool) returns (visited: seq<Node>)
    ensures visited == Walk(root, prune)
  {
    var stack := [root];
    visited := [];
    assert WalkList([root], prune) == Walk(root, prune) + WalkList([], prune);
    while stack != []
      invariant visited + WalkList(stack, prune) == Walk(root, prune)
      decreases |WalkList(stack, prune)|
    {
      InspectStep(stack, prune);
      visited := visited + [stack[0]];
      stack := Pending(stack[0], prune) + stack[1..];
    }
  }
}
