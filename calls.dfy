/** Call facts (internal/transformer/calls.go): expression rendering, argument
 *  lists and the classification of each call's callee. */
module Calls {
  import opened Wrappers
  import opened GoAst
  import opened Model
  import opened Naming
  import opened Seqs
  import opened Functions

  // ---------------------------------------------------------------------------
  // formatExpr

  /** `formatExpr`: a short rendering of an expression; shapes it does not list
   *  (parenthesised expressions among them) render as "expr". */
  function FormatExpr(e: Node): string
  {
    match e
    case Ident(_, name) => name
    case BasicLit(_, lit) => lit
    case SelectorExpr(_, x, sel) => FormatExpr(x) + "." + IdentName(sel)
    case CallExpr(_, fun, _) => FormatExpr(fun) + "(...)"
    case UnaryExpr(_, op, x) => op + FormatExpr(x)
    case BinaryExpr(_, x, op, y) => FormatExpr(x) + " " + op + " " + FormatExpr(y)
    case CompositeLit(_, t, _) => FormatTypeOpt(t) + "{...}"
    case FuncLit(_, _, _) => "func(){...}"
    case IndexExpr(_, x, _) => FormatExpr(x) + "[...]"
    case SliceExpr(_, x, _, _, _) => FormatExpr(x) + "[:]"
    case StarExpr(_, x) => "*" + FormatExpr(x)
    case TypeAssertExpr(_, x, _) => FormatExpr(x) + ".(type)"
    case _ => "expr"
  }

  /** A qualified name or a pointer to one: the shapes both renderers know. */
  predicate NameChain(e: Node)
  {
    match e
    case Ident(_, _) => true
    case SelectorExpr(_, x, _) => NameChain(x)
    case StarExpr(_, x) => NameChain(x)
    case _ => false
  }

  /** On names, selectors and pointers the expression rendering and the type
   *  rendering agree, so a receiver chain reads the same either way. */
  lemma {:induction false} FormatsAgree(e: Node)
    requires NameChain(e)
    ensures FormatExpr(e) == FormatType(e)
  {
    match e
    case Ident(_, _) =>
    case SelectorExpr(_, x, _) => FormatsAgree(x);
    case StarExpr(_, x) => FormatsAgree(x);
  }

  // ---------------------------------------------------------------------------
  // extractCallArgs

  function ArgStrings(args: seq<Node>): (r: seq<string>)
    ensures |r| == |args|
    ensures forall i :: 0 <= i < |args| ==> r[i] == FormatExpr(args[i])
  {
    if args == [] then [] else ArgStrings(args[..|args| - 1]) + [FormatExpr(args[|args| - 1])]
  }

  /** `extractCallArgs`: one rendered string per argument, in order. */
  method ExtractCallArgs(call: Node) returns (args: seq<string>)
    requires call.CallExpr?
    ensures |args| == |call.args|
    ensures forall i :: 0 <= i < |args| ==> args[i] == FormatExpr(call.args[i])
  {
    args := [];
    var i := 0;
    while i < |call.args|
      invariant 0 <= i <= |call.args|
      invariant args == ArgStrings(call.args[..i])
    {
      assert call.args[..i + 1][..i] == call.args[..i];
      args := args + [FormatExpr(call.args[i])];
      i := i + 1;
    }
    assert call.args[..|call.args|] == call.args;
  }

  // ---------------------------------------------------------------------------
  // extractCalls

  /** The function, package and receiver named by a callee. */
  datatype Callee = Callee(func: string, package: string, receiver: string)

  function CalleeOf(fun: Node): Callee
  {
    match fun
    case Ident(_, name) => Callee(name, "", "")
    case SelectorExpr(_, x, sel) =>
      if x.Ident? then Callee(IdentName(sel), x.name, x.name)
      else if x.CallExpr? then Callee(IdentName(sel), "", "call")
      else if x.SelectorExpr? then Callee(IdentName(sel), "", FormatType(x))
      else Callee(IdentName(sel), "", "")
    case FuncLit(_, _, _) => Callee("(anonymous)", "", "")
    case ParenExpr(_, _) => Callee("(conversion)", "", "")
    case _ => Callee("", "", "")
  }

  /** The fact for one call expression inside the function `inFunction`. */
  function CallOf(src: Source, call: Node, inFunction: string): CallInfo
    requires call.CallExpr?
  {
    var c := CalleeOf(call.fun);
    CallInfo(c.func, c.package, c.receiver, "", ArgStrings(call.args), inFunction, MakePosition(src, call.pos))
  }

  function CallEntry(src: Source, inFunction: string): Node -> Option<CallInfo>
  {
    (n: Node) => if n.CallExpr? then Some(CallOf(src, n, inFunction)) else None
  }

  predicate IsCall(n: Node)
  {
    n.CallExpr?
  }

  /** The calls of a function declaration: one per call expression of its body in
   *  walk order, closures included; a declaration without a body has none. */
  function CallsOf(src: Source, fn: Node, inFunction: string): seq<CallInfo>
    requires fn.FuncDecl?
  {
    if fn.fbody.None? then [] else Collect(Preorder(fn.fbody.value), CallEntry(src, inFunction))
  }

  /** `extractCalls`. */
  method ExtractCalls(src: Source, fn: Node, funcName: string) returns (calls: seq<CallInfo>)
    requires fn.FuncDecl?
    ensures calls == CallsOf(src, fn, funcName)
  {
    if fn.fbody.None? {
      return [];
    }
    var nodes := Inspect(fn.fbody.value, NoPrune);
    calls := [];
    var i := 0;
    while i < |nodes|
      invariant 0 <= i <= |nodes|
      invariant calls == Collect(nodes[..i], CallEntry(src, funcName))
    {
      CollectSnoc(nodes, i, CallEntry(src, funcName));
      var entry := CallAt(src, nodes[i], funcName);
      if entry.Some? {
        calls := calls + [entry.value];
      }
      i := i + 1;
    }
    assert nodes[..|nodes|] == nodes;
  }

  /** The body of the node loop of `extractCalls`: the fact for a call
   *  expression, nothing for any other node. */
  method CallAt(src: Source, n: Node, funcName: string) returns (entry: Option<CallInfo>)
    ensures entry == CallEntry(src, funcName)(n)
  {
    if !n.CallExpr? {
      return None;
    }
    var args := ExtractCallArgs(n);
    var callee := ExtractCallee(n.fun);
    var call := CallInfo(callee.func, callee.package, callee.receiver, "", args, funcName, MakePosition(src, n.pos));
    assert call == CallOf(src, n, funcName);
    entry := Some(call);
  }

  /** The callee part of the loop body of `extractCalls`. */
  method ExtractCallee(fun: Node) returns (callee: Callee)
    ensures callee == CalleeOf(fun)
  {
    callee := Callee("", "", "");
    if fun.Ident? {
      callee := callee.(func := fun.name);
    } else if fun.SelectorExpr? {
      callee := callee.(func := IdentName(fun.sel));
      var x := fun.x;
      if x.Ident? {
        callee := callee.(package := x.name, receiver := x.name);
      } else if x.CallExpr? {
        callee := callee.(receiver := "call");
      } else if x.SelectorExpr? {
        callee := callee.(receiver := FormatType(x));
      }
    } else if fun.FuncLit? {
      callee := callee.(func := "(anonymous)");
    } else if fun.ParenExpr? {
      callee := callee.(func := "(conversion)");
    }
  }

  /** One fact per call expression of the body, each naming the enclosing function. */
  lemma CallsCount(src: Source, fn: Node, name: string, c: CallInfo)
    requires fn.FuncDecl? && fn.fbody.Some?
    ensures |CallsOf(src, fn, name)| == CountIf(Preorder(fn.fbody.value), IsCall)
    ensures c in CallsOf(src, fn, name) ==> c.inFunction == name && c.receiverType == ""
  {
    CollectCount(Preorder(fn.fbody.value), CallEntry(src, name), IsCall);
    CollectMembers(Preorder(fn.fbody.value), CallEntry(src, name), c);
  }

  /** A call comes before the calls inside its callee and its arguments. */
  lemma OuterCallFirst(src: Source, name: string, call: Node)
    requires call.CallExpr?
    ensures Collect(Preorder(call), CallEntry(src, name))
         == [CallOf(src, call, name)] + Collect(WalkList([call.fun] + call.args, NoPrune), CallEntry(src, name))
  {
    var f := CallEntry(src, name);
    CallChildren(call);
    PreorderUnfold(call);
    var rest := WalkList([call.fun] + call.args, NoPrune);
    assert Preorder(call) == [call] + rest;
    CollectAppend([call], rest, f);
    assert f(call) == Some(CallOf(src, call, name));
    assert [call][..0] == [];
    assert Collect([call], f) == [CallOf(src, call, name)];
  }

  /** How the callee decides the names: a package is recorded only for a
   *  selector on a plain identifier, and then equals the receiver; closures and
   *  parenthesised callees get fixed names; any other callee is unnamed. */
  lemma CalleeFacts(fun: Node)
    ensures CalleeOf(fun).package != "" ==> fun.SelectorExpr? && fun.x.Ident? && CalleeOf(fun).receiver == CalleeOf(fun).package
    ensures CalleeOf(fun).receiver != "" ==> fun.SelectorExpr?
    ensures fun.SelectorExpr? && fun.x.CallExpr? ==> CalleeOf(fun).receiver == "call"
    ensures fun.SelectorExpr? && fun.x.SelectorExpr? && NameChain(fun.x) ==> CalleeOf(fun).receiver == FormatExpr(fun.x)
    ensures fun.FuncLit? ==> CalleeOf(fun).func == "(anonymous)"
    ensures fun.ParenExpr? ==> CalleeOf(fun).func == "(conversion)"
    ensures !(fun.Ident? || fun.SelectorExpr? || fun.FuncLit? || fun.ParenExpr?) ==> CalleeOf(fun) == Callee("", "", "")
  {
    if fun.SelectorExpr? && fun.x.SelectorExpr? && NameChain(fun.x) {
      FormatsAgree(fun.x);
    }
  }
}
