/** Type facts (internal/transformer/types.go): the kind of a type declaration,
 *  struct fields and embeds, interface methods and embeds, and struct tags. */
module Types {
  import opened Wrappers
  import opened GoAst
  import opened Model
  import opened Naming
  import opened Seqs
  import opened Functions

  // ---------------------------------------------------------------------------
  // extractTags

  /** A literal written between backquotes, as a raw-string tag is. */
  predicate Backquoted(s: string)
  {
    |s| >= 2 && s[0] == '`' && s[|s| - 1] == '`'
  }

  /** `extractTags`: a raw-string tag loses its backquotes, any other literal is
   *  kept as written, and a missing tag is "". */
  function ExtractTags(tag: Option<Node>): (r: string)
    ensures tag.None? ==> r == ""
    ensures tag.Some? && Backquoted(LitValue(tag.value)) ==> "`" + r + "`" == LitValue(tag.value)
    ensures tag.Some? && !Backquoted(LitValue(tag.value)) ==> r == LitValue(tag.value)
  {
    if tag.None? then ""
    else
      var s := LitValue(tag.value);
      if Backquoted(s) then s[1..|s| - 1] else s
  }

  /** A lone backquote is not a raw string, so it is kept. */
  lemma TagExamples(p: Pos)
    ensures ExtractTags(Some(BasicLit(p, "`json:\"id\"`"))) == "json:\"id\""
    ensures ExtractTags(Some(BasicLit(p, "`"))) == "`"
    ensures ExtractTags(Some(BasicLit(p, "\"x\""))) == "\"x\""
  {
    assert Backquoted("`json:\"id\"`");
  }

  // ---------------------------------------------------------------------------
  // extractStructFields

  /** One entry per name of a named group, all sharing the group's type and tag. */
  function NamedFields(src: Source, names: seq<Node>, typ: string, tags: string): (r: seq<FieldInfo>)
    ensures |r| == |names|
    ensures forall i :: 0 <= i < |names| ==>
      r[i] == FieldInfo(IdentName(names[i]), typ, tags, IsExported(IdentName(names[i])), false, MakePosition(src, names[i].pos))
  {
    if names == [] then []
    else
      var name := names[|names| - 1];
      NamedFields(src, names[..|names| - 1], typ, tags)
        + [FieldInfo(IdentName(name), typ, tags, IsExported(IdentName(name)), false, MakePosition(src, name.pos))]
  }

  /** The entries of one field group: an embedded field is named after its type. */
  function FieldEntries(src: Source, field: Node): seq<FieldInfo>
  {
    if !field.Field? then []
    else
      var typ := FormatType(field.ftype);
      if field.names == [] then [FieldInfo(typ, typ, ExtractTags(field.tag), false, true, MakePosition(src, field.pos))]
      else NamedFields(src, field.names, typ, ExtractTags(field.tag))
  }

  function FieldEntriesOf(src: Source): Node -> seq<FieldInfo>
  {
    f => FieldEntries(src, f)
  }

  /** The type of an embedded (nameless) member. */
  function EmbedOf(field: Node): Option<string>
  {
    if field.Field? && field.names == [] then Some(FormatType(field.ftype)) else None
  }

  /** The fields of a struct; a missing field list gives none. */
  function StructFields(src: Source, fields: Option<Node>): seq<FieldInfo>
  {
    if fields.None? then [] else Flatten(FieldsOf(fields.value), FieldEntriesOf(src))
  }

  /** The embedded types of a struct or an interface, in member order. */
  function Embeds(members: Option<Node>): seq<string>
  {
    if members.None? then [] else Collect(FieldsOf(members.value), EmbedOf)
  }

  /** `extractStructFields`. */
  method ExtractStructFields(src: Source, st: Node) returns (fields: seq<FieldInfo>, embeds: seq<string>)
    requires st.StructType?
    ensures fields == StructFields(src, st.fields) && embeds == Embeds(st.fields)
  {
    if st.fields.None? {
      return [], [];
    }
    var list := FieldsOf(st.fields.value);
    fields, embeds := [], [];
    var i := 0;
    while i < |list|
      invariant 0 <= i <= |list|
      invariant fields == Flatten(list[..i], FieldEntriesOf(src))
      invariant embeds == Collect(list[..i], EmbedOf)
    {
      var field := list[i];
      FlattenSnoc(list, i, FieldEntriesOf(src));
      CollectSnoc(list, i, EmbedOf);
      fields, embeds := AddStructMember(src, fields, embeds, field);
      i := i + 1;
    }
    assert list[..|list|] == list;
  }

  /** The body of the loop of `extractStructFields`: one member of the struct. */
  method AddStructMember(src: Source, fields: seq<FieldInfo>, embeds: seq<string>, field: Node)
    returns (fields': seq<FieldInfo>, embeds': seq<string>)
    ensures fields' == fields + FieldEntries(src, field)
    ensures embeds' == embeds + (if EmbedOf(field).Some? then [EmbedOf(field).value] else [])
  {
    fields', embeds' := fields, embeds;
    if field.Field? {
      var typeStr := FormatType(field.ftype);
      if |field.names| == 0 {
        embeds' := embeds' + [typeStr];
        fields' := fields' + [FieldInfo(typeStr, typeStr, ExtractTags(field.tag), false, true, MakePosition(src, field.pos))];
      } else {
        fields' := AppendFields(src, fields', field.names, typeStr, ExtractTags(field.tag));
      }
    }
  }

  /** The inner loop of `extractStructFields`: one field per name. */
  method AppendFields(src: Source, fields: seq<FieldInfo>, names: seq<Node>, typ: string, tags: string)
    returns (r: seq<FieldInfo>)
    ensures r == fields + NamedFields(src, names, typ, tags)
  {
    r := fields;
    var j := 0;
    while j < |names|
      invariant 0 <= j <= |names|
      invariant r == fields + NamedFields(src, names[..j], typ, tags)
    {
      assert names[..j + 1][..j] == names[..j];
      var name := names[j];
      r := r + [FieldInfo(IdentName(name), typ, tags, IsExported(IdentName(name)), false, MakePosition(src, name.pos))];
      j := j + 1;
    }
    assert names[..|names|] == names;
  }

  /** The embedded type of a field fact, when it is one. */
  function EmbeddedType(f: FieldInfo): Option<string>
  {
    if f.isEmbedded then Some(f.typ) else None
  }

  lemma FieldEntriesShape(src: Source, field: Node)
    ensures |FieldEntries(src, field)| == Slots(field)
    ensures Collect(FieldEntries(src, field), EmbeddedType) == (if EmbedOf(field).Some? then [EmbedOf(field).value] else [])
  {
    if field.Field? && field.names != [] {
      var es := FieldEntries(src, field);
      assert forall k :: 0 <= k < |es| ==> EmbeddedType(es[k]).None?;
      CollectNone(es, EmbeddedType);
    } else if field.Field? {
      assert Collect(FieldEntries(src, field), EmbeddedType)
          == Collect([], EmbeddedType) + [FormatType(field.ftype)];
    }
  }

  /** A struct has one field fact per declared name and one per embedded field,
   *  and its embeds are exactly the types of its embedded field facts, in order. */
  lemma {:induction false} StructFieldsShape(src: Source, list: seq<Node>)
    ensures |Flatten(list, FieldEntriesOf(src))| == SlotsOf(list)
    ensures Collect(Flatten(list, FieldEntriesOf(src)), EmbeddedType) == Collect(list, EmbedOf)
  {
    if list != [] {
      var init := list[..|list| - 1];
      var last := list[|list| - 1];
      StructFieldsShape(src, init);
      FieldEntriesShape(src, last);
      CollectAppend(Flatten(init, FieldEntriesOf(src)), FieldEntries(src, last), EmbeddedType);
    }
  }

  /** An embedded field is named after its type and never counts as exported; a
   *  named field is exported exactly when its name is. */
  lemma StructFieldFacts(src: Source, fields: Option<Node>, f: FieldInfo)
    requires f in StructFields(src, fields)
    ensures f.isEmbedded ==> f.name == f.typ && !f.isExported
    ensures !f.isEmbedded ==> f.isExported == IsExported(f.name)
  {
    var list := FieldsOf(fields.value);
    FlattenMembers(list, FieldEntriesOf(src), f);
    var k :| 0 <= k < |list| && f in FieldEntries(src, list[k]);
    var es := FieldEntries(src, list[k]);
    var j :| 0 <= j < |es| && es[j] == f;
  }

  // ---------------------------------------------------------------------------
  // extractInterfaceMethods

  /** One method per name, all with the same signature. */
  function NamedMethods(names: seq<Node>, params: seq<ParameterInfo>, results: seq<ParameterInfo>): (r: seq<MethodInfo>)
    ensures |r| == |names|
    ensures forall i :: 0 <= i < |names| ==>
      r[i] == MethodInfo(IdentName(names[i]), params, results, IsExported(IdentName(names[i])))
  {
    if names == [] then []
    else
      var name := names[|names| - 1];
      NamedMethods(names[..|names| - 1], params, results) + [MethodInfo(IdentName(name), params, results, IsExported(IdentName(name)))]
  }

  /** The methods one interface member declares: only named members of function
   *  type declare any. */
  function MethodEntries(field: Node): seq<MethodInfo>
  {
    if field.Field? && field.names != [] && field.ftype.FuncType?
    then NamedMethods(field.names, ParamsOpt(field.ftype.params), ParamsOpt(field.ftype.results))
    else []
  }

  function InterfaceMethods(members: Option<Node>): seq<MethodInfo>
  {
    if members.None? then [] else Flatten(FieldsOf(members.value), MethodEntries)
  }

  /** `extractInterfaceMethods`. */
  method ExtractInterfaceMethods(iface: Node) returns (methods: seq<MethodInfo>, embeds: seq<string>)
    requires iface.InterfaceType?
    ensures methods == InterfaceMethods(iface.methods) && embeds == Embeds(iface.methods)
  {
    if iface.methods.None? {
      return [], [];
    }
    var list := FieldsOf(iface.methods.value);
    methods, embeds := [], [];
    var i := 0;
    while i < |list|
      invariant 0 <= i <= |list|
      invariant methods == Flatten(list[..i], MethodEntries)
      invariant embeds == Collect(list[..i], EmbedOf)
    {
      var field := list[i];
      FlattenSnoc(list, i, MethodEntries);
      CollectSnoc(list, i, EmbedOf);
      methods, embeds := AddInterfaceMember(methods, embeds, field);
      i := i + 1;
    }
    assert list[..|list|] == list;
  }

  /** The body of the loop of `extractInterfaceMethods`: one member of the
   *  interface. */
  method AddInterfaceMember(methods: seq<MethodInfo>, embeds: seq<string>, field: Node)
    returns (methods': seq<MethodInfo>, embeds': seq<string>)
    ensures methods' == methods + MethodEntries(field)
    ensures embeds' == embeds + (if EmbedOf(field).Some? then [EmbedOf(field).value] else [])
  {
    methods', embeds' := methods, embeds;
    if field.Field? {
      if |field.names| == 0 {
        embeds' := embeds' + [FormatType(field.ftype)];
      } else if field.ftype.FuncType? {
        methods' := AppendMethods(methods', field.names, field.ftype);
      }
    }
  }

  /** The inner loop of `extractInterfaceMethods`: each name gets the parameters
   *  and results of the member's function type. */
  method AppendMethods(methods: seq<MethodInfo>, names: seq<Node>, fn: Node) returns (r: seq<MethodInfo>)
    requires fn.FuncType?
    ensures r == methods + NamedMethods(names, ParamsOpt(fn.params), ParamsOpt(fn.results))
  {
    r := methods;
    var j := 0;
    while j < |names|
      invariant 0 <= j <= |names|
      invariant r == methods + NamedMethods(names[..j], ParamsOpt(fn.params), ParamsOpt(fn.results))
    {
      assert names[..j + 1][..j] == names[..j];
      var name := names[j];
      var params, results := ExtractSignature(fn);
      r := r + [MethodInfo(IdentName(name), params, results, IsExported(IdentName(name)))];
      j := j + 1;
    }
    assert names[..|names|] == names;
  }

  /** The number of methods one member declares. */
  function MethodSlots(field: Node): nat
  {
    if field.Field? && field.names != [] && field.ftype.FuncType? then |field.names| else 0
  }

  /** An interface declares one method per name of each function-typed member;
   *  embedded members and named members of another type declare none. */
  lemma {:induction false} InterfaceMethodCount(list: seq<Node>)
    ensures |Flatten(list, MethodEntries)| == TotalLength(list, MethodEntries)
    ensures TotalLength(list, MethodEntries) == SumMethodSlots(list)
  {
    FlattenLength(list, MethodEntries);
    if list != [] {
      InterfaceMethodCount(list[..|list| - 1]);
    }
  }

  function SumMethodSlots(list: seq<Node>): nat
  {
    if list == [] then 0 else SumMethodSlots(list[..|list| - 1]) + MethodSlots(list[|list| - 1])
  }

  /** `m` is declared by one of the names of the function-typed member `field`
   *  and has that member's signature. */
  ghost predicate HasSignatureOf(m: MethodInfo, field: Node)
  {
    field.Field? && field.ftype.FuncType?
    && m.parameters == ParamsOpt(field.ftype.params) && m.results == ParamsOpt(field.ftype.results)
    && exists i :: 0 <= i < |field.names| && IdentName(field.names[i]) == m.name
  }

  /** Every method carries the signature of the member that declared it and is
   *  exported exactly when its name is. */
  lemma InterfaceMethodFacts(members: Option<Node>, m: MethodInfo)
    requires m in InterfaceMethods(members)
    ensures m.isExported == IsExported(m.name)
    ensures exists k :: 0 <= k < |FieldsOf(members.value)| && HasSignatureOf(m, FieldsOf(members.value)[k])
  {
    var list := FieldsOf(members.value);
    FlattenMembers(list, MethodEntries, m);
    var k :| 0 <= k < |list| && m in MethodEntries(list[k]);
    var es := MethodEntries(list[k]);
    var j :| 0 <= j < |es| && es[j] == m;
  }

  // ---------------------------------------------------------------------------
  // extractType

  /** The kind of a declared type: the three composite shapes by name, anything
   *  else (a named type, a pointer, a slice, a map, ...) is an alias. */
  function KindOf(t: Node): (r: string)
    ensures r in {"struct", "interface", "func", "alias"}
    ensures r == "alias" <==> !(t.StructType? || t.InterfaceType? || t.FuncType?)
  {
    if t.StructType? then "struct"
    else if t.InterfaceType? then "interface"
    else if t.FuncType? then "func"
    else "alias"
  }

  /** The facts of one type spec; `doc` is the doc comment of its declaration. */
  function TypeOf(src: Source, spec: Node, doc: Option<Node>): TypeInfo
    requires spec.TypeSpec?
  {
    var name := IdentName(spec.tname);
    var t := spec.ttype;
    TypeInfo(
      name := name,
      kind := KindOf(t),
      isExported := IsExported(name),
      fields := if t.StructType? then StructFields(src, t.fields) else [],
      methods := if t.InterfaceType? then InterfaceMethods(t.methods) else [],
      embeds := if t.StructType? then Embeds(t.fields) else if t.InterfaceType? then Embeds(t.methods) else [],
      implements := [],
      position := MakePosition(src, spec.tname.pos),
      doc := ExtractDoc(src, doc))
  }

  /** `extractType`. */
  method ExtractType(src: Source, spec: Node, doc: Option<Node>) returns (info: TypeInfo)
    requires spec.TypeSpec?
    ensures info == TypeOf(src, spec, doc)
  {
    var name := IdentName(spec.tname);
    info := TypeInfo(name, "", IsExported(name), [], [], [], [], MakePosition(src, spec.tname.pos), ExtractDoc(src, doc));
    var t := spec.ttype;
    if t.StructType? {
      var fields, embeds := ExtractStructFields(src, t);
      info := info.(kind := "struct", fields := fields, embeds := embeds);
    } else if t.InterfaceType? {
      var methods, embeds := ExtractInterfaceMethods(t);
      info := info.(kind := "interface", methods := methods, embeds := embeds);
    } else if t.FuncType? {
      info := info.(kind := "func");
    } else {
      info := info.(kind := "alias");
    }
  }

  /** Only structs have fields and only interfaces have methods; `Implements` is
   *  never filled in. */
  lemma TypeShape(src: Source, spec: Node, doc: Option<Node>)
    requires spec.TypeSpec?
    ensures !spec.ttype.StructType? ==> TypeOf(src, spec, doc).fields == []
    ensures !spec.ttype.InterfaceType? ==> TypeOf(src, spec, doc).methods == []
    ensures TypeOf(src, spec, doc).kind == "alias" || TypeOf(src, spec, doc).kind == "func" ==> TypeOf(src, spec, doc).embeds == []
    ensures TypeOf(src, spec, doc).implements == []
  {
  }
}
