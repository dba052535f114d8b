/** The fact bag handed to the policies (internal/model/model.go). A Go slice is a
 *  sequence; a nil slice and an empty one are the same value here, although JSON
 *  encodes a nil slice without `omitempty` as `null` and an empty one as `[]`.
 *  `Annotations` maps a key to a string or to the flag `true`; a nil map is the
 *  empty map. */
module Model {
  import opened Wrappers

  datatype Position = Position(file: string, line: int, column: int)

  datatype PackageInfo = PackageInfo(name: string, path: string, doc: string)

  datatype ImportInfo = ImportInfo(path: string, alias: string, position: Position)

  datatype ParameterInfo = ParameterInfo(name: string, typ: string)

  datatype AnnotationValue = AnnotationText(text: string) | AnnotationFlag

  datatype FunctionInfo = FunctionInfo(
    name: string,
    receiver: string,
    parameters: seq<ParameterInfo>,
    results: seq<ParameterInfo>,
    isExported: bool,
    isTest: bool,
    complexity: int,
    lineCount: int,
    position: Position,
    comments: seq<string>,
    annotations: map<string, AnnotationValue>)

  datatype FieldInfo = FieldInfo(
    name: string,
    typ: string,
    tags: string,
    isExported: bool,
    isEmbedded: bool,
    position: Position)

  datatype MethodInfo = MethodInfo(
    name: string,
    parameters: seq<ParameterInfo>,
    results: seq<ParameterInfo>,
    isExported: bool)

  datatype TypeInfo = TypeInfo(
    name: string,
    kind: string,
    isExported: bool,
    fields: seq<FieldInfo>,
    methods: seq<MethodInfo>,
    embeds: seq<string>,
    implements: seq<string>,
    position: Position,
    doc: string)

  datatype VariableInfo = VariableInfo(
    name: string,
    typ: string,
    isExported: bool,
    isConst: bool,
    value: string,
    inFunction: string,
    position: Position)

  datatype CallInfo = CallInfo(
    func: string,
    package: string,
    receiver: string,
    receiverType: string,
    args: seq<string>,
    inFunction: string,
    position: Position)

  datatype TypeUsageInfo = TypeUsageInfo(
    typeName: string,
    package: string,
    inFunction: string,
    context: string,
    position: Position)

  datatype FieldAccessInfo = FieldAccessInfo(
    field: string,
    receiver: string,
    typ: string,
    inFunction: string,
    position: Position)

  datatype CodeContext = CodeContext(
    filePath: string,
    modulePath: string,
    package: PackageInfo,
    imports: seq<ImportInfo>,
    functions: seq<FunctionInfo>,
    types: seq<TypeInfo>,
    variables: seq<VariableInfo>,
    constants: seq<VariableInfo>,
    calls: seq<CallInfo>,
    typeUsages: seq<TypeUsageInfo>,
    fieldAccess: seq<FieldAccessInfo>)

  datatype FixEdit = FixEdit(position: Position, oldText: string, newText: string)

  datatype Fix = Fix(description: string, edits: seq<FixEdit>)

  datatype Violation = Violation(
    message: string,
    rule: string,
    severity: string,
    position: Position,
    fix: Option<Fix>)

  datatype PackageContext = PackageContext(
    modulePath: string,
    package: PackageInfo,
    files: seq<CodeContext>,
    allImports: seq<ImportInfo>,
    allFunctions: seq<FunctionInfo>,
    allTypes: seq<TypeInfo>,
    allVariables: seq<VariableInfo>,
    allConstants: seq<VariableInfo>,
    allCalls: seq<CallInfo>)
}
