/**
 * The fragment of a parsed Java compilation unit that the extraction rules
 * look at. Parsing and symbol resolution happen elsewhere; what they produce
 * arrives here as values: expressions of the few kinds the rules tell apart
 * (each with the text JavaParser's printer gives it), annotations of the
 * three syntactic kinds, method and field declarations, and, for the scope of
 * each method call, the outcome of resolving its type.
 */
module JavaAst {
  import opened Wrappers

  /** An expression, by the kinds the URL rules distinguish. */
  datatype Expr =
    | StringLit(value: string)
    | FieldAccess(scope: Expr, name: string)
    | Binary(left: Expr, op: string, right: Expr)
    | Enclosed(inner: Expr)
    | CallText(text: string)
    | Name(name: string)
    | Other(text: string)
  {
    /** `toString()` of the expression as the printer renders it. A string
        literal's `value` stands for both its unescaped value and its source
        text: escape sequences are not modelled. */
    function Text(): string {
      match this
      case StringLit(v) => "\"" + v + "\""
      case FieldAccess(s, n) => s.Text() + "." + n
      case Binary(l, op, r) => l.Text() + " " + op + " " + r.Text()
      case Enclosed(e) => "(" + e.Text() + ")"
      case CallText(t) => t
      case Name(n) => n
      case Other(t) => t
    }
  }

  /** A `name = value` pair of a normal annotation. */
  datatype MemberValuePair = MemberValuePair(name: string, value: Expr)

  /** `@Name`, `@Name(value)` and `@Name(k = v, ...)`. */
  datatype AnnotationExpr =
    | Marker(name: string)
    | SingleMember(name: string, memberValue: Expr)
    | Normal(name: string, pairs: seq<MemberValuePair>)

  datatype ParamDecl = ParamDecl(name: string, typeText: string, annotations: seq<AnnotationExpr>)

  /** What resolving the type of a call's scope gave: a qualified name, an
      unsolved symbol (whose name may be missing), or another failure. */
  datatype TypeResolution = Resolved(qualifiedName: string) | Unsolved(symbol: Option<string>) | Unresolvable

  /** A method-call expression: its name, its scope, the scope's resolved
      type, its arguments, and the arguments of the enclosing call when the
      parent node is itself a method call. */
  datatype CallExpr = CallExpr(
    name: string,
    scope: Option<Expr>,
    scopeType: TypeResolution,
    arguments: seq<Expr>,
    parentCallArguments: Option<seq<Expr>>)

  /** A method declaration with every method-call expression inside it, in
      the order a pre-order search finds them. */
  datatype MethodDecl = MethodDecl(
    name: string,
    parameters: seq<ParamDecl>,
    typeText: string,
    annotations: seq<AnnotationExpr>,
    calls: seq<CallExpr>)

  /** A variable declarator: `name` or `name = init`. */
  datatype VarDecl = VarDecl(name: string, typeText: string, init: Option<Expr>)
  {
    function Text(): string {
      match init
      case None => name
      case Some(e) => name + " = " + e.Text()
    }
  }

  /** A field declaration declares at least one variable. */
  datatype FieldDecl = FieldDecl(first: VarDecl, rest: seq<VarDecl>)
  {
    function Variables(): seq<VarDecl> { [first] + rest }

    /** `getVariables().toString()`: the declarators in brackets, comma separated. */
    function VariablesText(): string {
      "[" + JoinVars(Variables()) + "]"
    }
  }

  function JoinVars(vs: seq<VarDecl>): string {
    if vs == [] then "" else if |vs| == 1 then vs[0].Text() else vs[0].Text() + ", " + JoinVars(vs[1..])
  }

  /** A compilation unit: the annotations attached to class or interface
      declarations, every method and field declaration, and the implemented
      types of the first class declaration (None when there is none). */
  datatype CompilationUnit = CompilationUnit(
    classAnnotations: seq<AnnotationExpr>,
    methods: seq<MethodDecl>,
    fieldDecls: seq<FieldDecl>,
    implementedTypes: Option<seq<string>>)
}
