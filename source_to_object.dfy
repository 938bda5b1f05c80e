/**
 * SourceToObject: the rules that turn one parsed Java file into an IR class.
 *
 * The original keeps its parser state in static fields (the compilation
 * unit, class name, path, package and microservice name); here that state is
 * an explicit `Context`, computed once per file by `StaticValues`, and the
 * compilation unit is an argument.
 */
module SourceToObject {
  import opened Wrappers
  import opened Outcomes
  import opened JavaAst
  import opened JavaStrings
  import opened Ir
  import opened Annotations
  import EndpointTemplate
  import RestCallTemplate
  import FileUtils

  /** The per-file parser state. */
  datatype Context = Context(
    className: string,
    path: string,
    packageName: string,
    packageAndClassName: string,
    microserviceName: string)

  /** `generateStaticValues` for a file that parsed, followed by the
      microservice-name override of `parseClass`: a file without a package
      declaration, or a call with an empty service name, keeps what the
      previous file left behind. */
  function StaticValues(previous: Context, sep: string, localPath: string, fileName: string, repoName: string,
                        packageDeclaration: Option<string>, microserviceName: string): (ctx: Context)
    ensures ctx.path == FileUtils.LocalPathToGitPath(sep, localPath, repoName)
    ensures packageDeclaration.None? ==>
      ctx.packageName == previous.packageName && ctx.packageAndClassName == previous.packageAndClassName
    ensures packageDeclaration.Some? ==> StartsWith(ctx.packageAndClassName, packageDeclaration.value + ".")
    ensures microserviceName == "" ==> ctx.microserviceName == previous.microserviceName
    ensures microserviceName != "" ==> ctx.microserviceName == microserviceName
  {
    var className := Replace(fileName, ".java", "");
    var ms := if microserviceName == "" then previous.microserviceName else microserviceName;
    var path := FileUtils.LocalPathToGitPath(sep, localPath, repoName);
    match packageDeclaration
    case None => Context(className, path, previous.packageName, previous.packageAndClassName, ms)
    case Some(p) =>
      assert (p + "." + className)[..|p + "."|] == p + ".";
      Context(className, path, p, p + "." + className, ms)
  }

  // ---------------------------------------------------------------- roles

  const ROLE_ANNOTATIONS: set<string> :=
    {"RestController", "Controller", "Service", "Repository", "RepositoryRestResource", "Entity", "Embeddable", "FeignClient"}

  /** The `switch` of `parseClassRole` on one annotation name. */
  function RoleOf(name: string): (r: ClassRole)
    ensures r == UNKNOWN <==> name !in ROLE_ANNOTATIONS
    ensures r == CONTROLLER <==> name == "RestController" || name == "Controller"
    ensures r == ENTITY <==> name == "Entity" || name == "Embeddable"
    ensures r == REP_REST_RSC <==> name == "RepositoryRestResource"
  {
    if name == "RestController" || name == "Controller" then CONTROLLER
    else if name == "Service" then SERVICE
    else if name == "Repository" then REPOSITORY
    else if name == "RepositoryRestResource" then REP_REST_RSC
    else if name == "Entity" || name == "Embeddable" then ENTITY
    else if name == "FeignClient" then FEIGN_CLIENT
    else UNKNOWN
  }

  /** `parseClassRole`: the role of the first annotation, in iteration order,
      that the table knows; UNKNOWN when there is none. */
  function ParseClassRole(annotations: seq<AnnotationExpr>): (r: ClassRole)
    ensures r == UNKNOWN <==> forall i :: 0 <= i < |annotations| ==> annotations[i].name !in ROLE_ANNOTATIONS
    ensures r != UNKNOWN ==>
      exists i :: 0 <= i < |annotations| && RoleOf(annotations[i].name) == r &&
        forall j :: 0 <= j < i ==> annotations[j].name !in ROLE_ANNOTATIONS
  {
    if annotations == [] then UNKNOWN
    else if RoleOf(annotations[0].name) != UNKNOWN then
      assert RoleOf(annotations[0].name) == RoleOf(annotations[0].name);
      RoleOf(annotations[0].name)
    else
      var r := ParseClassRole(annotations[1..]);
      assert forall i :: 1 <= i < |annotations| ==> annotations[i] == annotations[1..][i - 1];
      if r != UNKNOWN then
        var k :| 0 <= k < |annotations[1..]| && RoleOf(annotations[1..][k].name) == r &&
          forall j :: 0 <= j < k ==> annotations[1..][j].name !in ROLE_ANNOTATIONS;
        assert RoleOf(annotations[k + 1].name) == r;
        r
      else r
  }

  // ------------------------------------------------------------ endpoints

  /** The first annotation whose name is an endpoint mapping. */
  function FirstEndpointMapping(annotations: seq<AnnotationExpr>): (r: Option<AnnotationExpr>)
    ensures r.None? <==>
      forall i :: 0 <= i < |annotations| ==> annotations[i].name !in EndpointTemplate.ENDPOINT_ANNOTATIONS
    ensures r.Some? ==>
      exists i :: 0 <= i < |annotations| && annotations[i] == r.value &&
        r.value.name in EndpointTemplate.ENDPOINT_ANNOTATIONS &&
        forall j :: 0 <= j < i ==> annotations[j].name !in EndpointTemplate.ENDPOINT_ANNOTATIONS
  {
    if annotations == [] then None
    else if annotations[0].name in EndpointTemplate.ENDPOINT_ANNOTATIONS then Some(annotations[0])
    else
      var r := FirstEndpointMapping(annotations[1..]);
      assert forall i :: 1 <= i < |annotations| ==> annotations[i] == annotations[1..][i - 1];
      if r.Some? then
        var k :| 0 <= k < |annotations[1..]| && annotations[1..][k] == r.value &&
          forall j :: 0 <= j < k ==> annotations[1..][j].name !in EndpointTemplate.ENDPOINT_ANNOTATIONS;
        assert annotations[k + 1] == r.value;
        r
      else r
  }

  /** `convertValidEndpoints`: the method becomes an Endpoint with the URL and
      verb of its first mapping annotation; without one it is returned as it is. */
  function ConvertValidEndpoints(md: MethodDecl, m: Method, requestMapping: Option<AnnotationExpr>): (r: Method)
    ensures FirstEndpointMapping(md.annotations).None? ==> r == m
    ensures FirstEndpointMapping(md.annotations).Some? ==>
      var t := EndpointTemplate.Build(requestMapping, FirstEndpointMapping(md.annotations).value);
      r.Endpoint? && AsMethod(r) == AsMethod(m) && r.url == t.url && r.httpMethod == t.httpMethod
  {
    match FirstEndpointMapping(md.annotations)
    case None => m
    case Some(ae) =>
      var t := EndpointTemplate.Build(requestMapping, ae);
      NewEndpoint(m, t.url, t.httpMethod)
  }

  // -------------------------------------------------- annotations, methods

  function MapAnnotations(aes: seq<AnnotationExpr>, packageAndClassName: string): (r: seq<Annotation>)
    ensures |r| == |aes|
    ensures forall i :: 0 <= i < |aes| ==> r[i] == FromExpr(aes[i], packageAndClassName)
  {
    seq(|aes|, i requires 0 <= i < |aes| => FromExpr(aes[i], packageAndClassName))
  }

  /** `parseAnnotations`, and the annotation set of `new Parameter(p, pkg)`. */
  function ParseAnnotations(aes: seq<AnnotationExpr>, packageAndClassName: string): (r: seq<Annotation>)
    ensures NoDuplicates(r)
    ensures forall i :: 0 <= i < |aes| ==> FromExpr(aes[i], packageAndClassName) in r
    ensures forall a :: a in r ==> a.packageAndClassName == packageAndClassName
  {
    var all := MapAnnotations(aes, packageAndClassName);
    assert forall i :: 0 <= i < |aes| ==> all[i] in all;
    Distinct(all)
  }

  /** `new Parameter(parameter, packageAndClassName)`. */
  function ParseParameter(p: ParamDecl, packageAndClassName: string): (r: Parameter)
    ensures r.name == p.name && r.paramType == p.typeText && r.packageAndClassName == packageAndClassName
    ensures r.annotations == ParseAnnotations(p.annotations, packageAndClassName)
  {
    Parameter(p.name, packageAndClassName, p.typeText, ParseAnnotations(p.annotations, packageAndClassName))
  }

  function MapParameters(ps: seq<ParamDecl>, packageAndClassName: string): (r: seq<Parameter>)
    ensures |r| == |ps|
    ensures forall i :: 0 <= i < |ps| ==> r[i] == ParseParameter(ps[i], packageAndClassName)
  {
    seq(|ps|, i requires 0 <= i < |ps| => ParseParameter(ps[i], packageAndClassName))
  }

  /** One iteration of `parseMethods`: the Method the declaration describes,
      promoted to an Endpoint when it carries a mapping annotation. */
  function ParseMethod(ctx: Context, md: MethodDecl, requestMapping: Option<AnnotationExpr>): (r: Method)
    ensures AsMethod(r) ==
      Method(md.name, ctx.packageAndClassName, Distinct(MapParameters(md.parameters, ctx.packageAndClassName)),
             md.typeText, ParseAnnotations(md.annotations, ctx.packageAndClassName), ctx.microserviceName, ctx.className)
    ensures r.Endpoint? <==> FirstEndpointMapping(md.annotations).Some?
  {
    var pkg := ctx.packageAndClassName;
    var m := Method(md.name, pkg, Distinct(MapParameters(md.parameters, pkg)), md.typeText,
                    ParseAnnotations(md.annotations, pkg), ctx.microserviceName, ctx.className);
    ConvertValidEndpoints(md, m, requestMapping)
  }

  function MethodsOf(ctx: Context, mds: seq<MethodDecl>, requestMapping: Option<AnnotationExpr>): (r: seq<Method>)
    ensures |r| == |mds|
    ensures forall i :: 0 <= i < |mds| ==> r[i] == ParseMethod(ctx, mds[i], requestMapping)
  {
    seq(|mds|, i requires 0 <= i < |mds| => ParseMethod(ctx, mds[i], requestMapping))
  }

  /** The method set `parseMethods` returns. */
  function ParsedMethods(ctx: Context, mds: seq<MethodDecl>, requestMapping: Option<AnnotationExpr>): seq<Method> {
    Distinct(MethodsOf(ctx, mds, requestMapping))
  }

  lemma MethodsOfStep(ctx: Context, mds: seq<MethodDecl>, i: nat, requestMapping: Option<AnnotationExpr>)
    requires i < |mds|
    ensures Distinct(MethodsOf(ctx, mds[..i + 1], requestMapping)) ==
      SetAdd(Distinct(MethodsOf(ctx, mds[..i], requestMapping)), ParseMethod(ctx, mds[i], requestMapping))
  {
    var m := ParseMethod(ctx, mds[i], requestMapping);
    var a, b := MethodsOf(ctx, mds[..i + 1], requestMapping), MethodsOf(ctx, mds[..i], requestMapping);
    forall k | 0 <= k < |b| ensures a[k] == b[k] {
      assert mds[..i + 1][k] == mds[..i][k];
    }
    SnocEq(a, b, m);
    DistinctSnoc(b, m);
  }

  /** A sequence that agrees with `b` and then holds `x` is `b + [x]`. */
  lemma SnocEq<T>(a: seq<T>, b: seq<T>, x: T)
    requires |a| == |b| + 1 && a[|b|] == x
    requires forall k :: 0 <= k < |b| ==> a[k] == b[k]
    ensures a == b + [x]
  {
  }

  /** `parseMethods`: one Method per declaration, added to a set. */
  method ParseMethods(ctx: Context, mds: seq<MethodDecl>, requestMapping: Option<AnnotationExpr>)
    returns (methods: seq<Method>)
    ensures methods == ParsedMethods(ctx, mds, requestMapping)
  {
    methods := [];
    var i := 0;
    while i < |mds|
      invariant 0 <= i <= |mds|
      invariant methods == Distinct(MethodsOf(ctx, mds[..i], requestMapping))
    {
      var m := ParseMethod(ctx, mds[i], requestMapping);
      MethodsOfStep(ctx, mds, i, requestMapping);
      methods := SetAdd(methods, m);
      i := i + 1;
    }
    assert mds[..|mds|] == mds;
  }

  /** A parsed method is the Method of one of the declarations; it is an
      Endpoint exactly when that declaration has a mapping annotation, and it
      carries the file's class name and microservice name. */
  lemma ParsedMethodsSpec(ctx: Context, mds: seq<MethodDecl>, requestMapping: Option<AnnotationExpr>, m: Method)
    ensures m in ParsedMethods(ctx, mds, requestMapping) <==>
      exists i :: 0 <= i < |mds| && m == ParseMethod(ctx, mds[i], requestMapping)
    ensures m in ParsedMethods(ctx, mds, requestMapping) ==>
      m.className == ctx.className && m.microserviceName == ctx.microserviceName &&
      m.packageAndClassName == ctx.packageAndClassName
    ensures NoDuplicates(ParsedMethods(ctx, mds, requestMapping))
  {
    var all := MethodsOf(ctx, mds, requestMapping);
    if m in all {
      var i :| 0 <= i < |all| && all[i] == m;
      assert m == ParseMethod(ctx, mds[i], requestMapping);
      assert AsMethod(m).className == m.className;
    }
  }

  // --------------------------------------------------------------- fields

  function VarFields(vs: seq<VarDecl>, packageAndClassName: string): (r: seq<Field>)
    ensures |r| == |vs|
    ensures forall j :: 0 <= j < |vs| ==> r[j] == Field(vs[j].name, packageAndClassName, vs[j].typeText)
  {
    seq(|vs|, j requires 0 <= j < |vs| => Field(vs[j].name, packageAndClassName, vs[j].typeText))
  }

  /** Every declarator of every declaration, as a Field, in order. */
  function FieldsOf(fds: seq<FieldDecl>, packageAndClassName: string): (r: seq<Field>)
    decreases |fds|
  {
    if fds == [] then []
    else FieldsOf(fds[..|fds| - 1], packageAndClassName) + VarFields(fds[|fds| - 1].Variables(), packageAndClassName)
  }

  /** The fields are exactly the declarators, each under the file's
      package-and-class name. */
  lemma {:induction false} FieldsOfSpec(fds: seq<FieldDecl>, packageAndClassName: string)
    ensures forall f :: f in FieldsOf(fds, packageAndClassName) ==> f.packageAndClassName == packageAndClassName
    ensures forall i, j :: 0 <= i < |fds| && 0 <= j < |fds[i].Variables()| ==>
      Field(fds[i].Variables()[j].name, packageAndClassName, fds[i].Variables()[j].typeText) in FieldsOf(fds, packageAndClassName)
    decreases |fds|
  {
    if fds != [] {
      var n := |fds| - 1;
      var init := fds[..n];
      FieldsOfSpec(init, packageAndClassName);
      var last := VarFields(fds[n].Variables(), packageAndClassName);
      assert FieldsOf(fds, packageAndClassName) == FieldsOf(init, packageAndClassName) + last;
      forall i, j | 0 <= i < |fds| && 0 <= j < |fds[i].Variables()|
        ensures Field(fds[i].Variables()[j].name, packageAndClassName, fds[i].Variables()[j].typeText)
          in FieldsOf(fds, packageAndClassName)
      {
        if i < n {
          assert fds[i] == init[i];
        } else {
          assert last[j] in last;
        }
      }
    }
  }

  /** The field set `parseFields` returns. */
  function ParsedFields(fds: seq<FieldDecl>, packageAndClassName: string): seq<Field> {
    Distinct(FieldsOf(fds, packageAndClassName))
  }

  lemma VarFieldsStep(before: seq<Field>, vs: seq<VarDecl>, j: nat, pkg: string)
    requires j < |vs|
    ensures Distinct(before + VarFields(vs[..j + 1], pkg)) ==
      SetAdd(Distinct(before + VarFields(vs[..j], pkg)), Field(vs[j].name, pkg, vs[j].typeText))
  {
    var f := Field(vs[j].name, pkg, vs[j].typeText);
    assert before + VarFields(vs[..j + 1], pkg) == (before + VarFields(vs[..j], pkg)) + [f];
    DistinctSnoc(before + VarFields(vs[..j], pkg), f);
  }

  lemma FieldsOfStep(fds: seq<FieldDecl>, i: nat, pkg: string)
    requires i < |fds|
    ensures FieldsOf(fds[..i + 1], pkg) == FieldsOf(fds[..i], pkg) + VarFields(fds[i].Variables()[..|fds[i].Variables()|], pkg)
  {
    assert fds[..i + 1][..i] == fds[..i];
    assert fds[i].Variables()[..|fds[i].Variables()|] == fds[i].Variables();
  }

  /** `parseFields`: the nested loop over declarations and declarators. */
  method ParseFields(ctx: Context, fds: seq<FieldDecl>) returns (fields: seq<Field>)
    ensures fields == ParsedFields(fds, ctx.packageAndClassName)
  {
    var pkg := ctx.packageAndClassName;
    fields := [];
    var i := 0;
    while i < |fds|
      invariant 0 <= i <= |fds|
      invariant fields == Distinct(FieldsOf(fds[..i], pkg))
    {
      var vs := fds[i].Variables();
      fields := AddDeclarators(fields, vs, pkg, FieldsOf(fds[..i], pkg));
      FieldsOfStep(fds, i, pkg);
      i := i + 1;
    }
    assert fds[..|fds|] == fds;
  }

  /** The inner loop of `parseFields`: a Field per declarator. */
  method AddDeclarators(fields: seq<Field>, vs: seq<VarDecl>, pkg: string, ghost before: seq<Field>) returns (fields': seq<Field>)
    requires fields == Distinct(before)
    ensures fields' == Distinct(before + VarFields(vs[..|vs|], pkg))
  {
    fields' := fields;
    assert VarFields(vs[..0], pkg) == [];
    assert before + VarFields(vs[..0], pkg) == before;
    var j := 0;
    while j < |vs|
      invariant 0 <= j <= |vs|
      invariant fields' == Distinct(before + VarFields(vs[..j], pkg))
    {
      var f := Field(vs[j].name, pkg, vs[j].typeText);
      VarFieldsStep(before, vs, j, pkg);
      fields' := SetAdd(fields', f);
      j := j + 1;
    }
  }

  // ---------------------------------------------------------- method calls

  /** `getCallingObjectName`: the scope's name when the scope is a plain
      name, "" otherwise (never null). */
  function GetCallingObjectName(ce: CallExpr): (r: string)
    ensures ce.scope.Some? && ce.scope.value.Name? ==> r == ce.scope.value.name
    ensures !(ce.scope.Some? && ce.scope.value.Name?) ==> r == ""
  {
    match ce.scope
    case Some(Name(n)) => n
    case _ => ""
  }

  /** `getCallingObjectType`: "" without a scope; otherwise the last
      `.`-segment of the resolved qualified name, the name of an unsolved
      symbol, or "" on any other failure. */
  function GetCallingObjectType(ce: CallExpr): (r: string)
    ensures ce.scope.None? ==> r == ""
    ensures ce.scope.Some? && ce.scopeType.Resolved? ==> '.' !in r
    ensures ce.scope.Some? && ce.scopeType.Resolved? && '.' !in ce.scopeType.qualifiedName ==>
      r == ce.scopeType.qualifiedName
    ensures ce.scope.Some? && ce.scopeType.Unsolved? && ce.scopeType.symbol.Some? ==> r == ce.scopeType.symbol.value
    ensures ce.scope.Some? && ce.scopeType.Unsolved? && ce.scopeType.symbol.None? ==> r == ""
    ensures ce.scope.Some? && ce.scopeType.Unresolvable? ==> r == ""
  {
    if ce.scope.None? then ""
    else match ce.scopeType
      case Resolved(q) =>
        var parts := Split(q, '.');
        if parts == [] then ""
        else
          assert '.' in q ==> parts == Pieces(q, '.')[..|parts|];
          assert '.' in q ==> parts[|parts| - 1] == Pieces(q, '.')[|parts| - 1];
          parts[|parts| - 1]
      case Unsolved(symbol) => if symbol.Some? then symbol.value else ""
      case Unresolvable => ""
  }

  /** A resolved name with a dot gives the non-empty segment after its last
      dot. */
  lemma ResolvedLastSegment(ce: CallExpr, pre: string, x: string)
    requires ce.scope.Some? && ce.scopeType == Resolved(pre + "." + x)
    requires x != "" && '.' !in x
    ensures GetCallingObjectType(ce) == x
  {
    var q := pre + "." + x;
    FileUtils.PiecesAppend(pre, '.', x);
    assert q == pre + ['.'] + x;
    assert q[|pre|] == '.';
    assert DropTrailingEmpty(Pieces(pre, '.') + [x]) == Pieces(pre, '.') + [x];
  }

  /** Trailing dots are dropped, as `split` drops trailing empty parts. */
  lemma ResolvedTrailingDot(ce: CallExpr, q: string)
    requires ce.scope.Some? && ce.scopeType == Resolved(q + ".")
    ensures GetCallingObjectType(ce) == GetCallingObjectType(ce.(scopeType := Resolved(q)))
  {
    FileUtils.PiecesAppend(q, '.', "");
    assert q + "." == q + ['.'] + "";
    assert (q + ".")[|q|] == '.';
    var p := Pieces(q, '.');
    assert (p + [""])[..|p|] == p;
    assert DropTrailingEmpty(p + [""]) == DropTrailingEmpty(p);
  }

  /** The argument texts joined by `,`. */
  function ArgumentContents(arguments: seq<Expr>): string {
    Join(seq(|arguments|, i requires 0 <= i < |arguments| => arguments[i].Text()), ",")
  }

  predicate IsRestCandidate(objectType: string, name: string) {
    objectType in RestCallTemplate.REST_OBJECTS && name in RestCallTemplate.REST_METHODS
  }

  /** `convertValidRestCalls`: a call on a REST client with a REST method name
      and a non-empty resolved URL becomes a RestCall; every other call is
      returned as it is. Resolving the URL can throw or fail to return. */
  function ConvertValidRestCalls(ce: CallExpr, mc: MethodCall, fields: seq<FieldDecl>): (r: Outcome<MethodCall>)
    ensures !IsRestCandidate(mc.objectType, ce.name) ==> r == Done(mc)
    ensures r.Done? ==> AsMethodCall(r.value) == AsMethodCall(mc)
    ensures IsRestCandidate(mc.objectType, ce.name) ==>
      (r.Done? <==> RestCallTemplate.NewTemplate(ce, mc.objectType, fields).Done?)
    ensures mc.MethodCall? && r.Done? ==>
      (r.value.RestCall? <==>
        IsRestCandidate(mc.objectType, ce.name) && RestCallTemplate.NewTemplate(ce, mc.objectType, fields).value.url != "")
    ensures mc.MethodCall? && r.Done? && r.value.RestCall? ==>
      RestCallTemplate.NewTemplate(ce, mc.objectType, fields).value == RestCallTemplate.Template(r.value.url, r.value.httpMethod)
  {
    if !IsRestCandidate(mc.objectType, ce.name) then Done(mc)
    else match RestCallTemplate.NewTemplate(ce, mc.objectType, fields)
      case Done(t) => if t.url == "" then Done(mc) else Done(NewRestCall(mc, t.url, t.httpMethod))
      case Diverges => Diverges
      case Throws(x) => Throws(x)
  }

  /** The MethodCall one call expression of declaration `md` yields. */
  function CallOf(ctx: Context, md: MethodDecl, ce: CallExpr, fields: seq<FieldDecl>): (r: Outcome<MethodCall>)
    ensures r.Done? ==>
      AsMethodCall(r.value) ==
        NewMethodCall(ce.name, ctx.packageAndClassName, GetCallingObjectType(ce), GetCallingObjectName(ce),
                      md.name, ArgumentContents(ce.arguments), ctx.microserviceName, ctx.className)
    ensures !IsRestCandidate(GetCallingObjectType(ce), ce.name) ==> r.Done? && r.value.MethodCall?
  {
    var mc := NewMethodCall(ce.name, ctx.packageAndClassName, GetCallingObjectType(ce), GetCallingObjectName(ce),
                            md.name, ArgumentContents(ce.arguments), ctx.microserviceName, ctx.className);
    ConvertValidRestCalls(ce, mc, fields)
  }

  /** Put `prefix` in front of a successful result; a failure stays as it is. */
  function Prepend(prefix: seq<MethodCall>, o: Outcome<seq<MethodCall>>): (r: Outcome<seq<MethodCall>>)
    ensures r.Done? <==> o.Done?
    ensures r.Done? ==> r.value == prefix + o.value
    ensures !o.Done? ==> r == o
  {
    match o
    case Done(x) => Done(prefix + x)
    case Diverges => Diverges
    case Throws(e) => Throws(e)
  }

  /** The calls of one declaration, in order; the first failing call makes
      the whole fail. */
  function CollectCalls(ctx: Context, md: MethodDecl, calls: seq<CallExpr>, fields: seq<FieldDecl>): Outcome<seq<MethodCall>>
    decreases |calls|
  {
    if calls == [] then Done([])
    else match CallOf(ctx, md, calls[0], fields)
      case Done(c) => Prepend([c], CollectCalls(ctx, md, calls[1..], fields))
      case Diverges => Diverges
      case Throws(e) => Throws(e)
  }

  /** The result of the remaining declarations after a declaration's calls. */
  function Then(ctx: Context, o: Outcome<seq<MethodCall>>, rest: seq<MethodDecl>, fields: seq<FieldDecl>): Outcome<seq<MethodCall>>
    decreases |rest|, 1
  {
    match o
    case Done(cs) => Prepend(cs, AllCalls(ctx, rest, fields))
    case Diverges => Diverges
    case Throws(e) => Throws(e)
  }

  /** The call list `parseMethodCalls` returns, declaration by declaration. */
  function AllCalls(ctx: Context, mds: seq<MethodDecl>, fields: seq<FieldDecl>): Outcome<seq<MethodCall>>
    decreases |mds|, 0
  {
    if mds == [] then Done([]) else Then(ctx, CollectCalls(ctx, mds[0], mds[0].calls, fields), mds[1..], fields)
  }

  lemma PrependPrepend(a: seq<MethodCall>, b: seq<MethodCall>, o: Outcome<seq<MethodCall>>)
    ensures Prepend(a, Prepend(b, o)) == Prepend(a + b, o)
  {
    if o.Done? {
      assert a + (b + o.value) == (a + b) + o.value;
    }
  }

  lemma PrependEmpty(o: Outcome<seq<MethodCall>>)
    ensures Prepend([], o) == o
  {
    if o.Done? {
      assert [] + o.value == o.value;
    }
  }

  lemma PrependThen(ctx: Context, a: seq<MethodCall>, o: Outcome<seq<MethodCall>>, rest: seq<MethodDecl>,
                    fields: seq<FieldDecl>)
    ensures Then(ctx, Prepend(a, o), rest, fields) == Prepend(a, Then(ctx, o, rest, fields))
  {
    if o.Done? {
      PrependPrepend(a, o.value, AllCalls(ctx, rest, fields));
    }
  }

  lemma DeclStep(ctx: Context, mds: seq<MethodDecl>, i: nat, fields: seq<FieldDecl>)
    requires i < |mds|
    ensures AllCalls(ctx, mds[i..], fields) == Then(ctx, CollectCalls(ctx, mds[i], mds[i].calls[0..], fields), mds[i + 1..], fields)
    ensures CollectCalls(ctx, mds[i], mds[i].calls[|mds[i].calls|..], fields) == Done([])
  {
    DropNext(mds, i);
    assert mds[i].calls[0..] == mds[i].calls;
    assert mds[i].calls[|mds[i].calls|..] == [];
  }

  /** One call of the inner loop: a successful call moves from the pending
      outcome to the accumulated list; a failing one is the whole outcome. */
  lemma CallStep(ctx: Context, md: MethodDecl, j: nat, rest: seq<MethodDecl>, fields: seq<FieldDecl>, acc: seq<MethodCall>)
    requires j < |md.calls|
    ensures var o := CallOf(ctx, md, md.calls[j], fields);
      var before := Prepend(acc, Then(ctx, CollectCalls(ctx, md, md.calls[j..], fields), rest, fields));
      (o.Done? ==> before == Prepend(acc + [o.value], Then(ctx, CollectCalls(ctx, md, md.calls[j + 1..], fields), rest, fields))) &&
      (o.Diverges? ==> before == Diverges) &&
      (o.Throws? ==> before == Throws(o.exception))
  {
    assert md.calls[j..][0] == md.calls[j] && md.calls[j..][1..] == md.calls[j + 1..];
    var o := CallOf(ctx, md, md.calls[j], fields);
    if o.Done? {
      var c := o.value;
      PrependThen(ctx, [c], CollectCalls(ctx, md, md.calls[j + 1..], fields), rest, fields);
      PrependPrepend(acc, [c], Then(ctx, CollectCalls(ctx, md, md.calls[j + 1..], fields), rest, fields));
    }
  }

  /** `parseMethodCalls`: every call expression of every declaration, in
      order, one MethodCall each. */
  method ParseMethodCalls(ctx: Context, mds: seq<MethodDecl>, fields: seq<FieldDecl>)
    returns (r: Outcome<seq<MethodCall>>)
    ensures r == AllCalls(ctx, mds, fields)
  {
    var methodCalls: seq<MethodCall> := [];
    assert mds[0..] == mds;
    PrependEmpty(AllCalls(ctx, mds, fields));
    var i := 0;
    while i < |mds|
      invariant 0 <= i <= |mds|
      invariant AllCalls(ctx, mds, fields) == Prepend(methodCalls, AllCalls(ctx, mds[i..], fields))
    {
      DeclStep(ctx, mds, i, fields);
      var o := DeclCalls(ctx, mds[i], mds[i + 1..], fields, methodCalls);
      if !o.Done? {
        return o;
      }
      methodCalls := o.value;
      i := i + 1;
    }
    assert mds[|mds|..] == [];
    assert methodCalls + [] == methodCalls;
    return Done(methodCalls);
  }

  /** The inner loop of `parseMethodCalls` over one declaration's calls,
      appending to `acc`; a failing call is the outcome of the whole loop. */
  method DeclCalls(ctx: Context, md: MethodDecl, rest: seq<MethodDecl>, fields: seq<FieldDecl>, acc: seq<MethodCall>)
    returns (o: Outcome<seq<MethodCall>>)
    ensures o.Done? ==>
      Prepend(acc, Then(ctx, CollectCalls(ctx, md, md.calls, fields), rest, fields)) == Prepend(o.value, AllCalls(ctx, rest, fields))
    ensures !o.Done? ==> Prepend(acc, Then(ctx, CollectCalls(ctx, md, md.calls, fields), rest, fields)) == o
  {
    var methodCalls := acc;
    assert md.calls[0..] == md.calls;
    var j := 0;
    while j < |md.calls|
      invariant 0 <= j <= |md.calls|
      invariant Prepend(acc, Then(ctx, CollectCalls(ctx, md, md.calls, fields), rest, fields)) ==
        Prepend(methodCalls, Then(ctx, CollectCalls(ctx, md, md.calls[j..], fields), rest, fields))
    {
      var c := CallOf(ctx, md, md.calls[j], fields);
      CallStep(ctx, md, j, rest, fields, methodCalls);
      match c {
        case Done(call) =>
          methodCalls := methodCalls + [call];
        case Diverges =>
          return Diverges;
        case Throws(e) =>
          return Throws(e);
      }
      j := j + 1;
    }
    assert md.calls[|md.calls|..] == [];
    PrependEmpty(AllCalls(ctx, rest, fields));
    return Done(methodCalls);
  }

  /** The number of call expressions of the declarations. */
  function CallCount(mds: seq<MethodDecl>): nat {
    if mds == [] then 0 else |mds[0].calls| + CallCount(mds[1..])
  }

  /** No call expression is on a REST client with a REST method name. */
  predicate NoRestCandidates(mds: seq<MethodDecl>) {
    forall i, j :: 0 <= i < |mds| && 0 <= j < |mds[i].calls| ==>
      !IsRestCandidate(GetCallingObjectType(mds[i].calls[j]), mds[i].calls[j].name)
  }

  lemma {:induction false} CollectCallsSpec(ctx: Context, md: MethodDecl, calls: seq<CallExpr>, fields: seq<FieldDecl>)
    ensures var o := CollectCalls(ctx, md, calls, fields);
      o.Done? ==> (|o.value| == |calls| &&
        forall k :: 0 <= k < |calls| ==> o.value[k].name == calls[k].name && o.value[k].calledFrom == md.name)
    ensures (forall k :: 0 <= k < |calls| ==> !IsRestCandidate(GetCallingObjectType(calls[k]), calls[k].name)) ==>
      CollectCalls(ctx, md, calls, fields).Done?
  {
    CollectCallsShape(ctx, md, calls, fields);
    CollectCallsDone(ctx, md, calls, fields);
  }

  /** A successful call keeps the call's name and its declaration. */
  lemma CallOfNames(ctx: Context, md: MethodDecl, ce: CallExpr, fields: seq<FieldDecl>)
    ensures var o := CallOf(ctx, md, ce, fields);
      o.Done? ==> o.value.name == ce.name && o.value.calledFrom == md.name
  {
    var o := CallOf(ctx, md, ce, fields);
    if o.Done? {
      assert o.value.name == AsMethodCall(o.value).name;
      assert o.value.calledFrom == AsMethodCall(o.value).calledFrom;
    }
  }

  lemma {:induction false} CollectCallsShape(ctx: Context, md: MethodDecl, calls: seq<CallExpr>, fields: seq<FieldDecl>)
    ensures var o := CollectCalls(ctx, md, calls, fields);
      o.Done? ==> (|o.value| == |calls| &&
        forall k :: 0 <= k < |calls| ==> o.value[k].name == calls[k].name && o.value[k].calledFrom == md.name)
    decreases |calls|
  {
    var o := CollectCalls(ctx, md, calls, fields);
    if calls != [] && o.Done? {
      var h := CallOf(ctx, md, calls[0], fields);
      var rest := CollectCalls(ctx, md, calls[1..], fields);
      assert h.Done? && o == Prepend([h.value], rest);
      CollectCallsShape(ctx, md, calls[1..], fields);
      CallOfNames(ctx, md, calls[0], fields);
      forall k | 0 <= k < |calls|
        ensures o.value[k].name == calls[k].name && o.value[k].calledFrom == md.name
      {
        if k > 0 {
          assert o.value[k] == rest.value[k - 1];
          assert calls[1..][k - 1] == calls[k];
        }
      }
    }
  }

  lemma {:induction false} CollectCallsDone(ctx: Context, md: MethodDecl, calls: seq<CallExpr>, fields: seq<FieldDecl>)
    ensures (forall k :: 0 <= k < |calls| ==> !IsRestCandidate(GetCallingObjectType(calls[k]), calls[k].name)) ==>
      CollectCalls(ctx, md, calls, fields).Done?
    decreases |calls|
  {
    if calls != [] {
      CollectCallsDone(ctx, md, calls[1..], fields);
      assert forall k :: 1 <= k < |calls| ==> calls[1..][k - 1] == calls[k];
    }
  }

  /** Each call expression of each declaration yields exactly one MethodCall
      (the receiver name is never null), named after the call and recording
      the declaration it is in; only a REST-client call can make the parse fail. */
  lemma {:induction false} AllCallsSpec(ctx: Context, mds: seq<MethodDecl>, fields: seq<FieldDecl>)
    ensures AllCalls(ctx, mds, fields).Done? ==> |AllCalls(ctx, mds, fields).value| == CallCount(mds)
    ensures NoRestCandidates(mds) ==> AllCalls(ctx, mds, fields).Done?
    ensures NoRestCandidates(mds) ==> forall c :: c in AllCalls(ctx, mds, fields).value ==> c.MethodCall?
    decreases |mds|
  {
    if mds != [] {
      var md := mds[0];
      CollectCallsSpec(ctx, md, md.calls, fields);
      AllCallsSpec(ctx, mds[1..], fields);
      assert NoRestCandidates(mds) ==> NoRestCandidates(mds[1..]) by {
        if NoRestCandidates(mds) {
          forall i, j | 0 <= i < |mds[1..]| && 0 <= j < |mds[1..][i].calls|
            ensures !IsRestCandidate(GetCallingObjectType(mds[1..][i].calls[j]), mds[1..][i].calls[j].name)
          {
            assert mds[1..][i] == mds[i + 1];
          }
        }
      }
      if NoRestCandidates(mds) {
        NoCandidatesPlain(ctx, md, md.calls, fields);
      }
    }
  }

  lemma {:induction false} NoCandidatesPlain(ctx: Context, md: MethodDecl, calls: seq<CallExpr>, fields: seq<FieldDecl>)
    requires forall k :: 0 <= k < |calls| ==> !IsRestCandidate(GetCallingObjectType(calls[k]), calls[k].name)
    ensures CollectCalls(ctx, md, calls, fields).Done?
    ensures forall c :: c in CollectCalls(ctx, md, calls, fields).value ==> c.MethodCall?
    decreases |calls|
  {
    if calls != [] {
      assert forall k :: 1 <= k < |calls| ==> calls[1..][k - 1] == calls[k];
      NoCandidatesPlain(ctx, md, calls[1..], fields);
    }
  }

  // --------------------------------------------------------- Feign clients

  /** The query name a RequestParam annotation asks for: its `default`
      attribute, else its `name` attribute, else the parameter's name. */
  function QueryParamName(p: Parameter, a: Annotation): string {
    if "default" in a.attributes then a.attributes["default"]
    else if "name" in a.attributes then a.attributes["name"]
    else p.name
  }

  /** The query names `anns`, annotations of `p`, contribute. */
  function ParamQueryNames(p: Parameter, anns: seq<Annotation>): seq<string>
    decreases |anns|
  {
    if anns == [] then []
    else
      var last := anns[|anns| - 1];
      ParamQueryNames(p, anns[..|anns| - 1]) + (if last.name == "RequestParam" then [QueryParamName(p, last)] else [])
  }

  /** The query names of the parameters, parameter by parameter. */
  function QueryNames(ps: seq<Parameter>): seq<string>
    decreases |ps|
  {
    if ps == [] then [] else QueryNames(ps[..|ps| - 1]) + ParamQueryNames(ps[|ps| - 1], ps[|ps| - 1].annotations)
  }

  /** What the StringBuilder holds: `&name={?}` for each name. */
  function Fragments(names: seq<string>): (r: string)
    ensures r == "" <==> names == []
    ensures r != "" ==> r[0] == '&'
    decreases |names|
  {
    if names == [] then ""
    else
      var f := Fragments(names[..|names| - 1]);
      assert (f + "&")[|f|] == '&';
      f + "&" + names[|names| - 1] + "={?}"
  }

  /** The query string of a Feign endpoint: the fragments with the first
      character (a `&`) replaced by `?`. */
  function QueryParams(ps: seq<Parameter>): string {
    var f := Fragments(QueryNames(ps));
    if f == "" then "" else "?" + f[1..]
  }

  function Suffixed(names: seq<string>): (r: seq<string>)
    ensures |r| == |names|
    ensures forall i :: 0 <= i < |names| ==> r[i] == names[i] + "={?}"
  {
    seq(|names|, i requires 0 <= i < |names| => names[i] + "={?}")
  }

  lemma {:induction false} JoinSnoc(parts: seq<string>, x: string, sep: string)
    requires parts != []
    ensures Join(parts + [x], sep) == Join(parts, sep) + sep + x
    decreases |parts|
  {
    if |parts| == 1 {
      assert (parts + [x])[1..] == [x];
    } else {
      JoinSnoc(parts[1..], x, sep);
      assert (parts + [x])[1..] == parts[1..] + [x];
    }
  }

  lemma {:induction false} FragmentsJoin(names: seq<string>)
    requires names != []
    ensures Fragments(names) == "&" + Join(Suffixed(names), "&")
    decreases |names|
  {
    var n := |names| - 1;
    var init := names[..n];
    if init == [] {
      assert Fragments(init) == "";
    } else {
      FragmentsJoin(init);
      assert Suffixed(names) == Suffixed(init) + [names[n] + "={?}"];
      JoinSnoc(Suffixed(init), names[n] + "={?}", "&");
    }
  }

  /** The query string is `?` followed by the `name={?}` fragments joined by
      `&`, one per RequestParam annotation, and "" when there is none. */
  lemma QueryParamsJoin(ps: seq<Parameter>)
    ensures QueryNames(ps) == [] ==> QueryParams(ps) == ""
    ensures QueryNames(ps) != [] ==> QueryParams(ps) == "?" + Join(Suffixed(QueryNames(ps)), "&")
  {
    var names := QueryNames(ps);
    if names != [] {
      FragmentsJoin(names);
      var f := Fragments(names);
      assert f[1..] == Join(Suffixed(names), "&");
    }
  }

  lemma FragmentsSnoc(names: seq<string>, x: string)
    ensures Fragments(names + [x]) == Fragments(names) + "&" + x + "={?}"
  {
    assert (names + [x])[..|names|] == names;
  }

  lemma QueryStep(p: Parameter, before: seq<string>, j: nat)
    requires j < |p.annotations|
    ensures var names := before + ParamQueryNames(p, p.annotations[..j]);
      Fragments(before + ParamQueryNames(p, p.annotations[..j + 1])) ==
        if p.annotations[j].name == "RequestParam" then Fragments(names) + "&" + QueryParamName(p, p.annotations[j]) + "={?}"
        else Fragments(names)
  {
    var names := before + ParamQueryNames(p, p.annotations[..j]);
    assert p.annotations[..j + 1][..j] == p.annotations[..j];
    if p.annotations[j].name == "RequestParam" {
      assert before + ParamQueryNames(p, p.annotations[..j + 1]) == names + [QueryParamName(p, p.annotations[j])];
      FragmentsSnoc(names, QueryParamName(p, p.annotations[j]));
    } else {
      assert before + ParamQueryNames(p, p.annotations[..j + 1]) == names;
    }
  }

  lemma QueryNamesStep(ps: seq<Parameter>, i: nat)
    requires i < |ps|
    ensures QueryNames(ps[..i + 1]) == QueryNames(ps[..i]) + ParamQueryNames(ps[i], ps[i].annotations[..|ps[i].annotations|])
  {
    assert ps[..i + 1][..i] == ps[..i];
    assert ps[i].annotations[..|ps[i].annotations|] == ps[i].annotations;
  }

  /** The StringBuilder loop of `handleFeignClient` for one endpoint. */
  method BuildQueryParams(ps: seq<Parameter>) returns (q: string)
    ensures q == QueryParams(ps)
  {
    var sb: string := "";
    var i := 0;
    while i < |ps|
      invariant 0 <= i <= |ps|
      invariant sb == Fragments(QueryNames(ps[..i]))
    {
      var p := ps[i];
      ghost var before := QueryNames(ps[..i]);
      assert before + ParamQueryNames(p, p.annotations[..0]) == before;
      var j := 0;
      while j < |p.annotations|
        invariant 0 <= j <= |p.annotations|
        invariant sb == Fragments(before + ParamQueryNames(p, p.annotations[..j]))
      {
        var a := p.annotations[j];
        QueryStep(p, before, j);
        if a.name == "RequestParam" {
          var name: string;
          if "default" in a.attributes {
            name := a.attributes["default"];
          } else if "name" in a.attributes {
            name := a.attributes["name"];
          } else {
            name := p.name;
          }
          sb := sb + "&" + name + "={?}";
        }
        j := j + 1;
      }
      QueryNamesStep(ps, i);
      i := i + 1;
    }
    assert ps[..|ps|] == ps;
    if sb != "" {
      sb := "?" + sb[1..];
    }
    q := sb;
  }

  /** A Feign endpoint becomes a plain Method; any other method is kept. */
  function FeignMethod(ctx: Context, m: Method): (r: Method)
    ensures r.Method?
    ensures !m.Endpoint? ==> r == m
    ensures m.Endpoint? ==> AsMethod(r) == AsMethod(m).(packageAndClassName := ctx.packageAndClassName)
  {
    if m.Endpoint? then
      Method(m.name, ctx.packageAndClassName, m.parameters, m.returnType, m.annotations, m.microserviceName, m.className)
    else m
  }

  /** The `exchange` RestCall that stands for a Feign endpoint. */
  function FeignCall(ctx: Context, m: Method): (c: MethodCall)
    requires m.Endpoint?
    ensures c.RestCall? && c.name == "exchange" && c.objectType == "RestCallTemplate" && c.objectName == "restCallTemplate"
    ensures c.calledFrom == m.name && c.parameterContents == "" && c.packageAndClassName == ctx.packageAndClassName
    ensures c.microserviceName == m.microserviceName && c.className == m.className
    ensures c.url == m.url + QueryParams(m.parameters) && c.httpMethod == m.httpMethod
  {
    var mc := NewMethodCall("exchange", ctx.packageAndClassName, "RestCallTemplate", "restCallTemplate", m.name, "",
                            m.microserviceName, m.className);
    NewRestCall(mc, m.url + QueryParams(m.parameters), m.httpMethod)
  }

  /** The methods of a Feign client after the rewrite, in iteration order. */
  function FeignMethodsOf(ctx: Context, ms: seq<Method>): seq<Method>
    decreases |ms|
  {
    if ms == [] then [] else FeignMethodsOf(ctx, ms[..|ms| - 1]) + [FeignMethod(ctx, ms[|ms| - 1])]
  }

  /** The RestCalls of the endpoints, in iteration order. */
  function FeignCallsOf(ctx: Context, ms: seq<Method>): seq<MethodCall>
    decreases |ms|
  {
    if ms == [] then []
    else
      var last := ms[|ms| - 1];
      FeignCallsOf(ctx, ms[..|ms| - 1]) + (if last.Endpoint? then [FeignCall(ctx, last)] else [])
  }

  lemma {:induction false} FeignMethodsPlain(ctx: Context, ms: seq<Method>)
    ensures forall m :: m in FeignMethodsOf(ctx, ms) ==> m.Method?
    decreases |ms|
  {
    if ms != [] {
      FeignMethodsPlain(ctx, ms[..|ms| - 1]);
    }
  }

  lemma {:induction false} FeignCallsFrom(ctx: Context, ms: seq<Method>)
    ensures forall c :: c in FeignCallsOf(ctx, ms) ==> exists m :: m in ms && m.Endpoint? && c == FeignCall(ctx, m)
    decreases |ms|
  {
    if ms != [] {
      var n := |ms| - 1;
      FeignCallsFrom(ctx, ms[..n]);
      forall c | c in FeignCallsOf(ctx, ms) ensures exists m :: m in ms && m.Endpoint? && c == FeignCall(ctx, m) {
        if c in FeignCallsOf(ctx, ms[..n]) {
          var m :| m in ms[..n] && m.Endpoint? && c == FeignCall(ctx, m);
          assert m in ms;
        } else {
          assert ms[n] in ms;
        }
      }
    }
  }

  lemma {:induction false} FeignCallsCover(ctx: Context, ms: seq<Method>)
    ensures forall m :: m in ms && m.Endpoint? ==> FeignCall(ctx, m) in FeignCallsOf(ctx, ms)
    decreases |ms|
  {
    if ms != [] {
      var n := |ms| - 1;
      FeignCallsCover(ctx, ms[..n]);
      SplitLast(ms);
      forall m | m in ms && m.Endpoint? ensures FeignCall(ctx, m) in FeignCallsOf(ctx, ms) {
        if m != ms[n] {
          assert m in ms[..n];
        }
      }
    }
  }

  lemma {:induction false} FeignCallsCount(ctx: Context, ms: seq<Method>)
    ensures |FeignCallsOf(ctx, ms)| == |EndpointsOf(ms)|
    decreases |ms|
  {
    if ms != [] {
      var n := |ms| - 1;
      FeignCallsCount(ctx, ms[..n]);
      SplitLast(ms);
      EndpointsOfSnoc(ms[..n], ms[n]);
    }
  }

  /** The rewrite leaves no Endpoint among the methods, and yields one
      `exchange` RestCall per endpoint, called from that endpoint. */
  lemma FeignRewriteSpec(ctx: Context, ms: seq<Method>)
    ensures forall m :: m in Distinct(FeignMethodsOf(ctx, ms)) ==> m.Method?
    ensures forall m :: m in ms && m.Endpoint? ==> FeignCall(ctx, m) in FeignCallsOf(ctx, ms)
    ensures forall c :: c in FeignCallsOf(ctx, ms) ==>
      c.RestCall? && c.name == "exchange" && exists m :: m in ms && m.Endpoint? && c == FeignCall(ctx, m)
    ensures |FeignCallsOf(ctx, ms)| == |EndpointsOf(ms)|
  {
    FeignMethodsPlain(ctx, ms);
    FeignCallsFrom(ctx, ms);
    FeignCallsCover(ctx, ms);
    FeignCallsCount(ctx, ms);
  }

  lemma {:induction false} EndpointsOfSnoc(ms: seq<Method>, m: Method)
    ensures EndpointsOf(ms + [m]) == EndpointsOf(ms) + (if m.Endpoint? then [m] else [])
    decreases |ms|
  {
    if ms == [] {
      assert [m][1..] == [];
    } else {
      var head := if ms[0].Endpoint? then [ms[0]] else [];
      AppendTail(ms, [m]);
      assert EndpointsOf(ms + [m]) == head + EndpointsOf(ms[1..] + [m]);
      EndpointsOfSnoc(ms[1..], m);
      Associative(head, EndpointsOf(ms[1..]), if m.Endpoint? then [m] else []);
    }
  }

  lemma FeignStep(ctx: Context, ms: seq<Method>, i: nat)
    requires i < |ms|
    ensures Distinct(FeignMethodsOf(ctx, ms[..i + 1])) == SetAdd(Distinct(FeignMethodsOf(ctx, ms[..i])), FeignMethod(ctx, ms[i]))
    ensures FeignCallsOf(ctx, ms[..i + 1]) == FeignCallsOf(ctx, ms[..i]) + (if ms[i].Endpoint? then [FeignCall(ctx, ms[i])] else [])
  {
    assert ms[..i + 1][..i] == ms[..i];
    DistinctSnoc(FeignMethodsOf(ctx, ms[..i]), FeignMethod(ctx, ms[i]));
  }

  /** The body of the loop of `handleFeignClient`, for one method: the
      method to keep and, for an endpoint, the RestCall standing for it. */
  method ConvertFeignMethod(ctx: Context, m: Method) returns (method': Method, call: Option<MethodCall>)
    ensures method' == FeignMethod(ctx, m)
    ensures call.Some? <==> m.Endpoint?
    ensures m.Endpoint? ==> call.value == FeignCall(ctx, m)
  {
    if m.Endpoint? {
      method' := Method(m.name, ctx.packageAndClassName, m.parameters, m.returnType, m.annotations,
                        m.microserviceName, m.className);
      var queryParams := BuildQueryParams(m.parameters);
      var mc := NewMethodCall("exchange", ctx.packageAndClassName, "RestCallTemplate", "restCallTemplate", m.name, "",
                              m.microserviceName, m.className);
      call := Some(NewRestCall(mc, m.url + queryParams, m.httpMethod));
    } else {
      method', call := m, None;
    }
  }

  /** The loop of `handleFeignClient` over the parsed methods. */
  method RewriteFeignMethods(ctx: Context, methods: seq<Method>) returns (newMethods: seq<Method>, newRestCalls: seq<MethodCall>)
    ensures newMethods == Distinct(FeignMethodsOf(ctx, methods))
    ensures newRestCalls == FeignCallsOf(ctx, methods)
  {
    newMethods := [];
    newRestCalls := [];
    var i := 0;
    while i < |methods|
      invariant 0 <= i <= |methods|
      invariant newMethods == Distinct(FeignMethodsOf(ctx, methods[..i]))
      invariant newRestCalls == FeignCallsOf(ctx, methods[..i])
    {
      var m := methods[i];
      FeignStep(ctx, methods, i);
      var method', call := ConvertFeignMethod(ctx, m);
      newMethods := SetAdd(newMethods, method');
      if call.Some? {
        newRestCalls := newRestCalls + [call.value];
      }
      i := i + 1;
    }
    assert methods[..|methods|] == methods;
  }

  /** `cu.findAll(ClassOrInterfaceDeclaration.class).get(0).getImplementedTypes()`
      as a set; with no class declaration `get(0)` throws. */
  function ImplementedTypes(cu: CompilationUnit): (r: Outcome<seq<string>>)
    ensures r.Done? <==> cu.implementedTypes.Some?
    ensures r.Done? ==> NoDuplicates(r.value) && forall t :: t in r.value <==> t in cu.implementedTypes.value
  {
    match cu.implementedTypes
    case None => Throws("IndexOutOfBoundsException")
    case Some(ts) => Done(Distinct(ts))
  }

  /** The class `handleFeignClient` builds. */
  function FeignClientClass(ctx: Context, cu: CompilationUnit, requestMapping: Option<AnnotationExpr>,
                            classAnnotations: seq<AnnotationExpr>): (r: Outcome<JClass>)
    ensures r.Done? ==> Header(r.value, ctx) && r.value.classRole == FEIGN_CLIENT
  {
    var methods := ParsedMethods(ctx, cu.methods, requestMapping);
    match ImplementedTypes(cu)
    case Done(ts) =>
      Done(JClass(ctx.className, ctx.path, ctx.packageName, FEIGN_CLIENT, Distinct(FeignMethodsOf(ctx, methods)),
                  ParsedFields(cu.fieldDecls, ctx.packageAndClassName),
                  ParseAnnotations(classAnnotations, ctx.packageAndClassName), FeignCallsOf(ctx, methods), ts))
    case Diverges => Diverges
    case Throws(e) => Throws(e)
  }

  /** `handleFeignClient`. */
  method HandleFeignClient(ctx: Context, cu: CompilationUnit, requestMapping: Option<AnnotationExpr>,
                           classAnnotations: seq<AnnotationExpr>) returns (r: Outcome<JClass>)
    ensures r == FeignClientClass(ctx, cu, requestMapping, classAnnotations)
  {
    var methods := ParseMethods(ctx, cu.methods, requestMapping);
    var newMethods, newRestCalls := RewriteFeignMethods(ctx, methods);
    var fields := ParseFields(ctx, cu.fieldDecls);
    var annotations := ParseAnnotations(classAnnotations, ctx.packageAndClassName);
    match ImplementedTypes(cu) {
      case Done(ts) =>
        r := Done(JClass(ctx.className, ctx.path, ctx.packageName, FEIGN_CLIENT, newMethods, fields, annotations,
                         newRestCalls, ts));
      case Diverges =>
        r := Diverges;
      case Throws(e) =>
        r := Throws(e);
    }
  }

  /** A Feign client class has no endpoints of its own and one `exchange`
      RestCall per endpoint its mappings declare. */
  lemma FeignClientClassSpec(ctx: Context, cu: CompilationUnit, requestMapping: Option<AnnotationExpr>,
                             classAnnotations: seq<AnnotationExpr>)
    ensures var r := FeignClientClass(ctx, cu, requestMapping, classAnnotations);
      r.Done? <==> cu.implementedTypes.Some?
    ensures var r := FeignClientClass(ctx, cu, requestMapping, classAnnotations);
      r.Done? ==> (r.value.classRole == FEIGN_CLIENT && GetEndpoints(r.value) == [] &&
        (forall m :: m in r.value.methods ==> m.Method?) &&
        (forall c :: c in r.value.methodCalls ==> c.RestCall? && c.name == "exchange") &&
        |r.value.methodCalls| == |EndpointsOf(ParsedMethods(ctx, cu.methods, requestMapping))|)
  {
    var methods := ParsedMethods(ctx, cu.methods, requestMapping);
    var r := FeignClientClass(ctx, cu, requestMapping, classAnnotations);
    if cu.implementedTypes.Some? {
      var c := r.value;
      assert c.methods == Distinct(FeignMethodsOf(ctx, methods));
      assert c.methodCalls == FeignCallsOf(ctx, methods);
      FeignRewriteSpec(ctx, methods);
    }
  }

  // ------------------------------------------- repository REST resources

  /** The default prefix: "/", the lower-cased class name without
      `repository`, then "s". */
  function DefaultResourcePrefix(className: string): string {
    "/" + Replace(ToLower(className), "repository", "") + "s"
  }

  /** The text of the first `path` pair. */
  function FirstPathText(pairs: seq<MemberValuePair>): (r: Option<string>)
    ensures r.None? <==> forall i :: 0 <= i < |pairs| ==> pairs[i].name != "path"
  {
    if pairs == [] then None
    else if pairs[0].name == "path" then Some(pairs[0].value.Text())
    else
      assert forall i :: 1 <= i < |pairs| ==> pairs[i] == pairs[1..][i - 1];
      FirstPathText(pairs[1..])
  }

  /** The class-annotation loop of `handleRepositoryRestResource`. With a
      normal `@RequestMapping`, each RepositoryRestResource annotation
      appends the text of its first `path` pair; with a single-member one,
      the first RepositoryRestResource annotation appends its own single
      value and ends the loop, throwing when it has no single value. */
  function ResourcePrefix(preUrl: string, annotations: seq<AnnotationExpr>, requestMapping: Option<AnnotationExpr>): Outcome<string>
    decreases |annotations|
  {
    if annotations == [] then Done(preUrl)
    else
      var a := annotations[0];
      if a.name != "RepositoryRestResource" then ResourcePrefix(preUrl, annotations[1..], requestMapping)
      else match requestMapping
        case Some(Normal(_, pairs)) =>
          var suffix := match FirstPathText(pairs) case Some(t) => t case None => "";
          ResourcePrefix(preUrl + suffix, annotations[1..], requestMapping)
        case Some(SingleMember(_, _)) =>
          if a.SingleMember? then Done(preUrl + a.memberValue.Text()) else Throws("IllegalStateException")
        case _ => ResourcePrefix(preUrl, annotations[1..], requestMapping)
  }

  method ClassResourcePrefix(preUrl0: string, annotations: seq<AnnotationExpr>, requestMapping: Option<AnnotationExpr>)
    returns (r: Outcome<string>)
    ensures r == ResourcePrefix(preUrl0, annotations, requestMapping)
  {
    var preUrl := preUrl0;
    var i := 0;
    while i < |annotations|
      invariant 0 <= i <= |annotations|
      invariant ResourcePrefix(preUrl0, annotations, requestMapping) == ResourcePrefix(preUrl, annotations[i..], requestMapping)
    {
      var a := annotations[i];
      DropNext(annotations, i);
      if a.name == "RepositoryRestResource" {
        if requestMapping.Some? && requestMapping.value.Normal? {
          var pairs := requestMapping.value.pairs;
          var j := 0;
          while j < |pairs|
            invariant 0 <= j <= |pairs|
            invariant FirstPathText(pairs) == FirstPathText(pairs[j..])
          {
            assert pairs[j..][0] == pairs[j] && pairs[j..][1..] == pairs[j + 1..];
            if pairs[j].name == "path" {
              break;
            }
            j := j + 1;
          }
          if j < |pairs| {
            assert pairs[j..][0] == pairs[j];
            preUrl := preUrl + pairs[j].value.Text();
          } else {
            assert pairs[j..] == [];
            assert preUrl + "" == preUrl;
          }
        } else if requestMapping.Some? && requestMapping.value.SingleMember? {
          if !a.SingleMember? {
            return Throws("IllegalStateException");
          }
          return Done(preUrl + a.memberValue.Text());
        }
      }
      i := i + 1;
    }
    assert annotations[i..] == [];
    return Done(preUrl);
  }

  /** The text of the last `path` pair. */
  function LastPathText(pairs: seq<MemberValuePair>): Option<string>
    decreases |pairs|
  {
    if pairs == [] then None
    else if pairs[|pairs| - 1].name == "path" then Some(pairs[|pairs| - 1].value.Text())
    else LastPathText(pairs[..|pairs| - 1])
  }

  /** Some `exported` pair has the text `false`. */
  predicate NotExported(pairs: seq<MemberValuePair>) {
    exists i :: 0 <= i < |pairs| && pairs[i].name == "exported" && pairs[i].value.Text() == "false"
  }

  /** What one method of the endpoint loop leaves behind (the prefix, which
      carries over to the next method) and the endpoint it yields, if any.
      The annotations of the method are only counted: for each of them the
      pairs of the class-level normal `@RequestMapping` are scanned again. */
  function ResourceStep(preUrl: string, m: Method, requestMapping: Option<AnnotationExpr>): (string, Option<Method>) {
    if m.annotations != [] && requestMapping.Some? && requestMapping.value.Normal? then
      var pairs := requestMapping.value.pairs;
      var found := LastPathText(pairs).Some?;
      var pre := if found then LastPathText(pairs).value else preUrl;
      if NotExported(pairs) then (pre, None)
      else (pre, Some(NewEndpoint(m, pre + (if found then "/search" else "/search" + ("/" + m.name)), GET)))
    else (preUrl, Some(NewEndpoint(m, preUrl + ("/search" + ("/" + m.name)), GET)))
  }

  /** The endpoint loop folded over the methods: the final prefix and the
      endpoints, in order. */
  function ResourceFold(preUrl: string, ms: seq<Method>, requestMapping: Option<AnnotationExpr>): (string, seq<Method>)
    decreases |ms|
  {
    if ms == [] then (preUrl, [])
    else
      var (pre, eps) := ResourceFold(preUrl, ms[..|ms| - 1], requestMapping);
      var (pre2, e) := ResourceStep(pre, ms[|ms| - 1], requestMapping);
      (pre2, eps + (if e.Some? then [e.value] else []))
  }

  /** The scan of the class-level pairs, for one annotation of a method. */
  method ScanResourcePairs(pairs: seq<MemberValuePair>, preUrl0: string, found0: bool, exported0: bool)
    returns (preUrl: string, found: bool, exported: bool)
    ensures preUrl == (if LastPathText(pairs).Some? then LastPathText(pairs).value else preUrl0)
    ensures found == (found0 || LastPathText(pairs).Some?)
    ensures exported == (exported0 && !NotExported(pairs))
  {
    preUrl, found, exported := preUrl0, found0, exported0;
    var k := 0;
    while k < |pairs|
      invariant 0 <= k <= |pairs|
      invariant preUrl == (if LastPathText(pairs[..k]).Some? then LastPathText(pairs[..k]).value else preUrl0)
      invariant found == (found0 || LastPathText(pairs[..k]).Some?)
      invariant exported == (exported0 && !NotExported(pairs[..k]))
    {
      assert pairs[..k + 1][..k] == pairs[..k];
      assert NotExported(pairs[..k + 1]) <==>
        NotExported(pairs[..k]) || (pairs[k].name == "exported" && pairs[k].value.Text() == "false") by {
        assert forall i :: 0 <= i < k ==> pairs[..k + 1][i] == pairs[..k][i];
        if NotExported(pairs[..k + 1]) && !NotExported(pairs[..k]) {
          var i :| 0 <= i < k + 1 && pairs[..k + 1][i].name == "exported" && pairs[..k + 1][i].value.Text() == "false";
          assert i == k;
        }
        if pairs[k].name == "exported" && pairs[k].value.Text() == "false" {
          assert pairs[..k + 1][k] == pairs[k];
        }
      }
      if pairs[k].name == "path" {
        preUrl := pairs[k].value.Text();
        found := true;
      } else if pairs[k].name == "exported" {
        if pairs[k].value.Text() == "false" {
          exported := false;
        }
      }
      k := k + 1;
    }
    assert pairs[..|pairs|] == pairs;
  }

  lemma ResourceFoldStep(preUrl0: string, ms: seq<Method>, i: nat, requestMapping: Option<AnnotationExpr>)
    requires i < |ms|
    ensures var (pre, eps) := ResourceFold(preUrl0, ms[..i], requestMapping);
      var (pre2, e) := ResourceStep(pre, ms[i], requestMapping);
      ResourceFold(preUrl0, ms[..i + 1], requestMapping) == (pre2, eps + (if e.Some? then [e.value] else []))
  {
    assert ms[..i + 1][..i] == ms[..i];
  }

  /** The endpoint loop of `handleRepositoryRestResource`. */
  method ResourceEndpoints(preUrl0: string, methods: seq<Method>, requestMapping: Option<AnnotationExpr>)
    returns (preUrl: string, newEndpoints: seq<Method>)
    ensures preUrl == ResourceFold(preUrl0, methods, requestMapping).0
    ensures newEndpoints == Distinct(ResourceFold(preUrl0, methods, requestMapping).1)
  {
    preUrl := preUrl0;
    newEndpoints := [];
    var i := 0;
    while i < |methods|
      invariant 0 <= i <= |methods|
      invariant preUrl == ResourceFold(preUrl0, methods[..i], requestMapping).0
      invariant newEndpoints == Distinct(ResourceFold(preUrl0, methods[..i], requestMapping).1)
    {
      var m := methods[i];
      ResourceFoldStep(preUrl0, methods, i, requestMapping);
      ghost var before := ResourceFold(preUrl0, methods[..i], requestMapping).1;
      ghost var pre0 := preUrl;
      ghost var step := ResourceStep(pre0, m, requestMapping);
      ghost var normal := requestMapping.Some? && requestMapping.value.Normal?;
      var url := "/search";
      var found := false;
      var exported := true;
      var j := 0;
      while j < |m.annotations|
        invariant 0 <= j <= |m.annotations|
        invariant !(j > 0 && normal) ==> preUrl == pre0 && !found && exported
        invariant j > 0 && normal ==>
          preUrl == step.0 && found == LastPathText(requestMapping.value.pairs).Some? &&
          exported == !NotExported(requestMapping.value.pairs)
      {
        if requestMapping.Some? && requestMapping.value.Normal? {
          preUrl, found, exported := ScanResourcePairs(requestMapping.value.pairs, preUrl, found, exported);
        }
        j := j + 1;
      }
      if exported {
        if !found {
          url := url + ("/" + m.name);
        }
        var endpoint := NewEndpoint(m, preUrl + url, GET);
        assert step == (preUrl, Some(endpoint));
        DistinctSnoc(before, endpoint);
        newEndpoints := SetAdd(newEndpoints, endpoint);
      } else {
        assert step == (preUrl, None);
        assert before + [] == before;
      }
      i := i + 1;
    }
    assert methods[..|methods|] == methods;
  }

  /** Without a normal class-level `@RequestMapping`, every method becomes a
      GET endpoint at `prefix/search/name`. */
  lemma {:induction false} ResourceFoldPlain(preUrl: string, ms: seq<Method>, requestMapping: Option<AnnotationExpr>)
    requires !(requestMapping.Some? && requestMapping.value.Normal?)
    ensures ResourceFold(preUrl, ms, requestMapping).0 == preUrl
    ensures |ResourceFold(preUrl, ms, requestMapping).1| == |ms|
    ensures forall i :: 0 <= i < |ms| ==>
      ResourceFold(preUrl, ms, requestMapping).1[i] == NewEndpoint(ms[i], preUrl + "/search/" + ms[i].name, GET)
    decreases |ms|
  {
    if ms != [] {
      var n := |ms| - 1;
      ResourceFoldPlain(preUrl, ms[..n], requestMapping);
      assert preUrl + ("/search" + ("/" + ms[n].name)) == preUrl + "/search/" + ms[n].name;
    }
  }

  /** Every endpoint is a GET endpoint standing for one of the methods; with
      an `exported = false` pair, every annotated method is left out. */
  lemma {:induction false} ResourceFoldSpec(preUrl: string, ms: seq<Method>, requestMapping: Option<AnnotationExpr>)
    ensures forall e :: e in ResourceFold(preUrl, ms, requestMapping).1 ==>
      e.Endpoint? && e.httpMethod == GET && exists m :: m in ms && AsMethod(e) == AsMethod(m)
    ensures requestMapping.Some? && requestMapping.value.Normal? && NotExported(requestMapping.value.pairs) ==>
      forall e :: e in ResourceFold(preUrl, ms, requestMapping).1 ==> e.annotations == []
    decreases |ms|
  {
    if ms != [] {
      var n := |ms| - 1;
      ResourceFoldSpec(preUrl, ms[..n], requestMapping);
      var (pre, eps) := ResourceFold(preUrl, ms[..n], requestMapping);
      var (pre2, e) := ResourceStep(pre, ms[n], requestMapping);
      assert ResourceFold(preUrl, ms, requestMapping).1 == eps + (if e.Some? then [e.value] else []);
      assert forall m :: m in ms[..n] ==> m in ms;
      if e.Some? {
        assert AsMethod(e.value) == AsMethod(ms[n]);
        assert e.value.annotations == AsMethod(e.value).annotations;
      }
    }
  }

  /** The class `handleRepositoryRestResource` builds. */
  function RestResourceClass(ctx: Context, cu: CompilationUnit, requestMapping: Option<AnnotationExpr>,
                             classAnnotations: seq<AnnotationExpr>): (r: Outcome<JClass>)
    ensures r.Done? ==> Header(r.value, ctx) && r.value.classRole == REP_REST_RSC
  {
    var methods := ParsedMethods(ctx, cu.methods, requestMapping);
    match ResourcePrefix(DefaultResourcePrefix(ctx.className), classAnnotations, requestMapping)
    case Done(preUrl) =>
      (match ImplementedTypes(cu)
       case Done(ts) =>
         Done(JClass(ctx.className, ctx.path, ctx.packageName, REP_REST_RSC,
                     Distinct(ResourceFold(preUrl, methods, requestMapping).1),
                     ParsedFields(cu.fieldDecls, ctx.packageAndClassName),
                     ParseAnnotations(classAnnotations, ctx.packageAndClassName), [], ts))
       case Diverges => Diverges
       case Throws(e) => Throws(e))
    case Diverges => Diverges
    case Throws(e) => Throws(e)
  }

  /** `handleRepositoryRestResource`. */
  method HandleRepositoryRestResource(ctx: Context, cu: CompilationUnit, requestMapping: Option<AnnotationExpr>,
                                      classAnnotations: seq<AnnotationExpr>) returns (r: Outcome<JClass>)
    ensures r == RestResourceClass(ctx, cu, requestMapping, classAnnotations)
  {
    var methods := ParseMethods(ctx, cu.methods, requestMapping);
    var prefix := ClassResourcePrefix(DefaultResourcePrefix(ctx.className), classAnnotations, requestMapping);
    match prefix {
      case Diverges =>
        return Diverges;
      case Throws(e) =>
        return Throws(e);
      case Done(preUrl) =>
        var _, newEndpoints := ResourceEndpoints(preUrl, methods, requestMapping);
        var fields := ParseFields(ctx, cu.fieldDecls);
        var annotations := ParseAnnotations(classAnnotations, ctx.packageAndClassName);
        match ImplementedTypes(cu) {
          case Done(ts) =>
            r := Done(JClass(ctx.className, ctx.path, ctx.packageName, REP_REST_RSC, newEndpoints, fields,
                             annotations, [], ts));
          case Diverges =>
            r := Diverges;
          case Throws(e) =>
            r := Throws(e);
        }
    }
  }

  /** A repository REST resource makes no calls, and every method it keeps is
      a GET endpoint. */
  lemma RestResourceClassSpec(ctx: Context, cu: CompilationUnit, requestMapping: Option<AnnotationExpr>,
                              classAnnotations: seq<AnnotationExpr>)
    ensures var r := RestResourceClass(ctx, cu, requestMapping, classAnnotations);
      r.Done? ==> (r.value.classRole == REP_REST_RSC && r.value.methodCalls == [] &&
        forall m :: m in r.value.methods ==> m.Endpoint? && m.httpMethod == GET)
    ensures requestMapping.None? ==> (RestResourceClass(ctx, cu, requestMapping, classAnnotations).Done? <==>
      cu.implementedTypes.Some?)
  {
    var methods := ParsedMethods(ctx, cu.methods, requestMapping);
    var r := ResourcePrefix(DefaultResourcePrefix(ctx.className), classAnnotations, requestMapping);
    if r.Done? {
      ResourceFoldSpec(r.value, methods, requestMapping);
    }
    if requestMapping.None? {
      ResourcePrefixPlain(DefaultResourcePrefix(ctx.className), classAnnotations);
    }
  }

  lemma {:induction false} ResourcePrefixPlain(preUrl: string, annotations: seq<AnnotationExpr>)
    ensures ResourcePrefix(preUrl, annotations, None) == Done(preUrl)
    decreases |annotations|
  {
    if annotations != [] {
      ResourcePrefixPlain(preUrl, annotations[1..]);
    }
  }

  // ------------------------------------------------------------ parseClass

  /** A class built for a file carries the file's class name, path and package. */
  predicate Header(c: JClass, ctx: Context) {
    c.name == ctx.className && c.path == ctx.path && c.packageName == ctx.packageName
  }

  /** The first class annotation named `RequestMapping`. */
  function RequestMappingOf(annotations: seq<AnnotationExpr>): (r: Option<AnnotationExpr>)
    ensures r.Some? ==> r.value in annotations && r.value.name == "RequestMapping"
    ensures r.None? ==> forall a :: a in annotations ==> a.name != "RequestMapping"
  {
    if annotations == [] then None
    else if annotations[0].name == "RequestMapping" then Some(annotations[0])
    else RequestMappingOf(annotations[1..])
  }

  /** What `parseClass` returns for a file that parsed, given its local path:
      None for a configuration file or a class of unknown role. */
  function ClassOf(localPath: string, ctx: Context, cu: CompilationUnit): Outcome<Option<JClass>> {
    if FileUtils.IsConfigurationFile(localPath) then Done(None)
    else
      var classAnnotations := Distinct(cu.classAnnotations);
      var requestMapping := RequestMappingOf(classAnnotations);
      var role := ParseClassRole(classAnnotations);
      if role == UNKNOWN then Done(None)
      else if role == FEIGN_CLIENT then Found(FeignClientClass(ctx, cu, requestMapping, classAnnotations))
      else if role == REP_REST_RSC then Found(RestResourceClass(ctx, cu, requestMapping, classAnnotations))
      else Found(PlainClass(ctx, cu, role, requestMapping, classAnnotations, AllCalls(ctx, cu.methods, cu.fieldDecls)))
  }

  /** The class `parseClass` builds for the other roles. The method calls
      are parsed before the implemented types are looked up, so a failing
      call takes precedence. */
  function PlainClass(ctx: Context, cu: CompilationUnit, role: ClassRole, requestMapping: Option<AnnotationExpr>,
                      classAnnotations: seq<AnnotationExpr>, calls: Outcome<seq<MethodCall>>): (r: Outcome<JClass>)
    ensures r.Done? <==> calls.Done? && cu.implementedTypes.Some?
    ensures r.Done? ==> Header(r.value, ctx) && r.value.classRole == role && r.value.methodCalls == calls.value
  {
    match calls
    case Done(calls) =>
      (match ImplementedTypes(cu)
       case Done(ts) =>
         Done(JClass(ctx.className, ctx.path, ctx.packageName, role,
                     ParsedMethods(ctx, cu.methods, requestMapping),
                     ParsedFields(cu.fieldDecls, ctx.packageAndClassName),
                     ParseAnnotations(classAnnotations, ctx.packageAndClassName), calls, ts))
       case Diverges => Diverges
       case Throws(e) => Throws(e))
    case Diverges => Diverges
    case Throws(e) => Throws(e)
  }

  function Found(o: Outcome<JClass>): (r: Outcome<Option<JClass>>)
    ensures r.Done? <==> o.Done?
    ensures r.Done? ==> r.value == Some(o.value)
  {
    match o
    case Done(c) => Done(Some(c))
    case Diverges => Diverges
    case Throws(e) => Throws(e)
  }

  /** `parseClass` after the static values are set. */
  method ParseClass(localPath: string, ctx: Context, cu: CompilationUnit) returns (r: Outcome<Option<JClass>>)
    ensures r == ClassOf(localPath, ctx, cu)
  {
    if FileUtils.IsConfigurationFile(localPath) {
      return Done(None);
    }
    var classAnnotations := Distinct(cu.classAnnotations);
    var requestMapping := RequestMappingOf(classAnnotations);
    var role := ParseClassRole(classAnnotations);
    if role == UNKNOWN {
      return Done(None);
    }
    if role == FEIGN_CLIENT {
      var c := HandleFeignClient(ctx, cu, requestMapping, classAnnotations);
      return Found(c);
    } else if role == REP_REST_RSC {
      var c := HandleRepositoryRestResource(ctx, cu, requestMapping, classAnnotations);
      return Found(c);
    }
    var c := HandlePlainClass(ctx, cu, role, requestMapping, classAnnotations);
    return Found(c);
  }

  /** The `new JClass(...)` branch of `parseClass`. */
  method HandlePlainClass(ctx: Context, cu: CompilationUnit, role: ClassRole, requestMapping: Option<AnnotationExpr>,
                          classAnnotations: seq<AnnotationExpr>) returns (r: Outcome<JClass>)
    ensures r == PlainClass(ctx, cu, role, requestMapping, classAnnotations, AllCalls(ctx, cu.methods, cu.fieldDecls))
  {
    var methods := ParseMethods(ctx, cu.methods, requestMapping);
    var fields := ParseFields(ctx, cu.fieldDecls);
    var annotations := ParseAnnotations(classAnnotations, ctx.packageAndClassName);
    var calls := ParseMethodCalls(ctx, cu.methods, cu.fieldDecls);
    var types := ImplementedTypes(cu);
    if calls.Diverges? {
      r := Diverges;
    } else if calls.Throws? {
      r := Throws(calls.exception);
    } else if types.Done? {
      r := Done(JClass(ctx.className, ctx.path, ctx.packageName, role, methods, fields, annotations,
                       calls.value, types.value));
    } else {
      r := Throws(types.exception);
    }
  }

  /** Configuration files and classes without a role annotation give no
      class; a class that is built carries the file's name, path and package
      and the role of its first role annotation. */
  lemma ClassOfSpec(localPath: string, ctx: Context, cu: CompilationUnit)
    ensures FileUtils.IsConfigurationFile(localPath) ==> ClassOf(localPath, ctx, cu) == Done(None)
    ensures (forall a :: a in cu.classAnnotations ==> a.name !in ROLE_ANNOTATIONS) ==> ClassOf(localPath, ctx, cu) == Done(None)
    ensures var r := ClassOf(localPath, ctx, cu);
      r.Done? && r.value.Some? ==>
        Header(r.value.value, ctx) && r.value.value.classRole == ParseClassRole(Distinct(cu.classAnnotations)) != UNKNOWN
  {
    var anns := Distinct(cu.classAnnotations);
    if forall a :: a in cu.classAnnotations ==> a.name !in ROLE_ANNOTATIONS {
      assert forall i :: 0 <= i < |anns| ==> anns[i] in cu.classAnnotations;
      assert ParseClassRole(anns) == UNKNOWN;
    }
  }

  // ------------------------------------------------ configuration files

  /** The reader `parseConfigurationFile` hands a configuration file to. */
  datatype ConfigReader = YamlReader | DockerReader | PomReader | GradleReader

  /** `parseConfigurationFile`'s dispatch on the file name: `.yml` first,
      then the exact names `DockerFile`, `pom.xml` and `build.gradle`; any
      other name gives null. */
  function ConfigurationReader(fileName: string): (r: Option<ConfigReader>)
    ensures r == Some(YamlReader) <==> EndsWith(fileName, ".yml")
    ensures r == Some(DockerReader) <==> !EndsWith(fileName, ".yml") && fileName == "DockerFile"
    ensures r == Some(PomReader) <==> fileName == "pom.xml"
    ensures r == Some(GradleReader) <==> fileName == "build.gradle"
    ensures r.None? <==> !EndsWith(fileName, ".yml") && fileName !in {"DockerFile", "pom.xml", "build.gradle"}
  {
    if EndsWith(fileName, ".yml") then Some(YamlReader)
    else if fileName == "DockerFile" then Some(DockerReader)
    else if fileName == "pom.xml" then Some(PomReader)
    else if fileName == "build.gradle" then Some(GradleReader)
    else None
  }
}
