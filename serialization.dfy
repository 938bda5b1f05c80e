/**
 * The JSON form of the intermediate representation: what each
 * `toJsonObject` writes, how Gson's `JsonElement` accessors read it back,
 * and the three hand-written deserializers, which pick the variant of a
 * value from a discriminating key (`url` for methods and calls, `fileType`
 * for project files). Gson's reflective decoding of the remaining types is
 * modelled strictly: a member must have the shape the encoder writes.
 */
module Serialization {
  import opened Wrappers
  import opened Outcomes
  import opened Json
  import opened Ir

  // The exceptions the decoders can raise, by their Java class name.
  const NPE := "NullPointerException"
  const ISE := "IllegalStateException"
  const UOE := "UnsupportedOperationException"
  const IAE := "IllegalArgumentException"
  const JSE := "JsonSyntaxException"
  const JPE := "JsonParseException"

  // ------------------------------------------------------------ numbers

  function Digit(d: nat): char
    requires d < 10
  {
    "0123456789"[d]
  }

  function NatToString(n: nat): (r: string)
    ensures |r| >= 1
    decreases n
  {
    if n < 10 then [Digit(n)] else NatToString(n / 10) + [Digit(n % 10)]
  }

  /** The decimal text of an integer, as `Number.toString` writes it. */
  function IntToString(n: int): string {
    if n < 0 then "-" + NatToString(-n) else NatToString(n)
  }

  // --------------------------------------------------- JsonElement accessors

  /** `JsonElement.getAsString`: a primitive gives its text, a one-element
      array its element's, any other array throws IllegalStateException, and
      an object or null throws UnsupportedOperationException. */
  function GetAsString(j: Json): (r: Outcome<string>)
    ensures j.JStr? ==> r == Done(j.str)
    ensures (j.JObj? || j.JNull?) ==> r == Throws(UOE)
    ensures j.JArr? && |j.items| != 1 ==> r == Throws(ISE)
    ensures !r.Diverges?
    decreases j
  {
    match j
    case JStr(s) => Done(s)
    case JNum(n) => Done(IntToString(n))
    case JBool(b) => Done(if b then "true" else "false")
    case JArr(items) => if |items| == 1 then GetAsString(items[0]) else Throws(ISE)
    case JNull => Throws(UOE)
    case JObj(_) => Throws(UOE)
  }

  /** `json.get(key).getAsString()`: an absent member is a null reference. */
  function StringMember(o: Object, key: string): (r: Outcome<string>)
    ensures key !in o ==> r == Throws(NPE)
    ensures key in o && o[key].JStr? ==> r == Done(o[key].str)
  {
    if key in o then GetAsString(o[key]) else Throws(NPE)
  }

  /** `json.get(key).getAsJsonArray()`. */
  function ArrayMember(o: Object, key: string): (r: Outcome<seq<Json>>)
    ensures key !in o ==> r == Throws(NPE)
    ensures key in o && o[key].JArr? ==> r == Done(o[key].items)
    ensures key in o && !o[key].JArr? ==> r == Throws(ISE)
  {
    if key !in o then Throws(NPE)
    else match o[key]
      case JArr(items) => Done(items)
      case _ => Throws(ISE)
  }

  /** `json.getAsJsonObject()`. */
  function AsObject(j: Json): (r: Outcome<Object>)
    ensures j.JObj? <==> r.Done?
    ensures j.JObj? ==> r.value == j.members
    ensures !j.JObj? ==> r == Throws(ISE)
  {
    match j
    case JObj(m) => Done(m)
    case _ => Throws(ISE)
  }

  /** `Gson.fromJson` reports an IllegalStateException raised while reading
      as a JsonSyntaxException; every other outcome passes through. */
  function FromJson<T>(o: Outcome<T>): (r: Outcome<T>)
    ensures o == Throws(ISE) ==> r == Throws(JSE)
    ensures o != Throws(ISE) ==> r == o
  {
    if o == Throws(ISE) then Throws(JSE) else o
  }

  // -------------------------------------------------------------- enums

  function HttpMethodName(h: HttpMethod): string {
    match h
    case GET => "GET"
    case PUT => "PUT"
    case POST => "POST"
    case DELETE => "DELETE"
    case OPTIONS => "OPTIONS"
    case HEAD => "HEAD"
    case PATCH => "PATCH"
    case ALL => "ALL"
    case NONE => "NONE"
  }

  /** `HttpMethod.valueOf(name)`: any other name throws. */
  function ParseHttpMethod(s: string): (r: Outcome<HttpMethod>)
    ensures r.Done? ==> HttpMethodName(r.value) == s
    ensures r.Done? || r == Throws(IAE)
  {
    match s
    case "GET" => Done(GET)
    case "PUT" => Done(PUT)
    case "POST" => Done(POST)
    case "DELETE" => Done(DELETE)
    case "OPTIONS" => Done(OPTIONS)
    case "HEAD" => Done(HEAD)
    case "PATCH" => Done(PATCH)
    case "ALL" => Done(ALL)
    case "NONE" => Done(NONE)
    case _ => Throws(IAE)
  }

  /** `valueOf` reads back every `name()`. */
  lemma HttpMethodNameRoundTrip(h: HttpMethod)
    ensures ParseHttpMethod(HttpMethodName(h)) == Done(h)
  {
  }

  function ClassRoleName(c: ClassRole): string {
    match c
    case CONTROLLER => "CONTROLLER"
    case SERVICE => "SERVICE"
    case REPOSITORY => "REPOSITORY"
    case ENTITY => "ENTITY"
    case REP_REST_RSC => "REP_REST_RSC"
    case FEIGN_CLIENT => "FEIGN_CLIENT"
    case UNKNOWN => "UNKNOWN"
  }

  function ParseClassRole(s: string): (r: Option<ClassRole>)
    ensures r.Some? ==> ClassRoleName(r.value) == s
  {
    match s
    case "CONTROLLER" => Some(CONTROLLER)
    case "SERVICE" => Some(SERVICE)
    case "REPOSITORY" => Some(REPOSITORY)
    case "ENTITY" => Some(ENTITY)
    case "REP_REST_RSC" => Some(REP_REST_RSC)
    case "FEIGN_CLIENT" => Some(FEIGN_CLIENT)
    case "UNKNOWN" => Some(UNKNOWN)
    case _ => None
  }

  function FileTypeName(t: FileType): string {
    match t
    case JCLASS => "JCLASS"
    case CONFIG => "CONFIG"
    case POM => "POM"
  }

  function ParseFileType(s: string): (r: Option<FileType>)
    ensures r.Some? ==> FileTypeName(r.value) == s
  {
    match s
    case "JCLASS" => Some(JCLASS)
    case "CONFIG" => Some(CONFIG)
    case "POM" => Some(POM)
    case _ => None
  }

  // --------------------------------------------------------- collections

  /** `JsonSerializable.toJsonArray`: each element's JSON, in iteration order. */
  function ToJsonArray<T>(xs: seq<T>, encode: T -> Json): (r: seq<Json>)
    ensures |r| == |xs| && forall i :: 0 <= i < |xs| ==> r[i] == encode(xs[i])
    decreases |xs|
  {
    if xs == [] then [] else ToJsonArray(xs[..|xs| - 1], encode) + [encode(xs[|xs| - 1])]
  }

  /** Decoding a JSON array into a `HashSet`: each element in turn, added
      unless an equal one is there; the first failure ends the loop. */
  function CollectSet<T(==,!new)>(items: seq<Json>, decode: Json -> Outcome<T>): Outcome<seq<T>>
    decreases |items|
  {
    if items == [] then Done([])
    else
      var acc :- CollectSet(items[..|items| - 1], decode);
      var x :- decode(items[|items| - 1]);
      Done(SetAdd(acc, x))
  }

  /** Decoding a JSON array into a `List`. */
  function CollectList<T>(items: seq<Json>, decode: Json -> Outcome<T>): Outcome<seq<T>>
    decreases |items|
  {
    if items == [] then Done([])
    else
      var acc :- CollectList(items[..|items| - 1], decode);
      var x :- decode(items[|items| - 1]);
      Done(acc + [x])
  }

  /** A set written out and read back is the same set, in the same order. */
  lemma {:induction false} CollectSetRoundTrip<T(!new)>(xs: seq<T>, encode: T -> Json, decode: Json -> Outcome<T>)
    requires forall x :: x in xs ==> decode(encode(x)) == Done(x)
    ensures CollectSet(ToJsonArray(xs, encode), decode) == Done(Distinct(xs))
    decreases |xs|
  {
    if xs != [] {
      var n := |xs| - 1;
      var items := ToJsonArray(xs, encode);
      assert items[..n] == ToJsonArray(xs[..n], encode);
      assert xs[n] in xs;
      CollectSetRoundTrip(xs[..n], encode, decode);
      SplitLast(xs);
      DistinctSnoc(xs[..n], xs[n]);
    }
  }

  lemma {:induction false} CollectListRoundTrip<T>(xs: seq<T>, encode: T -> Json, decode: Json -> Outcome<T>)
    requires forall x :: x in xs ==> decode(encode(x)) == Done(x)
    ensures CollectList(ToJsonArray(xs, encode), decode) == Done(xs)
    decreases |xs|
  {
    if xs != [] {
      var n := |xs| - 1;
      var items := ToJsonArray(xs, encode);
      assert items[..n] == ToJsonArray(xs[..n], encode);
      assert xs[n] in xs;
      CollectListRoundTrip(xs[..n], encode, decode);
      SplitLast(xs);
    }
  }

  // --------------------------------------- Gson's reflective field decoding

  /** A String field: Gson reads a string, and also the text of a number or
      a boolean. */
  function GsonString(j: Json): (r: Outcome<string>)
    ensures j.JStr? ==> r == Done(j.str)
    ensures (j.JArr? || j.JObj?) ==> r == Throws(JSE)
  {
    match j
    case JStr(s) => Done(s)
    case JNum(n) => Done(IntToString(n))
    case JBool(b) => Done(if b then "true" else "false")
    case _ => Throws(JSE)
  }

  function GsonStringMember(o: Object, key: string): (r: Outcome<string>)
    ensures key in o && o[key].JStr? ==> r == Done(o[key].str)
  {
    if key in o then GsonString(o[key]) else Throws(JSE)
  }

  function GsonArrayMember(o: Object, key: string): (r: Outcome<seq<Json>>)
    ensures key in o && o[key].JArr? ==> r == Done(o[key].items)
  {
    if key in o && o[key].JArr? then Done(o[key].items) else Throws(JSE)
  }

  /** A `Map<String, String>` field. */
  function GsonStringMap(j: Json): (r: Outcome<map<string, string>>)
    ensures j.JObj? && (forall k :: k in j.members ==> j.members[k].JStr?) ==>
      r == Done(map k | k in j.members :: j.members[k].str)
  {
    if j.JObj? && forall k :: k in j.members ==> j.members[k].JStr? then
      Done(map k | k in j.members :: j.members[k].str)
    else Throws(JSE)
  }

  // ---------------------------------------------------------- annotations

  /** The object `Annotation.toJsonObject` writes, over the members' values. */
  function AnnotationObject(name: Json, pkg: Json, attributes: Json): (r: Object)
    ensures r.Keys == {"name", "packageAndClassName", "attributes"}
    ensures r["name"] == name && r["packageAndClassName"] == pkg && r["attributes"] == attributes
  {
    map["name" := name, "packageAndClassName" := pkg, "attributes" := attributes]
  }

  /** `Annotation.toJsonObject`. */
  function AnnotationToJson(a: Annotation): (r: Json)
    ensures r.JObj? && r.members.Keys == {"name", "packageAndClassName", "attributes"}
  {
    JObj(AnnotationObject(JStr(a.name), JStr(a.packageAndClassName), JObj(StringMap(a.attributes))))
  }

  /** Gson's reflective decoding of an Annotation. */
  function DecodeAnnotation(j: Json): Outcome<Annotation> {
    if !j.JObj? then Throws(JSE)
    else
      var name :- GsonStringMember(j.members, "name");
      var pkg :- GsonStringMember(j.members, "packageAndClassName");
      var attributes :- if "attributes" in j.members then GsonStringMap(j.members["attributes"]) else Throws(JSE);
      Done(Annotation(name, pkg, attributes))
  }

  lemma AnnotationRoundTrip(a: Annotation)
    ensures DecodeAnnotation(AnnotationToJson(a)) == Done(a)
  {
    var attrs := JObj(StringMap(a.attributes));
    assert (map k | k in attrs.members :: attrs.members[k].str) == a.attributes;
  }

  /** A set of annotations written out and read back. */
  lemma AnnotationsRoundTrip(xs: seq<Annotation>)
    requires NoDuplicates(xs)
    ensures CollectSet(ToJsonArray(xs, AnnotationToJson), DecodeAnnotation) == Done(xs)
  {
    forall a | a in xs ensures DecodeAnnotation(AnnotationToJson(a)) == Done(a) {
      AnnotationRoundTrip(a);
    }
    CollectSetRoundTrip(xs, AnnotationToJson, DecodeAnnotation);
  }

  // ----------------------------------------------------------- parameters

  function ParameterObject(name: Json, pkg: Json, paramType: Json, annotations: Json): (r: Object)
    ensures r.Keys == {"name", "packageAndClassName", "type", "annotations"}
    ensures r["name"] == name && r["packageAndClassName"] == pkg && r["type"] == paramType
    ensures r["annotations"] == annotations
  {
    map["name" := name, "packageAndClassName" := pkg, "type" := paramType, "annotations" := annotations]
  }

  /** `Parameter.toJsonObject`. */
  function ParameterToJson(p: Parameter): (r: Json)
    ensures r.JObj? && r.members.Keys == {"name", "packageAndClassName", "type", "annotations"}
  {
    JObj(ParameterObject(JStr(p.name), JStr(p.packageAndClassName), JStr(p.paramType),
                         JArr(ToJsonArray(p.annotations, AnnotationToJson))))
  }

  /** Gson's reflective decoding of a Parameter; its annotations form a set. */
  function DecodeParameter(j: Json): Outcome<Parameter> {
    if !j.JObj? then Throws(JSE)
    else
      var name :- GsonStringMember(j.members, "name");
      var pkg :- GsonStringMember(j.members, "packageAndClassName");
      var paramType :- GsonStringMember(j.members, "type");
      var items :- GsonArrayMember(j.members, "annotations");
      var annotations :- CollectSet(items, DecodeAnnotation);
      Done(Parameter(name, pkg, paramType, annotations))
  }

  lemma ParameterRoundTrip(p: Parameter)
    requires NoDuplicates(p.annotations)
    ensures DecodeParameter(ParameterToJson(p)) == Done(p)
  {
    AnnotationsRoundTrip(p.annotations);
  }

  lemma ParametersRoundTrip(xs: seq<Parameter>)
    requires NoDuplicates(xs) && forall p :: p in xs ==> NoDuplicates(p.annotations)
    ensures CollectSet(ToJsonArray(xs, ParameterToJson), DecodeParameter) == Done(xs)
  {
    forall p | p in xs ensures DecodeParameter(ParameterToJson(p)) == Done(p) {
      ParameterRoundTrip(p);
    }
    CollectSetRoundTrip(xs, ParameterToJson, DecodeParameter);
  }

  // --------------------------------------------------------------- fields

  function FieldObject(name: Json, pkg: Json, fieldType: Json): (r: Object)
    ensures r.Keys == {"name", "packageAndClassName", "type"}
    ensures r["name"] == name && r["packageAndClassName"] == pkg && r["type"] == fieldType
  {
    map["name" := name, "packageAndClassName" := pkg, "type" := fieldType]
  }

  /** `Field.toJsonObject`. */
  function FieldToJson(f: Field): (r: Json)
    ensures r.JObj? && r.members.Keys == {"name", "packageAndClassName", "type"}
  {
    JObj(FieldObject(JStr(f.name), JStr(f.packageAndClassName), JStr(f.fieldType)))
  }

  function DecodeField(j: Json): Outcome<Field> {
    if !j.JObj? then Throws(JSE)
    else
      var name :- GsonStringMember(j.members, "name");
      var pkg :- GsonStringMember(j.members, "packageAndClassName");
      var fieldType :- GsonStringMember(j.members, "type");
      Done(Field(name, pkg, fieldType))
  }

  lemma FieldRoundTrip(f: Field)
    ensures DecodeField(FieldToJson(f)) == Done(f)
  {
  }

  lemma FieldsRoundTrip(xs: seq<Field>)
    requires NoDuplicates(xs)
    ensures CollectSet(ToJsonArray(xs, FieldToJson), DecodeField) == Done(xs)
  {
    forall f | f in xs ensures DecodeField(FieldToJson(f)) == Done(f) {
      FieldRoundTrip(f);
    }
    CollectSetRoundTrip(xs, FieldToJson, DecodeField);
  }

  // -------------------------------------------------------------- methods

  /** The seven members `Method.toJsonObject` writes. */
  function MethodObject(name: Json, pkg: Json, annotations: Json, parameters: Json, returnType: Json,
                        microserviceName: Json, className: Json): (r: Object)
    ensures r.Keys == {"name", "packageAndClassName", "annotations", "parameters", "returnType", "microserviceName",
                       "className"}
    ensures "url" !in r
    ensures r["name"] == name && r["packageAndClassName"] == pkg && r["annotations"] == annotations
    ensures r["parameters"] == parameters && r["returnType"] == returnType
    ensures r["microserviceName"] == microserviceName && r["className"] == className
  {
    map["name" := name, "packageAndClassName" := pkg, "annotations" := annotations, "parameters" := parameters,
        "returnType" := returnType, "microserviceName" := microserviceName, "className" := className]
  }

  /** The nine members `Endpoint.toJsonObject` writes: the method's, the URL
      and the verb. */
  function EndpointObject(name: Json, pkg: Json, annotations: Json, parameters: Json, returnType: Json,
                          microserviceName: Json, className: Json, url: Json, verb: Json): (r: Object)
    ensures r.Keys == {"name", "packageAndClassName", "annotations", "parameters", "returnType", "microserviceName",
                       "className", "url", "httpMethod"}
    ensures "url" in r
    ensures r["name"] == name && r["packageAndClassName"] == pkg && r["annotations"] == annotations
    ensures r["parameters"] == parameters && r["returnType"] == returnType
    ensures r["microserviceName"] == microserviceName && r["className"] == className
    ensures r["url"] == url && r["httpMethod"] == verb
  {
    map["name" := name, "packageAndClassName" := pkg, "annotations" := annotations, "parameters" := parameters,
        "returnType" := returnType, "microserviceName" := microserviceName, "className" := className,
        "url" := url, "httpMethod" := verb]
  }

  /** `Method.toJsonObject`, and `Endpoint.toJsonObject`, which adds the URL
      and the verb's name. */
  function MethodToJson(m: Method): (r: Json)
    ensures r.JObj?
    ensures "url" in r.members <==> m.Endpoint?
  {
    var name := JStr(m.name);
    var pkg := JStr(m.packageAndClassName);
    var annotations := JArr(ToJsonArray(m.annotations, AnnotationToJson));
    var parameters := JArr(ToJsonArray(m.parameters, ParameterToJson));
    match m
    case Method(_, _, _, _, _, _, _) =>
      JObj(MethodObject(name, pkg, annotations, parameters, JStr(m.returnType), JStr(m.microserviceName),
                        JStr(m.className)))
    case Endpoint(_, _, _, _, _, _, _, url, verb) =>
      JObj(EndpointObject(name, pkg, annotations, parameters, JStr(m.returnType), JStr(m.microserviceName),
                          JStr(m.className), JStr(url), JStr(HttpMethodName(verb))))
  }

  /** `jsonToMethod`: the members in the order the deserializer reads them;
      annotations and parameters are collected into sets. */
  function JsonToMethod(o: Object): (r: Outcome<Method>)
    ensures r.Done? ==> r.value.Method?
  {
    var name :- StringMember(o, "name");
    var returnType :- StringMember(o, "returnType");
    var annotationItems :- ArrayMember(o, "annotations");
    var annotations :- FromJson(CollectSet(annotationItems, DecodeAnnotation));
    var parameterItems :- ArrayMember(o, "parameters");
    var parameters :- FromJson(CollectSet(parameterItems, DecodeParameter));
    var pkg :- StringMember(o, "packageAndClassName");
    var microserviceName :- StringMember(o, "microserviceName");
    var className :- StringMember(o, "className");
    Done(Method(name, pkg, parameters, returnType, annotations, microserviceName, className))
  }

  /** `jsonToEndpoint`: the plain method, then the URL and the verb. */
  function JsonToEndpoint(o: Object): (r: Outcome<Method>)
    ensures r.Done? ==> r.value.Endpoint?
  {
    var m :- JsonToMethod(o);
    var url :- StringMember(o, "url");
    var verbName :- StringMember(o, "httpMethod");
    var verb :- ParseHttpMethod(verbName);
    Done(NewEndpoint(m, url, verb))
  }

  /** `MethodDeserializer.deserialize`: an object with a `url` member is an
      Endpoint, any other object a plain Method. */
  function DeserializeMethod(j: Json): (r: Outcome<Method>)
    ensures !j.JObj? ==> r == Throws(ISE)
    ensures r.Done? ==> j.JObj? && (r.value.Endpoint? <==> "url" in j.members)
  {
    var o :- AsObject(j);
    if "url" in o then JsonToEndpoint(o) else JsonToMethod(o)
  }

  /** What a Method's sets being sets means for its JSON: no duplicate among
      its annotations, its parameters, or a parameter's annotations. */
  predicate MethodSets(m: Method) {
    NoDuplicates(m.annotations) && NoDuplicates(m.parameters) &&
    forall p :: p in m.parameters ==> NoDuplicates(p.annotations)
  }

  /** `jsonToMethod` on an object whose members read as given. */
  lemma JsonToMethodReads(o: Object, m: Method, annotationItems: seq<Json>, parameterItems: seq<Json>)
    requires StringMember(o, "name") == Done(m.name) && StringMember(o, "returnType") == Done(m.returnType)
    requires ArrayMember(o, "annotations") == Done(annotationItems)
    requires CollectSet(annotationItems, DecodeAnnotation) == Done(m.annotations)
    requires ArrayMember(o, "parameters") == Done(parameterItems)
    requires CollectSet(parameterItems, DecodeParameter) == Done(m.parameters)
    requires StringMember(o, "packageAndClassName") == Done(m.packageAndClassName)
    requires StringMember(o, "microserviceName") == Done(m.microserviceName)
    requires StringMember(o, "className") == Done(m.className)
    ensures JsonToMethod(o) == Done(AsMethod(m))
  {
  }

  lemma PlainMethodRoundTrip(m: Method)
    requires MethodSets(m)
    ensures JsonToMethod(MethodToJson(m).members) == Done(AsMethod(m))
  {
    AnnotationsRoundTrip(m.annotations);
    ParametersRoundTrip(m.parameters);
    var o := MethodToJson(m).members;
    assert StringMember(o, "name") == Done(m.name);
    assert StringMember(o, "returnType") == Done(m.returnType);
    assert StringMember(o, "packageAndClassName") == Done(m.packageAndClassName);
    assert StringMember(o, "microserviceName") == Done(m.microserviceName);
    assert StringMember(o, "className") == Done(m.className);
    var annotationItems := ToJsonArray(m.annotations, AnnotationToJson);
    var parameterItems := ToJsonArray(m.parameters, ParameterToJson);
    assert ArrayMember(o, "annotations") == Done(annotationItems);
    assert ArrayMember(o, "parameters") == Done(parameterItems);
    JsonToMethodReads(o, m, annotationItems, parameterItems);
  }

  /** Deserializing what `toJsonObject` wrote gives back the same variant
      with the same fields. */
  lemma MethodRoundTrip(m: Method)
    requires MethodSets(m)
    ensures DeserializeMethod(MethodToJson(m)) == Done(m)
  {
    PlainMethodRoundTrip(m);
    if m.Endpoint? {
      HttpMethodNameRoundTrip(m.httpMethod);
    }
  }

  lemma MethodsRoundTrip(xs: seq<Method>)
    requires NoDuplicates(xs) && forall m :: m in xs ==> MethodSets(m)
    ensures CollectSet(ToJsonArray(xs, MethodToJson), DeserializeMethod) == Done(xs)
  {
    forall m | m in xs ensures DeserializeMethod(MethodToJson(m)) == Done(m) {
      MethodRoundTrip(m);
    }
    CollectSetRoundTrip(xs, MethodToJson, DeserializeMethod);
  }

  // --------------------------------------------------------- method calls

  /** The eight members `MethodCall.toJsonObject` writes. */
  function MethodCallObject(name: Json, pkg: Json, objectName: Json, calledFrom: Json, objectType: Json,
                            parameterContents: Json, microserviceName: Json, className: Json): (r: Object)
    ensures r.Keys == {"name", "packageAndClassName", "objectName", "calledFrom", "objectType", "parameterContents",
                       "microserviceName", "className"}
    ensures r["name"] == name && r["packageAndClassName"] == pkg && r["objectName"] == objectName
    ensures r["calledFrom"] == calledFrom && r["objectType"] == objectType
    ensures r["parameterContents"] == parameterContents
    ensures r["microserviceName"] == microserviceName && r["className"] == className
  {
    map["name" := name, "packageAndClassName" := pkg, "objectName" := objectName, "calledFrom" := calledFrom,
        "objectType" := objectType, "parameterContents" := parameterContents,
        "microserviceName" := microserviceName, "className" := className]
  }

  /** The ten members `RestCall.toJsonObject` writes. */
  function RestCallObject(name: Json, pkg: Json, objectName: Json, calledFrom: Json, objectType: Json,
                          parameterContents: Json, microserviceName: Json, className: Json, url: Json,
                          verb: Json): (r: Object)
    ensures r.Keys == {"name", "packageAndClassName", "objectName", "calledFrom", "objectType", "parameterContents",
                       "microserviceName", "className", "url", "httpMethod"}
    ensures r["name"] == name && r["packageAndClassName"] == pkg && r["objectName"] == objectName
    ensures r["calledFrom"] == calledFrom && r["objectType"] == objectType
    ensures r["parameterContents"] == parameterContents
    ensures r["microserviceName"] == microserviceName && r["className"] == className
    ensures r["url"] == url && r["httpMethod"] == verb
  {
    map["name" := name, "packageAndClassName" := pkg, "objectName" := objectName, "calledFrom" := calledFrom,
        "objectType" := objectType, "parameterContents" := parameterContents,
        "microserviceName" := microserviceName, "className" := className, "url" := url, "httpMethod" := verb]
  }

  /** `MethodCall.toJsonObject` and `RestCall.toJsonObject`. */
  function MethodCallToJson(c: MethodCall): (r: Json)
    ensures r.JObj?
    ensures "url" in r.members <==> c.RestCall?
  {
    match c
    case MethodCall(_, _, _, _, _, _, _, _) =>
      JObj(MethodCallObject(JStr(c.name), JStr(c.packageAndClassName), JStr(c.objectName), JStr(c.calledFrom),
                            JStr(c.objectType), JStr(c.parameterContents), JStr(c.microserviceName),
                            JStr(c.className)))
    case RestCall(_, _, _, _, _, _, _, _, url, verb) =>
      JObj(RestCallObject(JStr(c.name), JStr(c.packageAndClassName), JStr(c.objectName), JStr(c.calledFrom),
                          JStr(c.objectType), JStr(c.parameterContents), JStr(c.microserviceName),
                          JStr(c.className), JStr(url), JStr(HttpMethodName(verb))))
  }

  /** `jsonToMethodCall`. */
  function JsonToMethodCall(o: Object): (r: Outcome<MethodCall>)
    ensures r.Done? ==> r.value.MethodCall?
  {
    var name :- StringMember(o, "name");
    var calledFrom :- StringMember(o, "calledFrom");
    var objectName :- StringMember(o, "objectName");
    var parameterContents :- StringMember(o, "parameterContents");
    var pkg :- StringMember(o, "packageAndClassName");
    var objectType :- StringMember(o, "objectType");
    var microserviceName :- StringMember(o, "microserviceName");
    var className :- StringMember(o, "className");
    Done(MethodCall(name, pkg, objectType, objectName, calledFrom, parameterContents, microserviceName, className))
  }

  /** `jsonToRestCall`. */
  function JsonToRestCall(o: Object): (r: Outcome<MethodCall>)
    ensures r.Done? ==> r.value.RestCall?
  {
    var c :- JsonToMethodCall(o);
    var url :- StringMember(o, "url");
    var verbName :- StringMember(o, "httpMethod");
    var verb :- ParseHttpMethod(verbName);
    Done(NewRestCall(c, url, verb))
  }

  /** `MethodCallDeserializer.deserialize`: a `url` member makes a RestCall. */
  function DeserializeMethodCall(j: Json): (r: Outcome<MethodCall>)
    ensures !j.JObj? ==> r == Throws(ISE)
    ensures r.Done? ==> j.JObj? && (r.value.RestCall? <==> "url" in j.members)
  {
    var o :- AsObject(j);
    if "url" in o then JsonToRestCall(o) else JsonToMethodCall(o)
  }

  lemma MethodCallRoundTrip(c: MethodCall)
    ensures DeserializeMethodCall(MethodCallToJson(c)) == Done(c)
  {
    if c.RestCall? {
      HttpMethodNameRoundTrip(c.httpMethod);
    }
  }

  lemma MethodCallsRoundTrip(xs: seq<MethodCall>)
    ensures CollectList(ToJsonArray(xs, MethodCallToJson), DeserializeMethodCall) == Done(xs)
  {
    forall x | x in xs ensures DeserializeMethodCall(MethodCallToJson(x)) == Done(x) {
      MethodCallRoundTrip(x);
    }
    CollectListRoundTrip(xs, MethodCallToJson, DeserializeMethodCall);
  }

  // ------------------------------------------------------- project files

  /** The ten members `JClass.toJsonObject` writes: the ProjectFile members,
      then the class's own. */
  function ClassObject(name: Json, path: Json, fileType: Json, packageName: Json, classRole: Json,
                       annotations: Json, fields: Json, methods: Json, methodCalls: Json,
                       implementedTypes: Json): (r: Object)
    ensures r.Keys == {"name", "path", "fileType", "packageName", "classRole", "annotations", "fields", "methods",
                       "methodCalls", "implementedTypes"}
    ensures r["name"] == name && r["path"] == path && r["fileType"] == fileType
    ensures r["packageName"] == packageName && r["classRole"] == classRole
    ensures r["annotations"] == annotations && r["fields"] == fields && r["methods"] == methods
    ensures r["methodCalls"] == methodCalls && r["implementedTypes"] == implementedTypes
  {
    map["name" := name, "path" := path, "fileType" := fileType, "packageName" := packageName,
        "classRole" := classRole, "annotations" := annotations, "fields" := fields, "methods" := methods,
        "methodCalls" := methodCalls, "implementedTypes" := implementedTypes]
  }

  /** `JClass.toJsonObject`. */
  function JClassToJson(c: JClass): (r: Json)
    ensures r.JObj? && r.members.Keys ==
      {"name", "path", "fileType", "packageName", "classRole", "annotations", "fields", "methods", "methodCalls",
       "implementedTypes"}
    ensures r.members["fileType"] == JStr("JCLASS")
  {
    JObj(ClassObject(JStr(c.name), JStr(c.path), JStr(FileTypeName(JCLASS)), JStr(c.packageName),
                     JStr(ClassRoleName(c.classRole)), JArr(ToJsonArray(c.annotations, AnnotationToJson)),
                     JArr(ToJsonArray(c.fields, FieldToJson)), JArr(ToJsonArray(c.methods, MethodToJson)),
                     JArr(ToJsonArray(c.methodCalls, MethodCallToJson)), JArr(Strings(c.implementedTypes))))
  }

  function ConfigObject(name: Json, path: Json, fileType: Json, data: Json): (r: Object)
    ensures r.Keys == {"name", "path", "fileType", "data"}
    ensures r["name"] == name && r["path"] == path && r["fileType"] == fileType && r["data"] == data
  {
    map["name" := name, "path" := path, "fileType" := fileType, "data" := data]
  }

  /** `ConfigFile.toJsonObject`. */
  function ConfigFileToJson(f: ConfigFile): (r: Json)
    ensures r.JObj? && r.members.Keys == {"name", "path", "fileType", "data"}
    ensures r.members["fileType"] == JStr(FileTypeName(f.fileType))
  {
    JObj(ConfigObject(JStr(f.name), JStr(f.path), JStr(FileTypeName(f.fileType)), JObj(f.data)))
  }

  /** `toJsonObject` of a project file: its variant's encoder. */
  function ProjectFileToJson(f: ProjectFile): (r: Json)
    ensures r.JObj? && "fileType" in r.members
    ensures f.ClassFile? ==> r.members["fileType"] == JStr("JCLASS")
    ensures f.ConfigEntry? ==> r.members["fileType"] == JStr(FileTypeName(f.config.fileType))
  {
    match f
    case ClassFile(c) => JClassToJson(c)
    case ConfigEntry(g) => ConfigFileToJson(g)
  }

  /** The collections of a JClass, decoded in the order of its fields;
      methods and calls go through the two custom deserializers, and every
      collection but the list of calls is a set. */
  function DecodeClassBody(o: Object, name: string, path: string, packageName: string, role: ClassRole): Outcome<JClass> {
    var annotationItems :- GsonArrayMember(o, "annotations");
    var annotations :- CollectSet(annotationItems, DecodeAnnotation);
    var fieldItems :- GsonArrayMember(o, "fields");
    var fields :- CollectSet(fieldItems, DecodeField);
    var methodItems :- GsonArrayMember(o, "methods");
    var methods :- CollectSet(methodItems, DeserializeMethod);
    var callItems :- GsonArrayMember(o, "methodCalls");
    var calls :- CollectList(callItems, DeserializeMethodCall);
    var typeItems :- GsonArrayMember(o, "implementedTypes");
    var types :- CollectSet(typeItems, GsonString);
    Done(JClass(name, path, packageName, role, methods, fields, annotations, calls, types))
  }

  /** Gson's reflective decoding of a JClass. */
  function DecodeJClass(o: Object): Outcome<JClass> {
    var name :- GsonStringMember(o, "name");
    var path :- GsonStringMember(o, "path");
    var packageName :- GsonStringMember(o, "packageName");
    var roleName :- GsonStringMember(o, "classRole");
    var role :- match ParseClassRole(roleName) case Some(r) => Done(r) case None => Throws(JSE);
    DecodeClassBody(o, name, path, packageName, role)
  }

  /** Gson's reflective decoding of a ConfigFile: the type is read as
      written, and `data` must be an object. */
  function DecodeConfigFile(o: Object): Outcome<ConfigFile> {
    var name :- GsonStringMember(o, "name");
    var path :- GsonStringMember(o, "path");
    var typeName :- GsonStringMember(o, "fileType");
    var fileType :- match ParseFileType(typeName) case Some(t) => Done(t) case None => Throws(JSE);
    var data :- if "data" in o && o["data"].JObj? then Done(o["data"].members) else Throws(JSE);
    Done(ConfigFile(path, name, data, fileType))
  }

  /** `ProjectFileDeserializer.deserialize`: `fileType` JCLASS is a JClass,
      POM or CONFIG a ConfigFile, anything else a JsonParseException. */
  function DeserializeProjectFile(j: Json): (r: Outcome<ProjectFile>)
    ensures !j.JObj? ==> r == Throws(ISE)
    ensures j.JObj? && "fileType" !in j.members ==> r == Throws(NPE)
    ensures j.JObj? && "fileType" in j.members && j.members["fileType"].JStr? ==>
      var t := j.members["fileType"].str;
      (t != "JCLASS" && t != "POM" && t != "CONFIG" ==> r == Throws(JPE)) &&
      (r.Done? && t == "JCLASS" ==> r.value.ClassFile?) &&
      (r.Done? && (t == "POM" || t == "CONFIG") ==> r.value.ConfigEntry?)
  {
    var o :- AsObject(j);
    var t :- StringMember(o, "fileType");
    if t == "JCLASS" then
      var c :- FromJson(DecodeJClass(o));
      Done(ClassFile(c))
    else if t == "POM" || t == "CONFIG" then
      var f :- FromJson(DecodeConfigFile(o));
      Done(ConfigEntry(f))
    else Throws(JPE)
  }

  /** What a class's sets being sets means for its JSON. */
  predicate JClassSets(c: JClass) {
    NoDuplicates(c.annotations) && NoDuplicates(c.fields) && NoDuplicates(c.methods) &&
    NoDuplicates(c.implementedTypes) && forall m :: m in c.methods ==> MethodSets(m)
  }

  lemma StringsRoundTrip(xs: seq<string>)
    ensures CollectSet(Strings(xs), GsonString) == Done(Distinct(xs))
  {
    var encode := (s: string) => JStr(s);
    assert Strings(xs) == ToJsonArray(xs, encode);
    CollectSetRoundTrip(xs, encode, GsonString);
  }

  lemma ClassRoleNameRoundTrip(role: ClassRole)
    ensures ParseClassRole(ClassRoleName(role)) == Some(role)
  {
  }

  /** The collections of an object whose members read as given. */
  lemma DecodeClassBodyReads(o: Object, c: JClass, annotations: seq<Json>, fields: seq<Json>, methods: seq<Json>,
                             calls: seq<Json>, types: seq<Json>)
    requires GsonArrayMember(o, "annotations") == Done(annotations)
    requires CollectSet(annotations, DecodeAnnotation) == Done(c.annotations)
    requires GsonArrayMember(o, "fields") == Done(fields) && CollectSet(fields, DecodeField) == Done(c.fields)
    requires GsonArrayMember(o, "methods") == Done(methods) && CollectSet(methods, DeserializeMethod) == Done(c.methods)
    requires GsonArrayMember(o, "methodCalls") == Done(calls)
    requires CollectList(calls, DeserializeMethodCall) == Done(c.methodCalls)
    requires GsonArrayMember(o, "implementedTypes") == Done(types)
    requires CollectSet(types, GsonString) == Done(c.implementedTypes)
    ensures DecodeClassBody(o, c.name, c.path, c.packageName, c.classRole) == Done(c)
  {
  }

  /** The reflective decoding reads the class's name, path, package and role
      before its collections. */
  lemma DecodeJClassReads(o: Object, c: JClass)
    requires GsonStringMember(o, "name") == Done(c.name) && GsonStringMember(o, "path") == Done(c.path)
    requires GsonStringMember(o, "packageName") == Done(c.packageName)
    requires GsonStringMember(o, "classRole") == Done(ClassRoleName(c.classRole))
    requires ParseClassRole(ClassRoleName(c.classRole)) == Some(c.classRole)
    ensures DecodeJClass(o) == DecodeClassBody(o, c.name, c.path, c.packageName, c.classRole)
  {
  }

  lemma JClassRoundTrip(c: JClass)
    requires JClassSets(c)
    ensures DecodeJClass(JClassToJson(c).members) == Done(c)
  {
    var annotations := ToJsonArray(c.annotations, AnnotationToJson);
    var fields := ToJsonArray(c.fields, FieldToJson);
    var methods := ToJsonArray(c.methods, MethodToJson);
    var calls := ToJsonArray(c.methodCalls, MethodCallToJson);
    var types := Strings(c.implementedTypes);
    AnnotationsRoundTrip(c.annotations);
    FieldsRoundTrip(c.fields);
    MethodsRoundTrip(c.methods);
    MethodCallsRoundTrip(c.methodCalls);
    StringsRoundTrip(c.implementedTypes);
    var o := ClassObject(JStr(c.name), JStr(c.path), JStr(FileTypeName(JCLASS)), JStr(c.packageName),
                         JStr(ClassRoleName(c.classRole)), JArr(annotations), JArr(fields), JArr(methods),
                         JArr(calls), JArr(types));
    DecodeClassBodyReads(o, c, annotations, fields, methods, calls, types);
    ClassRoleNameRoundTrip(c.classRole);
    DecodeJClassReads(o, c);
  }

  /** A class written out comes back as the same class, and a configuration
      file stamped CONFIG, as its constructor stamps every one, comes back as
      the same configuration file. */
  lemma ProjectFileRoundTrip(f: ProjectFile)
    requires f.ClassFile? ==> JClassSets(f.jClass)
    requires f.ConfigEntry? ==> f.config.fileType == CONFIG
    ensures DeserializeProjectFile(ProjectFileToJson(f)) == Done(f)
  {
    match f
    case ClassFile(c) =>
      ClassFileRoundTrip(c);
    case ConfigEntry(g) =>
      ConfigEntryRoundTrip(g);
  }

  lemma ClassFileRoundTrip(c: JClass)
    requires JClassSets(c)
    ensures DeserializeProjectFile(JClassToJson(c)) == Done(ClassFile(c))
  {
    var j := JClassToJson(c);
    JClassRoundTrip(c);
    assert AsObject(j) == Done(j.members);
    assert StringMember(j.members, "fileType") == Done("JCLASS");
  }

  /** Gson reads a written configuration file back as itself, whatever its
      type. */
  lemma ConfigFileDecodes(g: ConfigFile)
    ensures DecodeConfigFile(ConfigFileToJson(g).members) == Done(g)
  {
    assert ParseFileType(FileTypeName(g.fileType)) == Some(g.fileType) by {
      match g.fileType
      case JCLASS =>
      case CONFIG =>
      case POM =>
    }
  }

  lemma ConfigEntryRoundTrip(g: ConfigFile)
    requires g.fileType == CONFIG
    ensures DeserializeProjectFile(ConfigFileToJson(g)) == Done(ConfigEntry(g))
  {
    var j := ConfigFileToJson(g);
    assert AsObject(j) == Done(j.members);
    assert StringMember(j.members, "fileType") == Done("CONFIG");
    assert DecodeConfigFile(j.members) == Done(g);
  }

  /** Every file the ConfigFile constructor builds round-trips. */
  lemma NewConfigFileRoundTrip(path: string, name: string, data: Object, fileType: FileType)
    ensures var f := NewConfigFile(path, name, data, fileType);
      DeserializeProjectFile(ConfigFileToJson(f)) == Done(ConfigEntry(f))
  {
    ProjectFileRoundTrip(ConfigEntry(NewConfigFile(path, name, data, fileType)));
  }
}
