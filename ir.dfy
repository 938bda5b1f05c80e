/**
 * The intermediate representation (IR) of a microservice system: the enums,
 * the per-file records and the small queries defined on them in JClass,
 * Method/Endpoint, MethodCall/RestCall and ConfigFile.
 *
 * Every Java `Set` of the IR is a duplicate-free sequence in a fixed
 * iteration order (`SetAdd` appends only what is not yet present); every
 * Java `List` is a sequence.
 */
module Ir {
  import opened Json
  import opened Wrappers

  datatype ClassRole = CONTROLLER | SERVICE | REPOSITORY | ENTITY | REP_REST_RSC | FEIGN_CLIENT | UNKNOWN

  datatype HttpMethod = GET | PUT | POST | DELETE | OPTIONS | HEAD | PATCH | ALL | NONE

  /** The file kinds a ProjectFile's `fileType` names. */
  datatype FileType = JCLASS | CONFIG | POM

  /** `java.util.Set.add`: insert unless an equal element is present. */
  function SetAdd<T(==,!new)>(s: seq<T>, x: T): (r: seq<T>)
    ensures x in r
    ensures forall y :: y in r <==> y in s || y == x
    ensures x in s ==> r == s
    ensures x !in s ==> r == s + [x]
  {
    if x in s then s else s + [x]
  }

  /** `java.util.Set.remove`: the element equal to `x`, if any, goes. */
  function SetRemove<T(==,!new)>(s: seq<T>, x: T): (r: seq<T>)
    ensures x !in r
    ensures forall y :: y in r <==> y in s && y != x
    ensures x !in s ==> r == s
    ensures |r| <= |s|
    decreases |s|
  {
    if s == [] then []
    else (if s[0] == x then [] else [s[0]]) + SetRemove(s[1..], x)
  }

  /** Removing an element that was just added restores a set that lacked it. */
  lemma SetAddRemove<T(!new)>(s: seq<T>, x: T)
    requires x !in s
    ensures SetRemove(SetAdd(s, x), x) == s
  {
    SetRemoveSnoc(s, x);
  }

  lemma {:induction false} SetRemoveSnoc<T(!new)>(s: seq<T>, x: T)
    requires x !in s
    ensures SetRemove(s + [x], x) == s
    decreases |s|
  {
    if s == [] {
      assert [x][1..] == [];
    } else {
      assert (s + [x])[1..] == s[1..] + [x];
      SetRemoveSnoc(s[1..], x);
      assert s == [s[0]] + s[1..];
    }
  }

  lemma {:induction false} SetRemoveKeepsDistinct<T(!new)>(s: seq<T>, x: T)
    requires NoDuplicates(s)
    ensures NoDuplicates(SetRemove(s, x))
    decreases |s|
  {
    if s != [] {
      SetRemoveKeepsDistinct(s[1..], x);
      var r := SetRemove(s[1..], x);
      assert forall i :: 1 <= i < |s| ==> s[i] == s[1..][i - 1];
      assert s[0] !in s[1..];
      assert s[0] !in r;
    }
  }

  predicate NoDuplicates<T(==)>(s: seq<T>) {
    forall i, j :: 0 <= i < j < |s| ==> s[i] != s[j]
  }

  /** `new HashSet<>(list)`: the distinct elements in first-seen order. */
  function Distinct<T(==,!new)>(s: seq<T>): (r: seq<T>)
    ensures NoDuplicates(r)
    ensures forall y :: y in r <==> y in s
    ensures NoDuplicates(s) ==> r == s
    decreases |s|
  {
    if s == [] then []
    else
      var rest := Distinct(s[..|s| - 1]);
      var last := s[|s| - 1];
      assert s == s[..|s| - 1] + [last];
      assert NoDuplicates(s) ==> last !in s[..|s| - 1];
      SetAdd(rest, last)
  }

  /** Adding one more element to the source list is one `add` on the set. */
  lemma DistinctSnoc<T(!new)>(s: seq<T>, x: T)
    ensures Distinct(s + [x]) == SetAdd(Distinct(s), x)
  {
    assert (s + [x])[..|s|] == s;
  }

  datatype Annotation = Annotation(name: string, packageAndClassName: string, attributes: map<string, string>)

  datatype Parameter = Parameter(name: string, packageAndClassName: string, paramType: string, annotations: seq<Annotation>)

  datatype Field = Field(name: string, packageAndClassName: string, fieldType: string)

  /** Method and its subclass Endpoint, which adds the mapped URL and verb. */
  datatype Method =
    | Method(name: string, packageAndClassName: string, parameters: seq<Parameter>, returnType: string,
             annotations: seq<Annotation>, microserviceName: string, className: string)
    | Endpoint(name: string, packageAndClassName: string, parameters: seq<Parameter>, returnType: string,
               annotations: seq<Annotation>, microserviceName: string, className: string,
               url: string, httpMethod: HttpMethod)

  /** MethodCall and its subclass RestCall, which adds the called URL and verb. */
  datatype MethodCall =
    | MethodCall(name: string, packageAndClassName: string, objectType: string, objectName: string,
                 calledFrom: string, parameterContents: string, microserviceName: string, className: string)
    | RestCall(name: string, packageAndClassName: string, objectType: string, objectName: string,
               calledFrom: string, parameterContents: string, microserviceName: string, className: string,
               url: string, httpMethod: HttpMethod)

  /** The plain Method part of a method (an Endpoint without URL and verb). */
  function AsMethod(m: Method): Method {
    Method(m.name, m.packageAndClassName, m.parameters, m.returnType, m.annotations, m.microserviceName, m.className)
  }

  /** The plain MethodCall part of a call (a RestCall without URL and verb). */
  function AsMethodCall(c: MethodCall): MethodCall {
    MethodCall(c.name, c.packageAndClassName, c.objectType, c.objectName, c.calledFrom, c.parameterContents,
               c.microserviceName, c.className)
  }

  /** `new Endpoint(method, url, httpMethod)`. */
  function NewEndpoint(m: Method, url: string, verb: HttpMethod): (r: Method)
    ensures r.Endpoint? && AsMethod(r) == AsMethod(m) && r.url == url && r.httpMethod == verb
  {
    Endpoint(m.name, m.packageAndClassName, m.parameters, m.returnType, m.annotations, m.microserviceName,
             m.className, url, verb)
  }

  /** `new RestCall(methodCall, url, httpMethod)`: all eight MethodCall fields are
      copied unchanged. */
  function NewRestCall(c: MethodCall, url: string, verb: HttpMethod): (r: MethodCall)
    ensures r.RestCall? && AsMethodCall(r) == AsMethodCall(c) && r.url == url && r.httpMethod == verb
  {
    RestCall(c.name, c.packageAndClassName, c.objectType, c.objectName, c.calledFrom, c.parameterContents,
             c.microserviceName, c.className, url, verb)
  }

  /** `new MethodCall(name, packageName, objectType, objectName, calledFrom,
      parameterContents, microserviceName, className)`: note the argument order
      (type before name) differs from the field order. */
  function NewMethodCall(name: string, packageName: string, objectType: string, objectName: string,
                         calledFrom: string, parameterContents: string, microserviceName: string,
                         className: string): (r: MethodCall)
    ensures r.MethodCall?
    ensures r.name == name && r.packageAndClassName == packageName && r.objectType == objectType
    ensures r.objectName == objectName && r.calledFrom == calledFrom && r.parameterContents == parameterContents
    ensures r.microserviceName == microserviceName && r.className == className
  {
    MethodCall(name, packageName, objectType, objectName, calledFrom, parameterContents, microserviceName, className)
  }

  datatype JClass = JClass(
    name: string,
    path: string,
    packageName: string,
    classRole: ClassRole,
    methods: seq<Method>,
    fields: seq<Field>,
    annotations: seq<Annotation>,
    methodCalls: seq<MethodCall>,
    implementedTypes: seq<string>)

  /** The four-argument JClass constructor: every collection starts empty. */
  function NewJClass(name: string, path: string, packageName: string, role: ClassRole): (c: JClass)
    ensures c.name == name && c.path == path && c.packageName == packageName && c.classRole == role
    ensures c.methods == [] && c.fields == [] && c.annotations == [] && c.methodCalls == [] && c.implementedTypes == []
  {
    JClass(name, path, packageName, role, [], [], [], [], [])
  }

  /** A configuration file; the Java constructor ignores its type argument and
      always stamps CONFIG, but a decoded file keeps the `fileType` it was
      read with. */
  datatype ConfigFile = ConfigFile(path: string, name: string, data: Object, fileType: FileType)

  /** `new ConfigFile(path, name, data, type)`. */
  function NewConfigFile(path: string, name: string, data: Object, fileType: FileType): (f: ConfigFile)
    ensures f.fileType == CONFIG && f.path == path && f.name == name && f.data == data
  {
    ConfigFile(path, name, data, CONFIG)
  }

  /** A ProjectFile is either a JClass or a ConfigFile. */
  datatype ProjectFile = ClassFile(jClass: JClass) | ConfigEntry(config: ConfigFile)
  {
    function Path(): string {
      match this
      case ClassFile(c) => c.path
      case ConfigEntry(f) => f.path
    }

    function Name(): string {
      match this
      case ClassFile(c) => c.name
      case ConfigEntry(f) => f.name
    }

    /** Both JClass constructors stamp JCLASS. */
    function GetFileType(): (t: FileType)
      ensures ClassFile? ==> t == JCLASS
    {
      match this
      case ClassFile(_) => JCLASS
      case ConfigEntry(f) => f.fileType
    }
  }

  /** ProjectFile equality as Lombok generates it: JClasses compare all their
      fields; a ConfigFile compares only name, path and fileType. */
  predicate SameFile(a: ProjectFile, b: ProjectFile) {
    if a.ClassFile? then b.ClassFile? && a.jClass == b.jClass
    else b.ConfigEntry? && SameConfig(a.config, b.config)
  }

  predicate SameConfig(a: ConfigFile, b: ConfigFile) {
    a.name == b.name && a.path == b.path && a.fileType == b.fileType
  }

  /** `Set<ConfigFile>.add`: an equal file (same name, path and type) already
      present keeps its old data. */
  function AddConfig(files: seq<ConfigFile>, f: ConfigFile): (r: seq<ConfigFile>)
    ensures HasConfig(files, f) ==> r == files
    ensures !HasConfig(files, f) ==> r == files + [f]
    ensures HasConfig(r, f)
  {
    assert SameConfig(f, f);
    if HasConfig(files, f) then files else files + [f]
  }

  /** Some file of `files` is equal to `f` in the sense of `ConfigFile.equals`. */
  predicate HasConfig(files: seq<ConfigFile>, f: ConfigFile) {
    exists g :: g in files && SameConfig(g, f)
  }

  /** Some file of `pool` is equal to `f` in the sense of `equals`. */
  predicate HasFile(pool: seq<ProjectFile>, f: ProjectFile) {
    exists g :: g in pool && SameFile(g, f)
  }

  /** `Set<ProjectFile>.add` for the orphan pool. */
  function AddOrphan(pool: seq<ProjectFile>, f: ProjectFile): (r: seq<ProjectFile>)
    ensures HasFile(pool, f) ==> r == pool
    ensures !HasFile(pool, f) ==> r == pool + [f]
    ensures HasFile(r, f)
  {
    assert SameFile(f, f);
    if HasFile(pool, f) then pool else pool + [f]
  }

  /** `Set<ProjectFile>.remove(f)`: the element equal to `f` goes. */
  function RemoveOrphan(pool: seq<ProjectFile>, f: ProjectFile): (r: seq<ProjectFile>)
    ensures |r| <= |pool|
    ensures forall g :: g in r ==> g in pool
    ensures forall g :: g in pool && !SameFile(g, f) ==> g in r
    ensures forall g :: g in r ==> !SameFile(g, f)
  {
    if pool == [] then []
    else (if SameFile(pool[0], f) then [] else [pool[0]]) + RemoveOrphan(pool[1..], f)
  }

  /** `JClass.getEndpoints`: empty unless the class is a controller or a
      repository REST resource; otherwise the methods that are Endpoints. */
  function GetEndpoints(c: JClass): (r: seq<Method>)
    ensures c.classRole != CONTROLLER && c.classRole != REP_REST_RSC ==> r == []
    ensures c.classRole == CONTROLLER || c.classRole == REP_REST_RSC ==>
      forall m :: m in r <==> m in c.methods && m.Endpoint?
  {
    if c.classRole != CONTROLLER && c.classRole != REP_REST_RSC then [] else EndpointsOf(c.methods)
  }

  function EndpointsOf(ms: seq<Method>): (r: seq<Method>)
    ensures forall m :: m in r <==> m in ms && m.Endpoint?
  {
    if ms == [] then []
    else (if ms[0].Endpoint? then [ms[0]] else []) + EndpointsOf(ms[1..])
  }

  /** The RestCalls among `calls`, in list order. */
  function RestCallsOf(calls: seq<MethodCall>): (r: seq<MethodCall>)
    ensures forall c :: c in r <==> c in calls && c.RestCall?
    ensures |r| <= |calls|
  {
    if calls == [] then []
    else (if calls[0].RestCall? then [calls[0]] else []) + RestCallsOf(calls[1..])
  }

  /** `JClass.getRestCalls`. */
  function GetRestCalls(c: JClass): (r: seq<MethodCall>)
    ensures forall x :: x in r <==> x in c.methodCalls && x.RestCall?
  {
    RestCallsOf(c.methodCalls)
  }

  /** The filter keeps list order: filtering a concatenation concatenates the
      filtered parts. */
  lemma {:induction false} RestCallsOfAppend(a: seq<MethodCall>, b: seq<MethodCall>)
    ensures RestCallsOf(a + b) == RestCallsOf(a) + RestCallsOf(b)
    decreases |a|
  {
    if a == [] {
      assert a + b == b;
    } else {
      var head := if a[0].RestCall? then [a[0]] else [];
      AppendTail(a, b);
      assert RestCallsOf(a + b) == head + RestCallsOf(a[1..] + b);
      RestCallsOfAppend(a[1..], b);
      Associative(head, RestCallsOf(a[1..]), RestCallsOf(b));
    }
  }

  function StampMethods(ms: seq<Method>, name: string): (r: seq<Method>)
    ensures |r| == |ms|
    ensures forall i :: 0 <= i < |ms| ==> r[i] == ms[i].(microserviceName := name)
  {
    if ms == [] then [] else [ms[0].(microserviceName := name)] + StampMethods(ms[1..], name)
  }

  function StampCalls(cs: seq<MethodCall>, name: string): (r: seq<MethodCall>)
    ensures |r| == |cs|
    ensures forall i :: 0 <= i < |cs| ==> r[i] == cs[i].(microserviceName := name)
  {
    if cs == [] then [] else [cs[0].(microserviceName := name)] + StampCalls(cs[1..], name)
  }

  /** `JClass.updateMicroserviceName`: the class with every method and every
      call re-stamped. */
  function UpdateMicroserviceName(c: JClass, name: string): (r: JClass)
    ensures r.name == c.name && r.path == c.path && r.packageName == c.packageName && r.classRole == c.classRole
    ensures r.fields == c.fields && r.annotations == c.annotations && r.implementedTypes == c.implementedTypes
    ensures |r.methods| == |c.methods| && |r.methodCalls| == |c.methodCalls|
    ensures forall m :: m in r.methods ==> m.microserviceName == name
    ensures forall x :: x in r.methodCalls ==> x.microserviceName == name
  {
    c.(methods := StampMethods(c.methods, name), methodCalls := StampCalls(c.methodCalls, name))
  }

  /** The stamp changes nothing in a method or a call but its service name. */
  lemma UpdateMicroserviceNameKeeps(c: JClass, name: string)
    ensures var r := UpdateMicroserviceName(c, name);
      (forall i :: 0 <= i < |c.methods| ==> r.methods[i].(microserviceName := c.methods[i].microserviceName) == c.methods[i]) &&
      (forall i :: 0 <= i < |c.methodCalls| ==>
        r.methodCalls[i].(microserviceName := c.methodCalls[i].microserviceName) == c.methodCalls[i])
  {
  }

  /** Re-stamping twice is re-stamping once with the second name. */
  lemma UpdateMicroserviceNameLastWins(c: JClass, a: string, b: string)
    ensures UpdateMicroserviceName(UpdateMicroserviceName(c, a), b) == UpdateMicroserviceName(c, b)
  {
    var x := UpdateMicroserviceName(UpdateMicroserviceName(c, a), b);
    var y := UpdateMicroserviceName(c, b);
    assert x.methods == y.methods;
    assert x.methodCalls == y.methodCalls;
  }

  /** The stamp does not change which calls are RestCalls. */
  lemma {:induction false} StampKeepsRestCalls(cs: seq<MethodCall>, name: string)
    ensures |RestCallsOf(StampCalls(cs, name))| == |RestCallsOf(cs)|
    decreases |cs|
  {
    if cs != [] {
      assert StampCalls(cs, name)[1..] == StampCalls(cs[1..], name);
      StampKeepsRestCalls(cs[1..], name);
    }
  }
}
