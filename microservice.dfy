/**
 * What a Microservice holds, as a value: its name, its root path, the five
 * class buckets (controllers, services, repositories, entities, Feign
 * clients) and its configuration files. Every operation of the Microservice
 * class is specified here as a function on this value.
 */
module MicroserviceModel {
  import opened Wrappers
  import opened Ir
  import FileUtils

  datatype Service = Service(
    name: string,
    path: string,
    controllers: seq<JClass>,
    services: seq<JClass>,
    repositories: seq<JClass>,
    entities: seq<JClass>,
    feignClients: seq<JClass>,
    files: seq<ConfigFile>)

  /** The five class buckets. */
  datatype Bucket = Controllers | Services | Repositories | Entities | FeignClients

  /** The bucket for a class role: repositories and repository REST
      resources share one; a class of unknown role has none. */
  function BucketOf(role: ClassRole): (b: Option<Bucket>)
    ensures b.None? <==> role == UNKNOWN
    ensures b == Some(Repositories) <==> role == REPOSITORY || role == REP_REST_RSC
  {
    match role
    case CONTROLLER => Some(Controllers)
    case SERVICE => Some(Services)
    case REPOSITORY => Some(Repositories)
    case REP_REST_RSC => Some(Repositories)
    case ENTITY => Some(Entities)
    case FEIGN_CLIENT => Some(FeignClients)
    case UNKNOWN => None
  }

  function Get(s: Service, b: Bucket): seq<JClass> {
    match b
    case Controllers => s.controllers
    case Services => s.services
    case Repositories => s.repositories
    case Entities => s.entities
    case FeignClients => s.feignClients
  }

  /** The service with bucket `b` replaced by `cs`; nothing else changes. */
  function Put(s: Service, b: Bucket, cs: seq<JClass>): (r: Service)
    ensures Get(r, b) == cs
    ensures forall b' :: b' != b ==> Get(r, b') == Get(s, b')
    ensures r.name == s.name && r.path == s.path && r.files == s.files
  {
    match b
    case Controllers => s.(controllers := cs)
    case Services => s.(services := cs)
    case Repositories => s.(repositories := cs)
    case Entities => s.(entities := cs)
    case FeignClients => s.(feignClients := cs)
  }

  /** No two configuration files are equal in the sense of `ConfigFile.equals`. */
  predicate DistinctConfigs(files: seq<ConfigFile>) {
    forall i, j :: 0 <= i < j < |files| ==> !SameConfig(files[i], files[j])
  }

  /** The invariant of a Microservice: each bucket is a set holding only
      classes of its roles, and the configuration files form a set. */
  predicate Valid(s: Service) {
    (forall b :: NoDuplicates(Get(s, b))) &&
    (forall b, c :: c in Get(s, b) ==> BucketOf(c.classRole) == Some(b)) &&
    DistinctConfigs(s.files)
  }

  /** `new Microservice(name, path)`. */
  function NewService(name: string, path: string): (s: Service)
    ensures s.name == name && s.path == path && s.files == []
    ensures forall b :: Get(s, b) == []
    ensures Valid(s)
  {
    Service(name, path, [], [], [], [], [], [])
  }

  /** `addJClass`: the class, re-stamped with the service's name, goes into
      the bucket of its role, unless that bucket already holds it. */
  function AddJClass(s: Service, c: JClass): (r: Service)
    ensures BucketOf(c.classRole).None? ==> r == s
    ensures BucketOf(c.classRole).Some? ==>
      var b := BucketOf(c.classRole).value;
      Get(r, b) == SetAdd(Get(s, b), UpdateMicroserviceName(c, s.name)) &&
      (forall b' :: b' != b ==> Get(r, b') == Get(s, b')) &&
      r.name == s.name && r.path == s.path && r.files == s.files
  {
    match BucketOf(c.classRole)
    case None => s
    case Some(b) => Put(s, b, SetAdd(Get(s, b), UpdateMicroserviceName(c, s.name)))
  }

  /** `getClasses`: the union of the five buckets. */
  function GetClasses(s: Service): (r: seq<JClass>)
    ensures NoDuplicates(r)
    ensures forall c :: c in r <==> exists b :: c in Get(s, b)
  {
    var all := s.controllers + s.services + s.repositories + s.entities + s.feignClients;
    assert forall c :: c in all <==> (c in Get(s, Controllers) || c in Get(s, Services) ||
      c in Get(s, Repositories) || c in Get(s, Entities) || c in Get(s, FeignClients));
    Distinct(all)
  }

  /** The first class of `cs` whose path is `path`. */
  function FindByPath(cs: seq<JClass>, path: string): (r: Option<JClass>)
    ensures r.None? <==> forall c :: c in cs ==> c.path != path
    ensures r.Some? ==> r.value in cs && r.value.path == path
  {
    if cs == [] then None
    else if cs[0].path == path then Some(cs[0])
    else FindByPath(cs[1..], path)
  }

  /** `removeJClass`: the first class with the given path is removed from
      the bucket of its role. */
  function RemoveJClass(s: Service, path: string): Service {
    match FindByPath(GetClasses(s), path)
    case None => s
    case Some(x) =>
      match BucketOf(x.classRole)
      case None => s
      case Some(b) => Put(s, b, SetRemove(Get(s, b), x))
  }

  /** The first configuration file whose path is `path`. */
  function FindConfigByPath(files: seq<ConfigFile>, path: string): (r: Option<ConfigFile>)
    ensures r.None? <==> forall f :: f in files ==> f.path != path
    ensures r.Some? ==> r.value in files && r.value.path == path
  {
    if files == [] then None
    else if files[0].path == path then Some(files[0])
    else FindConfigByPath(files[1..], path)
  }

  /** `Set<ConfigFile>.remove(f)`: what is equal to `f` goes. */
  function RemoveConfig(files: seq<ConfigFile>, f: ConfigFile): (r: seq<ConfigFile>)
    ensures forall g :: g in r <==> g in files && !SameConfig(g, f)
    decreases |files|
  {
    if files == [] then []
    else (if SameConfig(files[0], f) then [] else [files[0]]) + RemoveConfig(files[1..], f)
  }

  /** `removeProjectFile`: a configuration path is looked up among the
      files only, any other path among the classes only. */
  function RemoveProjectFile(s: Service, path: string): Service {
    if FileUtils.IsConfigurationFile(path) then
      match FindConfigByPath(s.files, path)
      case None => s
      case Some(f) => s.(files := RemoveConfig(s.files, f))
    else RemoveJClass(s, path)
  }

  /** `ms.getFiles().add(file)`. */
  function AddFile(s: Service, f: ConfigFile): (r: Service)
    ensures r.files == AddConfig(s.files, f)
    ensures forall b :: Get(r, b) == Get(s, b)
    ensures r.name == s.name && r.path == s.path
  {
    s.(files := AddConfig(s.files, f))
  }

  /** The union of a list of project files as a `Set<ProjectFile>`. */
  function AddAll(pool: seq<ProjectFile>, fs: seq<ProjectFile>): (r: seq<ProjectFile>)
    ensures forall g :: g in r ==> g in pool || g in fs
    ensures forall g :: g in pool ==> g in r
    ensures forall f :: f in fs ==> HasFile(r, f)
    decreases |fs|
  {
    if fs == [] then pool
    else
      var p := AddOrphan(pool, fs[0]);
      var r := AddAll(p, fs[1..]);
      HasFileGrows(p, r, fs[0]);
      assert forall f :: f in fs ==> f == fs[0] || f in fs[1..];
      r
  }

  /** A pool that keeps every element of a smaller one still has its files. */
  lemma HasFileGrows(p: seq<ProjectFile>, r: seq<ProjectFile>, f: ProjectFile)
    requires HasFile(p, f)
    requires forall g :: g in p ==> g in r
    ensures HasFile(r, f)
  {
    var g :| g in p && SameFile(g, f);
    assert g in r;
  }

  /** Each class as a project file. */
  function ClassFiles(cs: seq<JClass>): (r: seq<ProjectFile>)
    ensures forall c :: c in cs ==> ClassFile(c) in r
    ensures forall g :: g in r ==> g.ClassFile? && g.jClass in cs
  {
    if cs == [] then [] else [ClassFile(cs[0])] + ClassFiles(cs[1..])
  }

  /** Each configuration file as a project file. */
  function ConfigFiles(fs: seq<ConfigFile>): (r: seq<ProjectFile>)
    ensures forall f :: f in fs ==> ConfigEntry(f) in r
    ensures forall g :: g in r ==> g.ConfigEntry? && g.config in fs
  {
    if fs == [] then [] else [ConfigEntry(fs[0])] + ConfigFiles(fs[1..])
  }

  /** `getAllFiles`: the classes and the configuration files together. */
  function GetAllFiles(s: Service): seq<ProjectFile> {
    AddAll(AddAll([], ClassFiles(GetClasses(s))), ConfigFiles(s.files))
  }

  /** A class file is in a pool exactly when a file equal to it is. */
  lemma HasClassFile(pool: seq<ProjectFile>, c: JClass)
    ensures HasFile(pool, ClassFile(c)) <==> ClassFile(c) in pool
  {
    if HasFile(pool, ClassFile(c)) {
      var g :| g in pool && SameFile(g, ClassFile(c));
      assert g == ClassFile(c);
    } else {
      assert !SameFile(ClassFile(c), ClassFile(c)) || ClassFile(c) !in pool;
    }
  }

  /** Every class and (up to `equals`) every configuration file of the
      service is among its files, and nothing else is. */
  lemma GetAllFilesSpec(s: Service)
    ensures forall g :: g in GetAllFiles(s) ==>
      (g.ClassFile? && g.jClass in GetClasses(s)) || (g.ConfigEntry? && g.config in s.files)
    ensures forall c :: c in GetClasses(s) ==> ClassFile(c) in GetAllFiles(s)
    ensures forall f :: f in s.files ==> HasFile(GetAllFiles(s), ConfigEntry(f))
  {
    var classes := ClassFiles(GetClasses(s));
    var configs := ConfigFiles(s.files);
    var p := AddAll([], classes);
    var r := GetAllFiles(s);
    assert r == AddAll(p, configs);
    forall c | c in GetClasses(s) ensures ClassFile(c) in r {
      assert ClassFile(c) in classes;
      HasClassFile(p, c);
    }
  }

  /** The endpoints of each class of `cs`, one after the other. */
  function EndpointsOfClasses(cs: seq<JClass>): (r: seq<Method>)
    ensures forall m :: m in r <==> exists c :: c in cs && m in Ir.GetEndpoints(c)
  {
    if cs == [] then []
    else
      var r := Ir.GetEndpoints(cs[0]) + EndpointsOfClasses(cs[1..]);
      assert forall c :: c in cs <==> c == cs[0] || c in cs[1..];
      r
  }

  /** `getEndpoints`: the endpoints of the controllers only. */
  function GetEndpoints(s: Service): (r: seq<Method>)
    ensures NoDuplicates(r)
    ensures forall m :: m in r <==> exists c :: c in s.controllers && m in Ir.GetEndpoints(c)
  {
    Distinct(EndpointsOfClasses(s.controllers))
  }

  /** The RestCalls of each class of `cs`, one after the other. */
  function RestCallsOfClasses(cs: seq<JClass>): (r: seq<MethodCall>)
    ensures forall x :: x in r <==> exists c :: c in cs && x in Ir.GetRestCalls(c)
  {
    if cs == [] then []
    else
      var r := Ir.GetRestCalls(cs[0]) + RestCallsOfClasses(cs[1..]);
      assert forall c :: c in cs <==> c == cs[0] || c in cs[1..];
      r
  }

  /** `getRestCalls`: the RestCalls of every class, class by class. */
  function GetRestCalls(s: Service): (r: seq<MethodCall>)
    ensures forall x :: x in r <==> exists c :: c in GetClasses(s) && x in c.methodCalls && x.RestCall?
  {
    RestCallsOfClasses(GetClasses(s))
  }

  // ---------------------------------------------------------------- lemmas

  /** Adding a class keeps the invariant. */
  lemma AddJClassValid(s: Service, c: JClass)
    requires Valid(s)
    ensures Valid(AddJClass(s, c))
  {
    var r := AddJClass(s, c);
    if BucketOf(c.classRole).Some? {
      var b := BucketOf(c.classRole).value;
      var x := UpdateMicroserviceName(c, s.name);
      assert x.classRole == c.classRole;
      forall b' ensures NoDuplicates(Get(r, b')) {
        if b' == b && x !in Get(s, b) {
          assert Get(r, b) == Get(s, b) + [x];
        }
      }
    }
  }

  /** After `addJClass`, the re-stamped class is among the classes, in the
      bucket of its role and in no other bucket; an unknown role adds nothing. */
  lemma AddJClassBuckets(s: Service, c: JClass)
    requires Valid(s)
    ensures c.classRole == UNKNOWN ==> AddJClass(s, c) == s
    ensures c.classRole != UNKNOWN ==>
      var x := UpdateMicroserviceName(c, s.name);
      x in GetClasses(AddJClass(s, c)) &&
      forall b :: x in Get(AddJClass(s, c), b) <==> b == BucketOf(c.classRole).value
  {
    AddJClassValid(s, c);
    if c.classRole != UNKNOWN {
      var x := UpdateMicroserviceName(c, s.name);
      var b := BucketOf(c.classRole).value;
      assert x in Get(AddJClass(s, c), b);
      forall b' | x in Get(AddJClass(s, c), b') ensures b' == b {
        assert BucketOf(x.classRole) == Some(b');
      }
    }
  }

  /** The classes after `addJClass` are the classes before plus the
      re-stamped class, when its role has a bucket. */
  lemma AddJClassClasses(s: Service, c: JClass)
    ensures forall d :: d in GetClasses(AddJClass(s, c)) <==>
      d in GetClasses(s) || (c.classRole != UNKNOWN && d == UpdateMicroserviceName(c, s.name))
  {
    var r := AddJClass(s, c);
    if c.classRole != UNKNOWN {
      var b := BucketOf(c.classRole).value;
      var x := UpdateMicroserviceName(c, s.name);
      assert x in Get(r, b);
      forall d | d in GetClasses(r) ensures d in GetClasses(s) || d == x {
        var b' :| d in Get(r, b');
        if b' != b {
          assert Get(r, b') == Get(s, b');
        }
      }
      forall d | d in GetClasses(s) ensures d in GetClasses(r) {
        var b' :| d in Get(s, b');
        if b' != b {
          assert Get(r, b') == Get(s, b');
        } else {
          assert d in Get(r, b);
        }
      }
    }
  }

  /** Adding a configuration file leaves the classes alone. */
  lemma AddFileClasses(s: Service, f: ConfigFile)
    ensures GetClasses(AddFile(s, f)) == GetClasses(s)
  {
    var r := AddFile(s, f);
    assert r.controllers == s.controllers && r.services == s.services && r.repositories == s.repositories;
    assert r.entities == s.entities && r.feignClients == s.feignClients;
  }

  /** Adding a configuration file keeps the invariant. */
  lemma AddFileValid(s: Service, f: ConfigFile)
    requires Valid(s)
    ensures Valid(AddFile(s, f))
  {
    var r := AddFile(s, f);
    if !HasConfig(s.files, f) {
      assert r.files == s.files + [f];
      forall i, j | 0 <= i < j < |r.files| ensures !SameConfig(r.files[i], r.files[j]) {
        if j == |s.files| {
          assert r.files[i] in s.files;
        }
      }
    }
  }

  /** Removing a class keeps the invariant. */
  lemma RemoveJClassValid(s: Service, path: string)
    requires Valid(s)
    ensures Valid(RemoveJClass(s, path))
  {
    var x := FindByPath(GetClasses(s), path);
    if x.Some? && BucketOf(x.value.classRole).Some? {
      var b := BucketOf(x.value.classRole).value;
      SetRemoveKeepsDistinct(Get(s, b), x.value);
    }
  }

  /** `removeJClass` of a path no class has changes nothing. */
  lemma RemoveJClassAbsent(s: Service, path: string)
    requires forall c :: c in GetClasses(s) ==> c.path != path
    ensures RemoveJClass(s, path) == s
  {
  }

  /** Otherwise the first class with that path leaves its bucket, and every
      other bucket and the files stay as they were. */
  lemma RemoveJClassPresent(s: Service, path: string, x: JClass)
    requires Valid(s)
    requires FindByPath(GetClasses(s), path) == Some(x)
    ensures x.path == path && BucketOf(x.classRole).Some?
    ensures var b := BucketOf(x.classRole).value;
      x in Get(s, b) && Get(RemoveJClass(s, path), b) == SetRemove(Get(s, b), x) &&
      (forall b' :: b' != b ==> Get(RemoveJClass(s, path), b') == Get(s, b')) &&
      RemoveJClass(s, path).files == s.files
    ensures x in GetClasses(s) && x !in GetClasses(RemoveJClass(s, path))
  {
    var b0 :| x in Get(s, b0);
    assert BucketOf(x.classRole) == Some(b0);
    var r := RemoveJClass(s, path);
    assert r == Put(s, b0, SetRemove(Get(s, b0), x));
    forall b' ensures x !in Get(r, b') {
      if b' == b0 {
        assert Get(r, b0) == SetRemove(Get(s, b0), x);
      } else {
        assert Get(r, b') == Get(s, b');
        assert BucketOf(x.classRole) != Some(b');
        assert x !in Get(s, b');
      }
    }
  }

  /** Adding a class whose path no class of the service has, then removing
      that path, gives the service back. */
  lemma AddThenRemoveJClass(s: Service, c: JClass)
    requires Valid(s)
    requires c.classRole != UNKNOWN
    requires forall d :: d in GetClasses(s) ==> d.path != c.path
    ensures RemoveJClass(AddJClass(s, c), c.path) == s
  {
    var x := UpdateMicroserviceName(c, s.name);
    var b := BucketOf(c.classRole).value;
    var t := AddJClass(s, c);
    assert x !in Get(s, b);
    assert Get(t, b) == Get(s, b) + [x];
    AddJClassBuckets(s, c);
    forall d | d in GetClasses(t) ensures d in GetClasses(s) || d == x {
      var b' :| d in Get(t, b');
      if b' == b {
        assert d in Get(s, b) + [x];
      } else {
        assert Get(t, b') == Get(s, b');
      }
    }
    assert FindByPath(GetClasses(t), c.path) == Some(x);
    assert x.classRole == c.classRole;
    SetRemoveSnoc(Get(s, b), x);
    var r := RemoveJClass(t, c.path);
    assert Get(r, b) == Get(s, b);
    assert forall b' :: Get(r, b') == Get(s, b');
    assert r.controllers == s.controllers && r.services == s.services && r.repositories == s.repositories;
    assert r.entities == s.entities && r.feignClients == s.feignClients;
  }

  /** `removeProjectFile` of a configuration path leaves the classes alone
      and drops exactly the files equal to the first file with that path; a
      path no file has changes nothing. */
  lemma RemoveProjectFileConfig(s: Service, path: string)
    requires FileUtils.IsConfigurationFile(path)
    ensures forall b :: Get(RemoveProjectFile(s, path), b) == Get(s, b)
    ensures FindConfigByPath(s.files, path).None? ==> RemoveProjectFile(s, path) == s
    ensures FindConfigByPath(s.files, path).Some? ==>
      var o := FindConfigByPath(s.files, path).value;
      o in s.files && o.path == path &&
      (forall f :: f in RemoveProjectFile(s, path).files <==> f in s.files && !SameConfig(f, o))
  {
    var o := FindConfigByPath(s.files, path);
    var r := RemoveProjectFile(s, path);
    var removed := if o.Some? then s.(files := RemoveConfig(s.files, o.value)) else s;
    assert r == removed;
    SameBuckets(s, removed);
  }

  /** A service that differs from `s` in its files only has its buckets. */
  lemma SameBuckets(s: Service, t: Service)
    requires t == s.(files := t.files)
    ensures forall b :: Get(t, b) == Get(s, b)
  {
  }

  /** `removeProjectFile` of any other path is `removeJClass` and leaves the
      files alone. */
  lemma RemoveProjectFileClass(s: Service, path: string)
    requires !FileUtils.IsConfigurationFile(path)
    ensures RemoveProjectFile(s, path) == RemoveJClass(s, path)
    ensures RemoveProjectFile(s, path).files == s.files
  {
    var x := FindByPath(GetClasses(s), path);
    if x.Some? && BucketOf(x.value.classRole).Some? {
      assert RemoveJClass(s, path) == Put(s, BucketOf(x.value.classRole).value, SetRemove(Get(s, BucketOf(x.value.classRole).value), x.value));
    }
  }

  /** `getEndpoints` draws on the controllers only: the service's other
      buckets, repository REST resources included, do not matter. */
  lemma EndpointsFromControllersOnly(s: Service, t: Service)
    requires s.controllers == t.controllers
    ensures GetEndpoints(s) == GetEndpoints(t)
  {
  }
}

/**
 * The Microservice class: its buckets are fields the methods update in
 * place. Each method's new state is the matching function of the model.
 */
module Microservices {
  import opened Wrappers
  import opened Ir
  import FileUtils
  import M = MicroserviceModel

  class Microservice {
    var name: string
    var path: string
    var controllers: seq<JClass>
    var services: seq<JClass>
    var repositories: seq<JClass>
    var entities: seq<JClass>
    var feignClients: seq<JClass>
    var files: seq<ConfigFile>

    /** The value the fields hold. */
    function State(): M.Service
      reads this
    {
      M.Service(name, path, controllers, services, repositories, entities, feignClients, files)
    }

    /** `new Microservice(name, path)`: all six collections start empty. */
    constructor(name: string, path: string)
      ensures State() == M.NewService(name, path)
    {
      this.name := name;
      this.path := path;
      controllers := [];
      services := [];
      repositories := [];
      entities := [];
      feignClients := [];
      files := [];
    }

    /** `addJClass`: the switch on the class role. */
    method AddJClass(c: JClass)
      modifies this
      ensures State() == M.AddJClass(old(State()), c)
    {
      var stamped := UpdateMicroserviceName(c, name);
      match c.classRole {
        case CONTROLLER => controllers := SetAdd(controllers, stamped);
        case SERVICE => services := SetAdd(services, stamped);
        case REPOSITORY => repositories := SetAdd(repositories, stamped);
        case REP_REST_RSC => repositories := SetAdd(repositories, stamped);
        case ENTITY => entities := SetAdd(entities, stamped);
        case FEIGN_CLIENT => feignClients := SetAdd(feignClients, stamped);
        case UNKNOWN =>
      }
    }

    /** `getFiles().add(file)`. */
    method AddFile(f: ConfigFile)
      modifies this
      ensures State() == M.AddFile(old(State()), f)
    {
      files := AddConfig(files, f);
    }

    /** Removes `x` from the bucket of its role (the second half of
        `removeJClass` and of `removeProjectFile`). */
    method RemoveFromBucket(x: JClass)
      modifies this
      ensures M.BucketOf(x.classRole).None? ==> State() == old(State())
      ensures M.BucketOf(x.classRole).Some? ==>
        State() == M.Put(old(State()), M.BucketOf(x.classRole).value, SetRemove(M.Get(old(State()), M.BucketOf(x.classRole).value), x))
    {
      match x.classRole {
        case CONTROLLER => controllers := SetRemove(controllers, x);
        case SERVICE => services := SetRemove(services, x);
        case REPOSITORY => repositories := SetRemove(repositories, x);
        case REP_REST_RSC => repositories := SetRemove(repositories, x);
        case ENTITY => entities := SetRemove(entities, x);
        case FEIGN_CLIENT => feignClients := SetRemove(feignClients, x);
        case UNKNOWN =>
      }
    }

    /** The search loop over `getClasses()`. */
    method FindClass(path: string) returns (found: Option<JClass>)
      ensures found == M.FindByPath(M.GetClasses(State()), path)
    {
      var classes := M.GetClasses(State());
      var i := 0;
      while i < |classes|
        invariant 0 <= i <= |classes|
        invariant M.FindByPath(classes, path) == M.FindByPath(classes[i..], path)
      {
        DropNext(classes, i);
        if classes[i].path == path {
          return Some(classes[i]);
        }
        i := i + 1;
      }
      assert classes[i..] == [];
      return None;
    }

    /** `removeJClass`. */
    method RemoveJClass(path: string)
      modifies this
      ensures State() == M.RemoveJClass(old(State()), path)
    {
      var removeClass := FindClass(path);
      if removeClass.None? {
        return;
      }
      RemoveFromBucket(removeClass.value);
    }

    /** `removeProjectFile`. */
    method RemoveProjectFile(filePath: string)
      modifies this
      ensures State() == M.RemoveProjectFile(old(State()), filePath)
    {
      if FileUtils.IsConfigurationFile(filePath) {
        var i := 0;
        while i < |files|
          invariant 0 <= i <= |files|
          invariant M.FindConfigByPath(files, filePath) == M.FindConfigByPath(files[i..], filePath)
        {
          assert files[i..][0] == files[i] && files[i..][1..] == files[i + 1..];
          if files[i].path == filePath {
            break;
          }
          i := i + 1;
        }
        if i == |files| {
          assert files[i..] == [];
          return;
        }
        assert files[i..][0] == files[i];
        files := M.RemoveConfig(files, files[i]);
      } else {
        var removeClass := FindClass(filePath);
        if removeClass.None? {
          return;
        }
        RemoveFromBucket(removeClass.value);
      }
    }
  }
}
