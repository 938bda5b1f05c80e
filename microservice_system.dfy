/**
 * What a MicroserviceSystem holds, as a value: its name, its commit, its
 * microservices and the pool of orphans (files that belong to no
 * microservice). The class of the next module is specified by these
 * functions.
 */
module SystemModel {
  import opened Wrappers
  import opened Ir
  import opened JavaStrings
  import M = MicroserviceModel

  datatype SystemState = SystemState(
    name: string,
    commitID: string,
    microservices: seq<M.Service>,
    orphans: seq<ProjectFile>)

  /** Every microservice of the system keeps its own invariant. */
  predicate Valid(st: SystemState) {
    forall s :: s in st.microservices ==> M.Valid(s)
  }

  /** `findMicroserviceByPath`: the index of the first microservice whose
      path is a prefix of `path`. */
  function FindMicroserviceByPath(ms: seq<M.Service>, path: string): (r: Option<nat>)
    ensures r.None? <==> forall i :: 0 <= i < |ms| ==> !StartsWith(path, ms[i].path)
    ensures r.Some? ==> r.value < |ms| && StartsWith(path, ms[r.value].path)
    ensures r.Some? ==> forall j :: 0 <= j < r.value ==> !StartsWith(path, ms[j].path)
  {
    if ms == [] then None
    else if StartsWith(path, ms[0].path) then Some(0)
    else
      match FindMicroserviceByPath(ms[1..], path)
      case None => None
      case Some(i) => Some(i + 1)
  }

  // ---------------------------------------------------------------- orphanize

  /** The classes as orphans: each re-stamped with the empty service name. */
  function Orphaned(cs: seq<JClass>): (r: seq<ProjectFile>)
    ensures forall c :: c in cs ==> ClassFile(UpdateMicroserviceName(c, "")) in r
    ensures forall g :: g in r ==> g.ClassFile? && exists c :: c in cs && g.jClass == UpdateMicroserviceName(c, "")
  {
    if cs == [] then [] else [ClassFile(UpdateMicroserviceName(cs[0], ""))] + Orphaned(cs[1..])
  }

  /** `orphanize`: every class of the service joins the pool, re-stamped
      with "". Classes are values here, so the service keeps its own copies
      as they were; the Java objects are shared and re-stamped in place. */
  function Orphanize(orphans: seq<ProjectFile>, s: M.Service): seq<ProjectFile> {
    M.AddAll(orphans, Orphaned(M.GetClasses(s)))
  }

  /** The pool keeps every orphan and gains every class of the service,
      re-stamped with ""; it gains nothing else, in particular no
      configuration file. */
  lemma OrphanizeSpec(orphans: seq<ProjectFile>, s: M.Service)
    ensures forall g :: g in orphans ==> g in Orphanize(orphans, s)
    ensures forall c :: c in M.GetClasses(s) ==> ClassFile(UpdateMicroserviceName(c, "")) in Orphanize(orphans, s)
    ensures forall g :: g in Orphanize(orphans, s) ==>
      g in orphans || (g.ClassFile? && exists c :: c in M.GetClasses(s) && g.jClass == UpdateMicroserviceName(c, ""))
  {
    var fs := Orphaned(M.GetClasses(s));
    var r := Orphanize(orphans, s);
    forall c | c in M.GetClasses(s) ensures ClassFile(UpdateMicroserviceName(c, "")) in r {
      M.HasClassFile(r, UpdateMicroserviceName(c, ""));
    }
  }

  // ---------------------------------------------------------------- adopt

  /** The service being built by `adopt` and the pool it leaves behind. */
  datatype Adoption = Adoption(service: M.Service, orphans: seq<ProjectFile>)

  /** One turn of the loop of `adopt`: an orphan whose path contains the
      service's path is taken; a class leaves the pool, a configuration file
      is added to the service but stays in the pool. */
  function AdoptStep(a: Adoption, f: ProjectFile): Adoption {
    if !Contains(f.Path(), a.service.path) then a
    else if f.ClassFile? then
      Adoption(M.AddJClass(a.service, UpdateMicroserviceName(f.jClass, a.service.name)), RemoveOrphan(a.orphans, f))
    else
      Adoption(M.AddFile(a.service, f.config), a.orphans)
  }

  /** The loop of `adopt` over `files`, in order. */
  function AdoptAll(a: Adoption, files: seq<ProjectFile>): Adoption
    decreases |files|
  {
    if files == [] then a
    else AdoptStep(AdoptAll(a, files[..|files| - 1]), files[|files| - 1])
  }

  /** `adopt`: the loop runs over the pool as it was on entry. */
  function Adopt(s: M.Service, orphans: seq<ProjectFile>): Adoption {
    AdoptAll(Adoption(s, orphans), orphans)
  }

  /** The loop of `adopt` unrolled by one turn. */
  lemma AdoptAllSnoc(a: Adoption, files: seq<ProjectFile>, f: ProjectFile)
    ensures AdoptAll(a, files + [f]) == AdoptStep(AdoptAll(a, files), f)
  {
    assert (files + [f])[..|files|] == files;
  }

  /** `f` is an orphan `adopt` would take from the pool for service path `p`. */
  predicate TakenClass(f: ProjectFile, p: string) {
    f.ClassFile? && Contains(f.Path(), p)
  }

  /** One turn keeps the name, the path and the service's invariant. */
  lemma AdoptStepKeeps(a: Adoption, f: ProjectFile)
    ensures AdoptStep(a, f).service.name == a.service.name
    ensures AdoptStep(a, f).service.path == a.service.path
    ensures M.Valid(a.service) ==> M.Valid(AdoptStep(a, f).service)
  {
    if Contains(f.Path(), a.service.path) {
      if f.ClassFile? {
        if M.Valid(a.service) {
          M.AddJClassValid(a.service, UpdateMicroserviceName(f.jClass, a.service.name));
        }
      } else if M.Valid(a.service) {
        M.AddFileValid(a.service, f.config);
      }
    }
  }

  /** `adopt` keeps the service's name, its path and its invariant. */
  lemma {:induction false} AdoptAllKeeps(a: Adoption, files: seq<ProjectFile>)
    ensures AdoptAll(a, files).service.name == a.service.name
    ensures AdoptAll(a, files).service.path == a.service.path
    ensures M.Valid(a.service) ==> M.Valid(AdoptAll(a, files).service)
    decreases |files|
  {
    if files != [] {
      var n := |files| - 1;
      AdoptAllKeeps(a, files[..n]);
      AdoptStepKeeps(AdoptAll(a, files[..n]), files[n]);
    }
  }

  /** The pool after `adopt`: an orphan stays exactly when it is not a class
      the loop took; configuration files and orphans whose path does not
      contain the service's path all stay. */
  lemma {:induction false} AdoptAllOrphans(a: Adoption, files: seq<ProjectFile>)
    ensures forall g :: g in AdoptAll(a, files).orphans <==>
      g in a.orphans && !(g in files && TakenClass(g, a.service.path))
    decreases |files|
  {
    if files != [] {
      var n := |files| - 1;
      var init := files[..n];
      var b := AdoptAll(a, init);
      AdoptAllOrphans(a, init);
      AdoptAllKeeps(a, init);
      var f := files[n];
      SplitLast(files);
      forall g ensures g in AdoptStep(b, f).orphans <==>
        g in a.orphans && !(g in files && TakenClass(g, a.service.path))
      {
        if TakenClass(f, a.service.path) {
          assert SameFile(g, f) <==> g == f;
        }
      }
    }
  }

  /** The classes after `adopt`: those the service had, plus every class
      orphan whose path contains the service's path and whose role has a
      bucket, re-stamped with the service's name. */
  lemma {:induction false} AdoptAllClasses(a: Adoption, files: seq<ProjectFile>)
    ensures forall d :: d in M.GetClasses(AdoptAll(a, files).service) <==>
      d in M.GetClasses(a.service) ||
      exists f :: f in files && TakenClass(f, a.service.path) && f.jClass.classRole != UNKNOWN &&
        d == UpdateMicroserviceName(f.jClass, a.service.name)
    decreases |files|
  {
    if files != [] {
      var n := |files| - 1;
      var init := files[..n];
      var b := AdoptAll(a, init);
      AdoptAllClasses(a, init);
      AdoptAllKeeps(a, init);
      var f := files[n];
      SplitLast(files);
      var name := a.service.name;
      if Contains(f.Path(), a.service.path) {
        if f.ClassFile? {
          var c := UpdateMicroserviceName(f.jClass, name);
          M.AddJClassClasses(b.service, c);
          UpdateMicroserviceNameLastWins(f.jClass, name, name);
        } else {
          M.AddFileClasses(b.service, f.config);
        }
      }
    }
  }

  /** A configuration orphan `adopt` adds for service path `p`. */
  predicate TakenConfig(f: ProjectFile, p: string) {
    f.ConfigEntry? && Contains(f.Path(), p)
  }

  /** The configuration files after `adopt`: every configuration orphan
      whose path contains the service's path is among them, up to
      `equals`. */
  lemma {:induction false} AdoptAllAddsFiles(a: Adoption, files: seq<ProjectFile>)
    ensures forall f :: f in files && TakenConfig(f, a.service.path) ==>
      HasConfig(AdoptAll(a, files).service.files, f.config)
    decreases |files|
  {
    if files != [] {
      var n := |files| - 1;
      var init := files[..n];
      var b := AdoptAll(a, init);
      AdoptAllAddsFiles(a, init);
      AdoptAllKeeps(a, init);
      var last := files[n];
      SplitLast(files);
      var r := AdoptStep(b, last);
      forall f | f in files && TakenConfig(f, a.service.path)
        ensures HasConfig(r.service.files, f.config)
      {
        if f in init {
          assert HasConfig(b.service.files, f.config);
          HasConfigGrows(b.service.files, r.service.files, f.config);
        }
      }
    }
  }

  /** A list that keeps every element of a smaller one still has its files. */
  lemma HasConfigGrows(p: seq<ConfigFile>, q: seq<ConfigFile>, f: ConfigFile)
    requires HasConfig(p, f)
    requires forall g :: g in p ==> g in q
    ensures HasConfig(q, f)
  {
    var g :| g in p && SameConfig(g, f);
    assert g in q;
  }

  /** ... and nothing else is added to them. */
  lemma {:induction false} AdoptAllOnlyFiles(a: Adoption, files: seq<ProjectFile>)
    ensures forall e :: e in AdoptAll(a, files).service.files ==>
      e in a.service.files || (ConfigEntry(e) in files && Contains(e.path, a.service.path))
    decreases |files|
  {
    if files != [] {
      var n := |files| - 1;
      var init := files[..n];
      AdoptAllOnlyFiles(a, init);
      AdoptAllKeeps(a, init);
      SplitLast(files);
    }
  }

  /** Orphans whose path does not contain the service's path leave
      `adopt` with nothing to do. */
  lemma {:induction false} AdoptAllUntouched(a: Adoption, files: seq<ProjectFile>)
    requires forall f :: f in files ==> !Contains(f.Path(), a.service.path)
    ensures AdoptAll(a, files) == a
    decreases |files|
  {
    if files != [] {
      var n := |files| - 1;
      assert files[n] in files;
      AdoptAllUntouched(a, files[..n]);
    }
  }

  // ---------------------------------------------------------------- adopt as written

  /** The pool with every occurrence of `f` replaced by `g`. */
  function ReplaceFile(pool: seq<ProjectFile>, f: ProjectFile, g: ProjectFile): (r: seq<ProjectFile>)
    ensures |r| == |pool|
    ensures forall i :: 0 <= i < |pool| ==> r[i] == (if pool[i] == f then g else pool[i])
  {
    seq(|pool|, i requires 0 <= i < |pool| => if pool[i] == f then g else pool[i])
  }

  /** One turn of the loop of `adopt` as the code runs it. The class is
      re-stamped in place before `updatedOrphans.remove(file)` looks it up;
      the pool holds that same object, and its hash code covers the service
      names of its methods and calls. Unless the re-stamp changed nothing,
      the lookup searches under the new hash code, misses, and the
      re-stamped class stays in the pool (hash collisions aside). The
      service the turn builds is the one of `AdoptStep`. */
  function AdoptStepAsWritten(a: Adoption, f: ProjectFile): (r: Adoption)
    ensures r.service == AdoptStep(a, f).service
    ensures !TakenClass(f, a.service.path) ==> r == AdoptStep(a, f)
  {
    if TakenClass(f, a.service.path) then
      var c := UpdateMicroserviceName(f.jClass, a.service.name);
      if c == f.jClass then AdoptStep(a, f)
      else Adoption(AdoptStep(a, f).service, ReplaceFile(a.orphans, f, ClassFile(c)))
    else AdoptStep(a, f)
  }

  /** A class some of whose methods carry another service name is changed
      by the re-stamp. */
  lemma StampChangesClass(c: JClass, name: string, k: nat)
    requires k < |c.methods| && c.methods[k].microserviceName != name
    ensures UpdateMicroserviceName(c, name) != c
  {
    assert c.methods[k] in c.methods;
  }

  /** The discrepancy: an orphan class taken by the service whose methods
      were stamped with another name (every class `orphanize` puts in the
      pool is stamped with "") leaves the intended turn's pool, but stays,
      re-stamped, in the pool of the turn as written. */
  lemma AdoptMissKeepsClass(a: Adoption, f: ProjectFile, k: nat)
    requires TakenClass(f, a.service.path) && f in a.orphans
    requires k < |f.jClass.methods| && f.jClass.methods[k].microserviceName != a.service.name
    ensures f !in AdoptStep(a, f).orphans
    ensures ClassFile(UpdateMicroserviceName(f.jClass, a.service.name)) in AdoptStepAsWritten(a, f).orphans
  {
    StampChangesClass(f.jClass, a.service.name, k);
    var i :| 0 <= i < |a.orphans| && a.orphans[i] == f;
    assert ReplaceFile(a.orphans, f, ClassFile(UpdateMicroserviceName(f.jClass, a.service.name)))[i]
      == ClassFile(UpdateMicroserviceName(f.jClass, a.service.name));
  }

  // ---------------------------------------------------------------- searches

  /** The classes of each service, one service after the other. */
  function AllClasses(ms: seq<M.Service>): (r: seq<JClass>)
    ensures forall c :: c in r <==> exists s :: s in ms && c in M.GetClasses(s)
  {
    if ms == [] then []
    else
      var r := M.GetClasses(ms[0]) + AllClasses(ms[1..]);
      assert forall s :: s in ms <==> s == ms[0] || s in ms[1..];
      r
  }

  /** The files of each service, one service after the other. */
  function AllFiles(ms: seq<M.Service>): (r: seq<ProjectFile>)
    ensures forall g :: g in r <==> exists s :: s in ms && g in M.GetAllFiles(s)
  {
    if ms == [] then []
    else
      var r := M.GetAllFiles(ms[0]) + AllFiles(ms[1..]);
      assert forall s :: s in ms <==> s == ms[0] || s in ms[1..];
      r
  }

  /** The first class orphan with the given path. */
  function FindOrphanClass(orphans: seq<ProjectFile>, path: string): (r: Option<JClass>)
    ensures r.None? <==> forall c :: ClassFile(c) in orphans ==> c.path != path
    ensures r.Some? ==> ClassFile(r.value) in orphans && r.value.path == path
  {
    if orphans == [] then None
    else if orphans[0].ClassFile? && orphans[0].jClass.path == path then Some(orphans[0].jClass)
    else FindOrphanClass(orphans[1..], path)
  }

  /** The first file of `fs` with the given path. */
  function FindFileByPath(fs: seq<ProjectFile>, path: string): (r: Option<ProjectFile>)
    ensures r.None? <==> forall g :: g in fs ==> g.Path() != path
    ensures r.Some? ==> r.value in fs && r.value.Path() == path
  {
    if fs == [] then None
    else if fs[0].Path() == path then Some(fs[0])
    else FindFileByPath(fs[1..], path)
  }

  /** `findClass`: the services first, then the class orphans. */
  function FindClass(st: SystemState, path: string): (r: Option<JClass>)
    ensures r.Some? ==> r.value.path == path
    ensures r.None? <==>
      (forall s, c :: s in st.microservices && c in M.GetClasses(s) ==> c.path != path) &&
      (forall c :: ClassFile(c) in st.orphans ==> c.path != path)
    ensures r.Some? ==>
      (exists s :: s in st.microservices && r.value in M.GetClasses(s)) ||
      ((forall s, c :: s in st.microservices && c in M.GetClasses(s) ==> c.path != path) &&
       ClassFile(r.value) in st.orphans)
  {
    match M.FindByPath(AllClasses(st.microservices), path)
    case Some(c) => Some(c)
    case None => FindOrphanClass(st.orphans, path)
  }

  /** `findFile`: the files of the services first, then the orphans. */
  function FindFile(st: SystemState, path: string): (r: Option<ProjectFile>)
    ensures r.Some? ==> r.value.Path() == path
    ensures r.None? <==>
      (forall s, g :: s in st.microservices && g in M.GetAllFiles(s) ==> g.Path() != path) &&
      (forall g :: g in st.orphans ==> g.Path() != path)
    ensures r.Some? ==>
      (exists s :: s in st.microservices && r.value in M.GetAllFiles(s)) ||
      ((forall s, g :: s in st.microservices && g in M.GetAllFiles(s) ==> g.Path() != path) &&
       r.value in st.orphans)
  {
    match FindFileByPath(AllFiles(st.microservices), path)
    case Some(g) => Some(g)
    case None => FindFileByPath(st.orphans, path)
  }

  /** Some configuration file of `files` has the given path. */
  predicate HasPath(files: seq<ConfigFile>, path: string) {
    exists f :: f in files && f.path == path
  }

  /** The index of the first service with a configuration file at `path`. */
  function ServiceWithFile(ms: seq<M.Service>, path: string): (r: Option<nat>)
    ensures r.None? <==> forall i :: 0 <= i < |ms| ==> !HasPath(ms[i].files, path)
    ensures r.Some? ==> r.value < |ms| && HasPath(ms[r.value].files, path)
    ensures r.Some? ==> forall j :: 0 <= j < r.value ==> !HasPath(ms[j].files, path)
  {
    if ms == [] then None
    else if HasPath(ms[0].files, path) then Some(0)
    else
      match ServiceWithFile(ms[1..], path)
      case None => None
      case Some(i) => Some(i + 1)
  }

  /** `getMicroserviceFromFile`: only configuration files are searched. */
  function MicroserviceFromFile(ms: seq<M.Service>, path: string): (r: string)
    ensures (forall i :: 0 <= i < |ms| ==> !HasPath(ms[i].files, path)) ==> r == ""
    ensures forall i :: (0 <= i < |ms| && HasPath(ms[i].files, path) &&
      forall j :: 0 <= j < i ==> !HasPath(ms[j].files, path)) ==> r == ms[i].name
  {
    match ServiceWithFile(ms, path)
    case None => ""
    case Some(i) => ms[i].name
  }

  // ---------------------------------------------------------------- orphanizeAndAdopt

  /** The services after each has adopted in turn, and the pool left. */
  datatype Adopted = Adopted(services: seq<M.Service>, orphans: seq<ProjectFile>)

  /** The loop of `orphanizeAndAdopt`: every service adopts from the pool
      the previous one left. */
  function AdoptEach(ms: seq<M.Service>, orphans: seq<ProjectFile>): (r: Adopted)
    ensures |r.services| == |ms|
    decreases |ms|
  {
    if ms == [] then Adopted([], orphans)
    else
      var a := Adopt(ms[0], orphans);
      var rest := AdoptEach(ms[1..], a.orphans);
      Adopted([a.service] + rest.services, rest.orphans)
  }

  /** The loop of `orphanizeAndAdopt` extended by one more service. */
  lemma {:induction false} AdoptEachSnoc(ms: seq<M.Service>, x: M.Service, orphans: seq<ProjectFile>)
    ensures var d := AdoptEach(ms, orphans);
      var a := Adopt(x, d.orphans);
      AdoptEach(ms + [x], orphans) == Adopted(d.services + [a.service], a.orphans)
    decreases |ms|
  {
    if ms != [] {
      assert (ms + [x])[0] == ms[0] && (ms + [x])[1..] == ms[1..] + [x];
      AdoptEachSnoc(ms[1..], x, Adopt(ms[0], orphans).orphans);
    }
  }

  /** `orphanizeAndAdopt`. */
  function OrphanizeAndAdopt(st: SystemState, s: M.Service): SystemState {
    var r := AdoptEach(st.microservices, Orphanize(st.orphans, s));
    st.(microservices := r.services, orphans := r.orphans)
  }

  /** Each service keeps its name, its path and its invariant, and the pool
      only loses orphans: what is left was an orphan or a re-stamped class
      of the orphanized service. */
  lemma {:induction false} AdoptEachKeeps(ms: seq<M.Service>, orphans: seq<ProjectFile>)
    ensures forall i :: 0 <= i < |ms| ==>
      AdoptEach(ms, orphans).services[i].name == ms[i].name &&
      AdoptEach(ms, orphans).services[i].path == ms[i].path &&
      (M.Valid(ms[i]) ==> M.Valid(AdoptEach(ms, orphans).services[i]))
    ensures forall g :: g in AdoptEach(ms, orphans).orphans ==> g in orphans
    decreases |ms|
  {
    if ms != [] {
      var a := Adopt(ms[0], orphans);
      AdoptAllKeeps(Adoption(ms[0], orphans), orphans);
      AdoptAllOrphans(Adoption(ms[0], orphans), orphans);
      AdoptEachKeeps(ms[1..], a.orphans);
      var r := AdoptEach(ms, orphans);
      forall i | 1 <= i < |ms|
        ensures r.services[i].name == ms[i].name && r.services[i].path == ms[i].path &&
          (M.Valid(ms[i]) ==> M.Valid(r.services[i]))
      {
        assert r.services[i] == AdoptEach(ms[1..], a.orphans).services[i - 1];
        assert ms[1..][i - 1] == ms[i];
      }
    }
  }

  /** `orphanizeAndAdopt` keeps the services' invariants. */
  lemma OrphanizeAndAdoptValid(st: SystemState, s: M.Service)
    ensures Valid(st) ==> Valid(OrphanizeAndAdopt(st, s))
  {
    if Valid(st) {
      AdoptEachValid(st.microservices, Orphanize(st.orphans, s));
    }
  }

  lemma AdoptEachValid(ms: seq<M.Service>, orphans: seq<ProjectFile>)
    requires forall x :: x in ms ==> M.Valid(x)
    ensures forall x :: x in AdoptEach(ms, orphans).services ==> M.Valid(x)
  {
    var d := AdoptEach(ms, orphans);
    AdoptEachKeeps(ms, orphans);
    forall x | x in d.services ensures M.Valid(x) {
      var i :| 0 <= i < |d.services| && d.services[i] == x;
      assert ms[i] in ms;
    }
  }

  /** What `orphanizeAndAdopt` leaves in the pool was an orphan or a
      re-stamped class of the orphanized service. */
  lemma OrphanizeAndAdoptOrphans(st: SystemState, s: M.Service)
    ensures forall g :: g in OrphanizeAndAdopt(st, s).orphans ==>
      g in st.orphans || (g.ClassFile? && exists c :: c in M.GetClasses(s) && g.jClass == UpdateMicroserviceName(c, ""))
  {
    var pool := Orphanize(st.orphans, s);
    var d := AdoptEach(st.microservices, pool);
    assert OrphanizeAndAdopt(st, s).orphans == d.orphans;
    AdoptEachKeeps(st.microservices, pool);
    OrphanizeSpec(st.orphans, s);
  }

  /** `orphanizeAndAdopt` keeps every service's name, path and invariant, and
      leaves in the pool only orphans it had or classes of the orphanized
      service. */
  lemma OrphanizeAndAdoptSpec(st: SystemState, s: M.Service)
    ensures |OrphanizeAndAdopt(st, s).microservices| == |st.microservices|
    ensures Valid(st) ==> Valid(OrphanizeAndAdopt(st, s))
    ensures forall i :: 0 <= i < |st.microservices| ==>
      OrphanizeAndAdopt(st, s).microservices[i].name == st.microservices[i].name &&
      OrphanizeAndAdopt(st, s).microservices[i].path == st.microservices[i].path
    ensures forall g :: g in OrphanizeAndAdopt(st, s).orphans ==>
      g in st.orphans || (g.ClassFile? && exists c :: c in M.GetClasses(s) && g.jClass == UpdateMicroserviceName(c, ""))
  {
    var pool := Orphanize(st.orphans, s);
    assert OrphanizeAndAdopt(st, s).microservices == AdoptEach(st.microservices, pool).services;
    AdoptEachKeeps(st.microservices, pool);
    OrphanizeAndAdoptValid(st, s);
    OrphanizeAndAdoptOrphans(st, s);
  }
}

/**
 * The MicroserviceSystem class: the microservices are objects the system
 * holds and updates in place.
 */
module Systems {
  import opened Wrappers
  import opened Ir
  import opened JavaStrings
  import M = MicroserviceModel
  import S = SystemModel
  import opened Microservices

  /** What each microservice object holds. */
  function States(ms: seq<Microservice>): (r: seq<M.Service>)
    reads set m | m in ms
    ensures |r| == |ms| && forall i :: 0 <= i < |ms| ==> r[i] == ms[i].State()
  {
    if ms == [] then [] else [ms[0].State()] + States(ms[1..])
  }

  /** No object occurs twice: the first is not among the rest, and the rest
      are distinct. */
  predicate DistinctObjects(ms: seq<Microservice>)
    decreases |ms|
  {
    ms == [] || (ms[0] !in ms[1..] && DistinctObjects(ms[1..]))
  }

  /** A new object after distinct ones keeps them distinct. */
  lemma {:induction false} DistinctObjectsSnoc(objs: seq<Microservice>, m: Microservice)
    requires DistinctObjects(objs) && m !in objs
    ensures DistinctObjects(objs + [m])
    decreases |objs|
  {
    if objs != [] {
      assert (objs + [m])[1..] == objs[1..] + [m];
      DistinctObjectsSnoc(objs[1..], m);
    }
  }

  /** Distinct objects are pairwise different. */
  lemma {:induction false} DistinctObjectsSpec(ms: seq<Microservice>)
    ensures DistinctObjects(ms) <==> forall i, j :: 0 <= i < j < |ms| ==> ms[i] != ms[j]
    decreases |ms|
  {
    if ms != [] {
      DistinctObjectsSpec(ms[1..]);
      assert forall j :: 1 <= j < |ms| ==> ms[j] == ms[1..][j - 1];
    }
  }

  class MicroserviceSystem {
    var name: string
    var commitID: string
    var microservices: seq<Microservice>
    var orphans: seq<ProjectFile>

    /** A set holds an object at most once. */
    predicate Distinct()
      reads this
    {
      DistinctObjects(microservices)
    }

    function Objects(): set<Microservice>
      reads this
    {
      set m | m in microservices
    }

    /** The value the system holds. */
    function State(): S.SystemState
      reads this, Objects()
    {
      S.SystemState(name, commitID, States(microservices), orphans)
    }

    /** The all-fields constructor. */
    constructor(name: string, commitID: string, microservices: seq<Microservice>, orphans: seq<ProjectFile>)
      requires forall i, j :: 0 <= i < j < |microservices| ==> microservices[i] != microservices[j]
      ensures this.name == name && this.commitID == commitID
      ensures this.microservices == microservices && this.orphans == orphans
      ensures Distinct()
    {
      this.name := name;
      this.commitID := commitID;
      this.microservices := microservices;
      this.orphans := orphans;
      DistinctObjectsSpec(microservices);
    }

    /** `findMicroserviceByPath`. */
    method FindMicroserviceByPath(path: string) returns (ms: Microservice?)
      ensures S.FindMicroserviceByPath(States(microservices), path).None? ==> ms == null
      ensures S.FindMicroserviceByPath(States(microservices), path).Some? ==>
        ms == microservices[S.FindMicroserviceByPath(States(microservices), path).value]
    {
      var i := 0;
      while i < |microservices|
        invariant 0 <= i <= |microservices|
        invariant forall j :: 0 <= j < i ==> !StartsWith(path, microservices[j].path)
      {
        if StartsWith(path, microservices[i].path) {
          return microservices[i];
        }
        i := i + 1;
      }
      return null;
    }

    /** `orphanize`: the service's classes, re-stamped with "", join the
        pool. The service itself is not touched: its classes are values, not
        the objects the pool shares with it. */
    method Orphanize(ms: Microservice)
      modifies this
      ensures orphans == S.Orphanize(old(orphans), ms.State())
      ensures name == old(name) && commitID == old(commitID) && microservices == old(microservices)
      ensures States(microservices) == old(States(microservices))
    {
      var classes := M.GetClasses(ms.State());
      orphans := M.AddAll(orphans, S.Orphaned(classes));
    }

    /** `adopt`: the loop over the pool as it was on entry, writing the new
        pool at the end. */
    method Adopt(ms: Microservice)
      modifies this, ms
      ensures S.Adoption(ms.State(), orphans) == S.Adopt(old(ms.State()), old(orphans))
      ensures name == old(name) && commitID == old(commitID) && microservices == old(microservices)
    {
      var pool := orphans;
      var updatedOrphans := orphans;
      ghost var start := S.Adoption(ms.State(), pool);
      var i := 0;
      while i < |pool|
        invariant 0 <= i <= |pool|
        invariant orphans == pool && name == old(name) && commitID == old(commitID) && microservices == old(microservices)
        invariant S.Adoption(ms.State(), updatedOrphans) == S.AdoptAll(start, pool[..i])
      {
        var file := pool[i];
        S.AdoptAllSnoc(start, pool[..i], file);
        TakeNext(pool, i);
        updatedOrphans := AdoptOrphan(ms, file, updatedOrphans);
        i := i + 1;
      }
      assert pool[..|pool|] == pool;
      orphans := updatedOrphans;
    }

    /** One turn of the loop of `adopt`. */
    method AdoptOrphan(ms: Microservice, file: ProjectFile, updatedOrphans: seq<ProjectFile>) returns (updated: seq<ProjectFile>)
      modifies ms
      ensures S.Adoption(ms.State(), updated) == S.AdoptStep(S.Adoption(old(ms.State()), updatedOrphans), file)
    {
      updated := updatedOrphans;
      if Contains(file.Path(), ms.path) {
        if file.ClassFile? {
          var jClass := UpdateMicroserviceName(file.jClass, ms.name);
          ms.AddJClass(jClass);
          updated := RemoveOrphan(updatedOrphans, file);
        } else {
          ms.AddFile(file.config);
        }
      }
    }

    /** `getMicroserviceFromFile`: the nested search over the services'
        configuration files. */
    method GetMicroserviceFromFile(path: string) returns (r: string)
      ensures r == S.MicroserviceFromFile(States(microservices), path)
    {
      var i := 0;
      while i < |microservices|
        invariant 0 <= i <= |microservices|
        invariant forall j :: 0 <= j < i ==> !S.HasPath(microservices[j].files, path)
      {
        var found := HasConfigAt(microservices[i].files, path);
        if found {
          return microservices[i].name;
        }
        i := i + 1;
      }
      return "";
    }

    /** The inner loop of `getMicroserviceFromFile`: does some configuration
        file have that path? */
    static method HasConfigAt(files: seq<ConfigFile>, path: string) returns (found: bool)
      ensures found == S.HasPath(files, path)
    {
      var k := 0;
      while k < |files|
        invariant 0 <= k <= |files|
        invariant forall j :: 0 <= j < k ==> files[j].path != path
      {
        if files[k].path == path {
          assert files[k] in files;
          return true;
        }
        k := k + 1;
      }
      return false;
    }

    /** `orphanizeAndAdopt`: orphanize the service, then let every service of
        the system adopt, one after the other. */
    method OrphanizeAndAdopt(ms: Microservice)
      requires Distinct()
      modifies this, Objects()
      ensures State() == S.OrphanizeAndAdopt(old(State()), old(ms.State()))
    {
      ghost var st0 := State();
      Orphanize(ms);
      ghost var pool := orphans;
      assert pool == S.Orphanize(st0.orphans, old(ms.State()));
      AdoptEach();
      ghost var r := S.AdoptEach(st0.microservices, pool);
      assert States(microservices) == r.services && orphans == r.orphans;
    }

    /** The loop of `orphanizeAndAdopt`. */
    method AdoptEach()
      requires Distinct()
      modifies this, Objects()
      ensures microservices == old(microservices) && name == old(name) && commitID == old(commitID)
      ensures var r := S.AdoptEach(old(States(microservices)), old(orphans));
        States(microservices) == r.services && orphans == r.orphans
    {
      ghost var services0 := States(microservices);
      ghost var pool0 := orphans;
      ghost var done: seq<M.Service> := [];
      var i := 0;
      while i < |microservices|
        invariant 0 <= i <= |microservices| && |done| == i
        invariant microservices == old(microservices) && name == old(name) && commitID == old(commitID)
        invariant Distinct()
        invariant S.AdoptEach(services0[..i], pool0) == S.Adopted(done, orphans)
        invariant forall j :: 0 <= j < i ==> microservices[j].State() == done[j]
        invariant forall j :: i <= j < |microservices| ==> microservices[j].State() == services0[j]
      {
        S.AdoptEachSnoc(services0[..i], services0[i], pool0);
        TakeNext(services0, i);
        done := AdoptAt(i, done, services0);
        i := i + 1;
      }
      assert services0[..i] == services0;
      assert States(microservices) == done;
    }

    /** One turn of that loop: service `i` adopts, the others keep what they
        hold. */
    method AdoptAt(i: nat, ghost done: seq<M.Service>, ghost services0: seq<M.Service>) returns (ghost done': seq<M.Service>)
      requires Distinct() && i < |microservices| == |services0| && |done| == i
      requires forall j :: 0 <= j < i ==> microservices[j].State() == done[j]
      requires forall j :: i <= j < |microservices| ==> microservices[j].State() == services0[j]
      modifies this, microservices[i]
      ensures microservices == old(microservices) && name == old(name) && commitID == old(commitID)
      ensures done' == done + [microservices[i].State()]
      ensures S.Adoption(microservices[i].State(), orphans) == S.Adopt(services0[i], old(orphans))
      ensures forall j :: 0 <= j <= i ==> microservices[j].State() == done'[j]
      ensures forall j :: i < j < |microservices| ==> microservices[j].State() == services0[j]
    {
      var m := microservices[i];
      DistinctObjectsSpec(microservices);
      assert forall j :: 0 <= j < |microservices| && j != i ==> microservices[j] != m;
      Adopt(m);
      done' := done + [m.State()];
      forall j | 0 <= j < i
        ensures microservices[j].State() == done'[j]
      {
        assert microservices[j].State() == old(microservices[j].State());
      }
      forall j | i < j < |microservices|
        ensures microservices[j].State() == services0[j]
      {
        assert microservices[j].State() == old(microservices[j].State());
      }
    }
  }
}
