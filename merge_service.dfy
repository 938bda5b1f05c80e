/**
 * The merge stage as values: the IR of one commit and the change list
 * between two commits give the IR of the next commit. The build-file
 * changes reshape the microservices first; then every change adds,
 * replaces or removes one file. The class of the next module is specified
 * by these functions.
 */
module MergeModel {
  import opened Wrappers
  import opened Outcomes
  import opened Ir
  import opened JavaStrings
  import opened Serialization
  import opened Deltas
  import M = MicroserviceModel
  import S = SystemModel
  import FileUtils

  /** The old path git gives an added file. */
  const DEV_NULL := "/dev/null"
  const AIOOBE := "ArrayIndexOutOfBoundsException"

  /** A build file's directory: "/pom.xml", then "/build.gradle", replaced
      by nothing. */
  function Root(path: string): string {
    Replace(Replace(path, "/pom.xml", ""), "/build.gradle", "")
  }

  /** `a.matches(b + "/.*")`, with `b` read literally: `a` lies strictly
      below the directory `b`. */
  predicate Below(a: string, b: string) {
    StartsWith(a, b + "/")
  }

  /** Lying below is strict: never both ways, never a path below itself. */
  lemma BelowIsStrict(a: string, b: string)
    requires Below(a, b)
    ensures !Below(b, a) && a != b
  {
  }

  // ---------------------------------------------------------------- files

  /** Where an added file goes: into the first microservice whose path
      prefixes the file's path, else into the orphans. A configuration
      file joins the service's files, a class the bucket of its role. */
  function Place(st: S.SystemState, path: string, f: ProjectFile): (r: S.SystemState)
    ensures r.name == st.name && r.commitID == st.commitID
    ensures |r.microservices| == |st.microservices|
  {
    match S.FindMicroserviceByPath(st.microservices, path)
    case None => st.(orphans := AddOrphan(st.orphans, f))
    case Some(i) =>
      st.(microservices := st.microservices[i := AddTo(st.microservices[i], f)])
  }

  /** A configuration file joins the service's files, a class the bucket
      of its role. */
  function AddTo(s: M.Service, f: ProjectFile): M.Service {
    if f.ConfigEntry? then M.AddFile(s, f.config) else M.AddJClass(s, f.jClass)
  }

  /** `addFile`: a payload that is neither a class nor a configuration file
      is skipped; reading the payload may throw. */
  function AddFile(st: S.SystemState, d: Delta): (r: Outcome<S.SystemState>)
    ensures |d.data| == 0 ==> r == Done(st)
    ensures r.Done? ==> r.value.name == st.name && r.value.commitID == st.commitID
    ensures r.Done? ==> |r.value.microservices| == |st.microservices|
  {
    var c :- GetClassChange(d);
    if c.Some? then Done(Place(st, d.newPath, ClassFile(c.value)))
    else
      var g :- GetConfigChange(d);
      if g.None? then Done(st) else Done(Place(st, d.newPath, ConfigEntry(g.value)))
  }

  /** When the payload is a class it is no configuration file, so asking
      for the class first, as the orphan branch does, and for the
      configuration file first, as the owner branch does, agree. */
  lemma ClassExcludesConfig(d: Delta)
    requires GetClassChange(d).Done? && GetClassChange(d).value.Some?
    ensures GetConfigChange(d) == Done(None)
  {
    assert StringMember(d.data, "fileType") == Done("JCLASS");
  }

  /** `removeFile`: the owner of the old path removes it; with no owner,
      the first orphan with that path leaves the pool; otherwise nothing
      happens. */
  function RemoveFile(st: S.SystemState, d: Delta): (r: S.SystemState)
    ensures r.name == st.name && r.commitID == st.commitID
    ensures |r.microservices| == |st.microservices|
  {
    match S.FindMicroserviceByPath(st.microservices, d.oldPath)
    case Some(i) =>
      st.(microservices := st.microservices[i := M.RemoveProjectFile(st.microservices[i], d.oldPath)])
    case None =>
      match S.FindFileByPath(st.orphans, d.oldPath)
      case None => st
      case Some(f) => st.(orphans := RemoveOrphan(st.orphans, f))
  }

  /** One change of the list: an addition adds, a modification removes and
      adds again, a deletion removes. */
  function ApplyDelta(st: S.SystemState, d: Delta): (r: Outcome<S.SystemState>)
    ensures r.Done? ==> r.value.name == st.name && r.value.commitID == st.commitID
    ensures r.Done? ==> |r.value.microservices| == |st.microservices|
  {
    match d.changeType
    case ADD => AddFile(st, d)
    case MODIFY => AddFile(RemoveFile(st, d), d)
    case DELETE => Done(RemoveFile(st, d))
  }

  /** The loop over the change list; the first exception ends it. */
  function ApplyAll(st: S.SystemState, ds: seq<Delta>): (r: Outcome<S.SystemState>)
    ensures r.Done? ==> r.value.name == st.name && r.value.commitID == st.commitID
    ensures r.Done? ==> |r.value.microservices| == |st.microservices|
    decreases |ds|
  {
    if ds == [] then Done(st)
    else
      var s :- ApplyDelta(st, ds[0]);
      ApplyAll(s, ds[1..])
  }

  // ---------------------------------------------------------------- filterBuildDeltas

  /** The elements of `s` that satisfy `p`, in order (`removeIf` of the
      others, or a stream filter). */
  function Filter<T(!new)>(s: seq<T>, p: T -> bool): (r: seq<T>)
    ensures forall x :: multiset(r)[x] == if p(x) then multiset(s)[x] else 0
    decreases |s|
  {
    if s == [] then []
    else
      var n := |s| - 1;
      SplitLast(s);
      Filter(s[..n], p) + (if p(s[n]) then [s[n]] else [])
  }

  /** `List.remove(Object)`: the first element equal to `x` goes, if any. */
  function RemoveFirst<T(==)>(s: seq<T>, x: T): (r: seq<T>)
    ensures multiset(r) == multiset(s) - multiset{x}
    ensures x !in s ==> r == s
  {
    if s == [] then []
    else
      assert s == [s[0]] + s[1..];
      if s[0] == x then s[1..] else [s[0]] + RemoveFirst(s[1..], x)
  }

  /** The first element equal to `x` sits at `j`: it is the one that goes. */
  lemma {:induction false} RemoveFirstAt<T>(s: seq<T>, x: T, j: nat)
    requires j < |s| && s[j] == x && forall i :: 0 <= i < j ==> s[i] != x
    ensures RemoveFirst(s, x) == s[..j] + s[j + 1..]
  {
    if j == 0 {
      assert s[..0] + s[1..] == s[1..];
    } else {
      RemoveFirstAt(s[1..], x, j - 1);
      ConsSplit(s, j);
    }
  }

  /** Putting the head back in front of the tail split at `j - 1`. */
  lemma ConsSplit<T>(s: seq<T>, j: nat)
    requires 0 < j < |s|
    ensures [s[0]] + (s[1..][..j - 1] + s[1..][j..]) == s[..j] + s[j + 1..]
  {
    assert s[1..][..j - 1] == s[1..j] && s[1..][j..] == s[j + 1..];
    assert [s[0]] + s[1..j] == s[..j];
  }

  /** A change of a `pom.xml` or a `build.gradle` file, on either side. */
  predicate IsBuildDelta(d: Delta) {
    EndsWith(d.oldPath, "/pom.xml") || EndsWith(d.newPath, "/pom.xml") ||
    EndsWith(d.oldPath, "/build.gradle") || EndsWith(d.newPath, "/build.gradle")
  }

  /** What the three `removeIf` calls keep: build changes that are no
      modification, and deletions only where a microservice owns the old
      path. */
  predicate Candidate(ms: seq<M.Service>, d: Delta) {
    IsBuildDelta(d) && !d.changeType.MODIFY? &&
    !(d.changeType.DELETE? && S.FindMicroserviceByPath(ms, d.oldPath).None?)
  }

  /** The lists the two pair loops work on: `filteredDeltas`, the copy that
      is returned, and the `deletedFirst` flag. */
  datatype Pass = Pass(filtered: seq<Delta>, copy: seq<Delta>, deletedFirst: bool)

  datatype Kind = Additions | Deletions

  /** One turn of the inner loop of either pair loop. Between additions, a
      duplicate directory drops `delta1` from `filteredDeltas` (once), and
      of two nested directories the outer one leaves the copy. Between
      deletions, the first duplicate directory drops `delta1` from the
      copy. */
  function PairStep(k: Kind, p: Pass, d1: Delta, d2: Delta): Pass {
    if k.Additions? then
      if d1 == d2 || !d1.changeType.ADD? || !d2.changeType.ADD? then p
      else
        var p1 := Root(d1.newPath);
        var p2 := Root(d2.newPath);
        if p1 == p2 && !p.deletedFirst then p.(filtered := RemoveFirst(p.filtered, d1), deletedFirst := true)
        else if Below(p1, p2) then p.(copy := RemoveFirst(p.copy, d2))
        else if Below(p2, p1) then p.(copy := RemoveFirst(p.copy, d1))
        else p
    else
      if Root(d1.oldPath) == Root(d2.oldPath) && d1.oldPath != d2.oldPath && !p.deletedFirst then
        p.(copy := RemoveFirst(p.copy, d1), deletedFirst := true)
      else p
  }

  /** The inner loop: `delta1` against every `delta2` of `d2s`. */
  function Inner(k: Kind, p: Pass, d1: Delta, d2s: seq<Delta>): Pass
    decreases |d2s|
  {
    if d2s == [] then p else PairStep(k, Inner(k, p, d1, d2s[..|d2s| - 1]), d1, d2s[|d2s| - 1])
  }

  /** The outer loop: every `delta1` of `d1s` against all of `all`. */
  function Outer(k: Kind, p: Pass, d1s: seq<Delta>, all: seq<Delta>): Pass
    decreases |d1s|
  {
    if d1s == [] then p else Inner(k, Outer(k, p, d1s[..|d1s| - 1], all), d1s[|d1s| - 1], all)
  }

  /** The candidates of `changes` for the services `ms`. */
  function Candidates(ms: seq<M.Service>, changes: seq<Delta>): seq<Delta> {
    Filter(changes, d => Candidate(ms, d))
  }

  /** The ADD changes of `f`, in order. */
  function Adds(f: seq<Delta>): seq<Delta> {
    Filter(f, (d: Delta) => d.changeType.ADD?)
  }

  /** The DELETE changes of `f`, in order. */
  function Dels(f: seq<Delta>): seq<Delta> {
    Filter(f, (d: Delta) => d.changeType.DELETE?)
  }

  /** The pass over the additions. */
  function AddPass(f: seq<Delta>): Pass {
    var adds := Adds(f);
    Outer(Additions, Pass(f, f, false), adds, adds)
  }

  /** `filterBuildDeltas`. */
  function FilterBuildDeltas(ms: seq<M.Service>, changes: seq<Delta>): seq<Delta> {
    var a := AddPass(Candidates(ms, changes));
    var dels := Dels(a.filtered);
    Outer(Deletions, a.(deletedFirst := false), dels, dels).copy
  }

  /** The two pair passes, taken one after the other, give the result. */
  lemma FilterBuildDeltasSteps(ms: seq<M.Service>, changes: seq<Delta>, a: Pass, b: Pass)
    requires a == Outer(Additions, Pass(Candidates(ms, changes), Candidates(ms, changes), false),
                        Adds(Candidates(ms, changes)), Adds(Candidates(ms, changes)))
    requires b == Outer(Deletions, a.(deletedFirst := false), Dels(a.filtered), Dels(a.filtered))
    ensures b.copy == FilterBuildDeltas(ms, changes)
  {
  }

  // ---------------------------------------------------------------- updateMicroservices

  /** How the scan of the ADD case ends: a service lies below the new
      directory, or the last service the new directory lies below (if
      any) is to be replaced. */
  datatype Scan = Skip | Proceed(remove: Option<nat>)

  /** The scan from service `i` on; `remove` is the last service so far
      that the new directory lies below. */
  function ScanFrom(ms: seq<M.Service>, root: string, i: nat, remove: Option<nat>): (r: Scan)
    requires i <= |ms| && (remove.None? || remove.value < i)
    ensures r.Proceed? && r.remove.Some? ==> r.remove.value < |ms|
    decreases |ms| - i
  {
    if i == |ms| then Proceed(remove)
    else if Below(root, ms[i].path) then ScanFrom(ms, root, i + 1, Some(i))
    else if Below(ms[i].path, root) then Skip
    else ScanFrom(ms, root, i + 1, remove)
  }

  /** One step of the scan, for a caller holding only the current path. */
  lemma ScanStep(ms: seq<M.Service>, root: string, i: nat, remove: Option<nat>, path: string)
    requires i < |ms| && (remove.None? || remove.value < i) && ms[i].path == path
    ensures ScanFrom(ms, root, i, remove) ==
      if Below(root, path) then ScanFrom(ms, root, i + 1, Some(i))
      else if Below(path, root) then Skip
      else ScanFrom(ms, root, i + 1, remove)
  {
  }

  /** `getMicroservices().remove(s)` followed by `orphanize(s)`; the list
      drops the first service equal to `s`. */
  function Retire(st: S.SystemState, i: nat): (r: S.SystemState)
    requires i < |st.microservices|
    ensures r.name == st.name && r.commitID == st.commitID
    ensures |r.microservices| == |st.microservices| - 1
  {
    assert |multiset(RemoveFirst(st.microservices, st.microservices[i]))| == |multiset(st.microservices)| - 1;
    st.(microservices := RemoveFirst(st.microservices, st.microservices[i]),
        orphans := S.Orphanize(st.orphans, st.microservices[i]))
  }

  /** The ADD case: a service below the new directory skips the change;
      otherwise the service the new directory lies below is retired and a
      new service, named after the build file's directory, adopts the
      orphans and joins the system. */
  function AddService(st: S.SystemState, newPath: string, tokens: seq<string>): (r: Outcome<S.SystemState>)
    ensures r.Done? ==> r.value.name == st.name && r.value.commitID == st.commitID
  {
    var root := Root(newPath);
    match ScanFrom(st.microservices, root, 0, None)
    case Skip => Done(st)
    case Proceed(remove) => Supersede(st, root, tokens, remove)
  }

  /** The ADD case once the scan is through: the service the new directory
      lies below, if any, is retired, then the new service joins. */
  function Supersede(st: S.SystemState, root: string, tokens: seq<string>, remove: Option<nat>): (r: Outcome<S.SystemState>)
    requires remove.None? || remove.value < |st.microservices|
    ensures r.Done? ==> r.value.name == st.name && r.value.commitID == st.commitID
  {
    var st1 := if remove.Some? then Retire(st, remove.value) else st;
    if |tokens| < 2 then Throws(AIOOBE)
    else Done(Join(st1, tokens[|tokens| - 2], root))
  }

  /** `new Microservice(name, root)`, `adopt` and `add`: the new service
      adopts from the pool and joins the set. */
  function Join(st: S.SystemState, name: string, root: string): (r: S.SystemState)
    ensures r.name == st.name && r.commitID == st.commitID
  {
    var a := S.Adopt(M.NewService(name, root), st.orphans);
    st.(microservices := st.microservices + [a.service], orphans := a.orphans)
  }

  /** The DELETE case: the owner of the build file's directory is retired;
      with no owner, `orphanize(null)` throws. */
  function DeleteService(st: S.SystemState, oldPath: string): (r: Outcome<S.SystemState>)
    ensures r.Done? ==> r.value.name == st.name && r.value.commitID == st.commitID
    ensures r.Done? ==> |r.value.microservices| == |st.microservices| - 1
    ensures S.FindMicroserviceByPath(st.microservices, Root(oldPath)).None? <==> r == Throws(NPE)
  {
    match S.FindMicroserviceByPath(st.microservices, Root(oldPath))
    case None => Throws(NPE)
    case Some(i) => Done(Retire(st, i))
  }

  /** One build change of `updateMicroservices`. */
  function TopologyStep(st: S.SystemState, d: Delta): (r: Outcome<S.SystemState>)
    ensures r.Done? ==> r.value.name == st.name && r.value.commitID == st.commitID
  {
    var path := if d.oldPath == DEV_NULL then d.newPath else d.oldPath;
    var tokens := Split(path, '/');
    if d.changeType.ADD? then AddService(st, d.newPath, tokens)
    else if d.changeType.DELETE? then DeleteService(st, d.oldPath)
    else Done(st)
  }

  /** The loop of `updateMicroservices` over the build changes. */
  function TopologyAll(st: S.SystemState, ds: seq<Delta>): (r: Outcome<S.SystemState>)
    ensures r.Done? ==> r.value.name == st.name && r.value.commitID == st.commitID
    decreases |ds|
  {
    if ds == [] then Done(st)
    else
      var s :- TopologyStep(st, ds[0]);
      TopologyAll(s, ds[1..])
  }

  /** `updateMicroservices`: the build changes are chosen on the system as
      it is before the first of them. */
  function UpdateMicroservices(st: S.SystemState, changes: seq<Delta>): (r: Outcome<S.SystemState>)
    ensures r.Done? ==> r.value.name == st.name && r.value.commitID == st.commitID
  {
    TopologyAll(st, FilterBuildDeltas(st.microservices, changes))
  }

  /** `generateMergeIR`: with no change list the IR stays as it is;
      otherwise the microservices are reshaped, every change is applied and
      the IR moves to the new commit. */
  function GenerateMergeIR(st: S.SystemState, sc: SystemChange): (r: Outcome<S.SystemState>)
    ensures sc.changes.None? ==> r == Done(st)
    ensures sc.changes.Some? && r.Done? ==> r.value.commitID == sc.newCommit && r.value.name == st.name
  {
    match sc.changes
    case None => Done(st)
    case Some(changes) =>
      var s1 :- UpdateMicroservices(st, changes);
      var s2 :- ApplyAll(s1, changes);
      Done(s2.(commitID := sc.newCommit))
  }

  // ---------------------------------------------------------------- lemmas: files

  /** Replacing one service by a valid one keeps the system valid. */
  lemma ValidUpdate(st: S.SystemState, i: nat, s: M.Service)
    requires S.Valid(st) && M.Valid(s) && i < |st.microservices|
    ensures S.Valid(st.(microservices := st.microservices[i := s]))
  {
    var ms := st.microservices[i := s];
    forall x | x in ms ensures M.Valid(x) {
      var j :| 0 <= j < |ms| && ms[j] == x;
      if j != i {
        assert st.microservices[j] in st.microservices;
      }
    }
  }

  /** `addFile` keeps the names and paths of the services and the
      system's invariant. */
  lemma PlaceSpec(st: S.SystemState, path: string, f: ProjectFile)
    ensures S.Valid(st) ==> S.Valid(Place(st, path, f))
    ensures forall j :: 0 <= j < |st.microservices| ==>
      Place(st, path, f).microservices[j].name == st.microservices[j].name &&
      Place(st, path, f).microservices[j].path == st.microservices[j].path
  {
    match S.FindMicroserviceByPath(st.microservices, path)
    case None =>
    case Some(i) =>
      var s := st.microservices[i];
      if S.Valid(st) {
        assert s in st.microservices;
        if f.ConfigEntry? {
          M.AddFileValid(s, f.config);
          ValidUpdate(st, i, M.AddFile(s, f.config));
        } else {
          M.AddJClassValid(s, f.jClass);
          ValidUpdate(st, i, M.AddJClass(s, f.jClass));
        }
      }
  }

  /** With no owner the pool gains the file (up to `equals`), keeps what it
      had, and the services stay. */
  lemma PlaceOrphan(st: S.SystemState, path: string, f: ProjectFile)
    requires S.FindMicroserviceByPath(st.microservices, path).None?
    ensures Place(st, path, f).microservices == st.microservices
    ensures HasFile(Place(st, path, f).orphans, f)
    ensures forall g :: g in st.orphans ==> g in Place(st, path, f).orphans
  {
  }

  /** With an owner only that service changes: it gains the configuration
      file, or the class re-stamped with its name when its role has a
      bucket; the pool stays. */
  lemma PlaceOwner(st: S.SystemState, path: string, f: ProjectFile, i: nat)
    requires S.FindMicroserviceByPath(st.microservices, path) == Some(i)
    ensures i < |st.microservices|
    ensures Place(st, path, f).orphans == st.orphans
    ensures forall j :: 0 <= j < |st.microservices| && j != i ==>
      Place(st, path, f).microservices[j] == st.microservices[j]
    ensures f.ConfigEntry? ==>
      HasConfig(Place(st, path, f).microservices[i].files, f.config) &&
      M.GetClasses(Place(st, path, f).microservices[i]) == M.GetClasses(st.microservices[i])
    ensures f.ClassFile? ==> forall c :: c in M.GetClasses(Place(st, path, f).microservices[i]) <==>
      c in M.GetClasses(st.microservices[i]) ||
      (f.jClass.classRole != UNKNOWN && c == UpdateMicroserviceName(f.jClass, st.microservices[i].name))
  {
    var s := st.microservices[i];
    if f.ConfigEntry? {
      M.AddFileClasses(s, f.config);
    } else {
      M.AddJClassClasses(s, f.jClass);
    }
  }

  /** A class the delta stage wrote into a payload lands where `Place`
      puts it. */
  lemma AddClassPayload(st: S.SystemState, d: Delta, c: JClass)
    requires JClassSets(c) && d.data == JClassToJson(c).members
    ensures AddFile(st, d) == Done(Place(st, d.newPath, ClassFile(c)))
  {
    ClassPayloadRoundTrip(d, c);
  }

  /** So does a configuration file, read back as itself. */
  lemma AddConfigPayload(st: S.SystemState, d: Delta, g: ConfigFile)
    requires g.fileType == CONFIG && d.data == ConfigFileToJson(g).members
    ensures AddFile(st, d) == Done(Place(st, d.newPath, ConfigEntry(g)))
  {
    ConfigPayloadRoundTrip(d, g);
    assert GetClassChange(d) == Done(None) by {
      assert StringMember(d.data, "fileType") == Done("CONFIG");
    }
  }

  /** Dropping the files equal to one keeps the others pairwise unequal. */
  lemma {:induction false} RemoveConfigDistinct(files: seq<ConfigFile>, f: ConfigFile)
    requires M.DistinctConfigs(files)
    ensures M.DistinctConfigs(M.RemoveConfig(files, f))
    decreases |files|
  {
    if files != [] {
      var rest := M.RemoveConfig(files[1..], f);
      assert M.DistinctConfigs(files[1..]) by {
        forall i, j | 0 <= i < j < |files[1..]| ensures !SameConfig(files[1..][i], files[1..][j]) {
          assert files[1..][i] == files[i + 1] && files[1..][j] == files[j + 1];
        }
      }
      RemoveConfigDistinct(files[1..], f);
      if !SameConfig(files[0], f) {
        var r := [files[0]] + rest;
        forall i, j | 0 <= i < j < |r| ensures !SameConfig(r[i], r[j]) {
          if i == 0 {
            assert r[j] in rest;
            var k :| 0 <= k < |files[1..]| && files[1..][k] == r[j];
            assert files[k + 1] == r[j];
          } else {
            assert r[i] == rest[i - 1] && r[j] == rest[j - 1];
          }
        }
      }
    }
  }

  /** `removeProjectFile` keeps a service's invariant, its name and its path. */
  lemma RemoveProjectFileValid(s: M.Service, path: string)
    ensures M.Valid(s) ==> M.Valid(M.RemoveProjectFile(s, path))
    ensures M.RemoveProjectFile(s, path).name == s.name && M.RemoveProjectFile(s, path).path == s.path
  {
    if FileUtils.IsConfigurationFile(path) {
      M.RemoveProjectFileConfig(s, path);
      match M.FindConfigByPath(s.files, path)
      case None =>
      case Some(f) =>
        if M.Valid(s) {
          RemoveConfigDistinct(s.files, f);
        }
    } else {
      M.RemoveProjectFileClass(s, path);
      if M.Valid(s) {
        M.RemoveJClassValid(s, path);
      }
      var x := M.FindByPath(M.GetClasses(s), path);
      if x.Some? && M.BucketOf(x.value.classRole).Some? {
        var b := M.BucketOf(x.value.classRole).value;
        assert M.RemoveJClass(s, path) == M.Put(s, b, SetRemove(M.Get(s, b), x.value));
      }
    }
  }

  /** What `removeFile` changes: with an owner only that service, which then
      holds no class with that path when it held one; with no owner only
      the pool, which loses the first orphan with that path. Names, paths
      and the invariant are kept. */
  lemma RemoveFileSpec(st: S.SystemState, d: Delta)
    ensures S.Valid(st) ==> S.Valid(RemoveFile(st, d))
    ensures forall j :: 0 <= j < |st.microservices| ==>
      RemoveFile(st, d).microservices[j].name == st.microservices[j].name &&
      RemoveFile(st, d).microservices[j].path == st.microservices[j].path
    ensures S.FindMicroserviceByPath(st.microservices, d.oldPath).Some? ==>
      var i := S.FindMicroserviceByPath(st.microservices, d.oldPath).value;
      RemoveFile(st, d).orphans == st.orphans &&
      forall j :: 0 <= j < |st.microservices| && j != i ==> RemoveFile(st, d).microservices[j] == st.microservices[j]
    ensures S.FindMicroserviceByPath(st.microservices, d.oldPath).None? ==>
      RemoveFile(st, d).microservices == st.microservices &&
      (forall g :: g in RemoveFile(st, d).orphans ==> g in st.orphans) &&
      (S.FindFileByPath(st.orphans, d.oldPath).Some? ==>
        S.FindFileByPath(st.orphans, d.oldPath).value !in RemoveFile(st, d).orphans)
  {
    match S.FindMicroserviceByPath(st.microservices, d.oldPath)
    case Some(i) =>
      var s := st.microservices[i];
      RemoveProjectFileValid(s, d.oldPath);
      if S.Valid(st) {
        assert s in st.microservices;
        ValidUpdate(st, i, M.RemoveProjectFile(s, d.oldPath));
      }
    case None =>
      match S.FindFileByPath(st.orphans, d.oldPath)
      case None =>
      case Some(f) =>
        assert SameFile(f, f);
  }

  /** `addFile` keeps the system's invariant. */
  lemma AddFileValid(st: S.SystemState, d: Delta)
    requires S.Valid(st)
    ensures AddFile(st, d).Done? ==> S.Valid(AddFile(st, d).value)
  {
    var c := GetClassChange(d);
    if c.Done? && c.value.Some? {
      PlaceSpec(st, d.newPath, ClassFile(c.value.value));
    } else {
      var g := GetConfigChange(d);
      if c.Done? && g.Done? && g.value.Some? {
        PlaceSpec(st, d.newPath, ConfigEntry(g.value.value));
      }
    }
  }

  /** Every change of the list keeps the system's invariant. */
  lemma {:induction false} ApplyAllValid(st: S.SystemState, ds: seq<Delta>)
    requires S.Valid(st)
    ensures ApplyAll(st, ds).Done? ==> S.Valid(ApplyAll(st, ds).value)
    decreases |ds|
  {
    if ds != [] {
      var d := ds[0];
      match d.changeType {
        case ADD => AddFileValid(st, d);
        case MODIFY =>
          RemoveFileSpec(st, d);
          AddFileValid(RemoveFile(st, d), d);
        case DELETE => RemoveFileSpec(st, d);
      }
      var o := ApplyDelta(st, d);
      if o.Done? {
        ApplyAllValid(o.value, ds[1..]);
      }
    }
  }

  // ---------------------------------------------------------------- lemmas: filterBuildDeltas

  /** A turn of either pair loop only ever removes. */
  lemma PairStepShrinks(k: Kind, p: Pass, d1: Delta, d2: Delta, x: Delta)
    ensures multiset(PairStep(k, p, d1, d2).copy)[x] <= multiset(p.copy)[x]
  {
  }

  lemma {:induction false} InnerShrinks(k: Kind, p: Pass, d1: Delta, s: seq<Delta>, x: Delta)
    ensures multiset(Inner(k, p, d1, s).copy)[x] <= multiset(p.copy)[x]
    decreases |s|
  {
    if s != [] {
      InnerShrinks(k, p, d1, s[..|s| - 1], x);
      PairStepShrinks(k, Inner(k, p, d1, s[..|s| - 1]), d1, s[|s| - 1], x);
    }
  }

  /** The inner loop over two lists one after the other. */
  lemma {:induction false} InnerAppend(k: Kind, p: Pass, d1: Delta, s: seq<Delta>, t: seq<Delta>)
    ensures Inner(k, p, d1, s + t) == Inner(k, Inner(k, p, d1, s), d1, t)
    decreases |t|
  {
    if t == [] {
      assert s + t == s;
    } else {
      var n := |t| - 1;
      assert (s + t)[..|s + t| - 1] == s + t[..n];
      InnerAppend(k, p, d1, s, t[..n]);
    }
  }

  lemma {:induction false} OuterShrinks(k: Kind, p: Pass, d1s: seq<Delta>, all: seq<Delta>, x: Delta)
    ensures multiset(Outer(k, p, d1s, all).copy)[x] <= multiset(p.copy)[x]
    decreases |d1s|
  {
    if d1s != [] {
      var n := |d1s| - 1;
      OuterShrinks(k, p, d1s[..n], all, x);
      InnerShrinks(k, Outer(k, p, d1s[..n], all), d1s[n], all, x);
    }
  }

  lemma SplitAt<T>(s: seq<T>, i: nat)
    requires i <= |s|
    ensures s[..i] + s[i..] == s
  {
  }

  /** The outer loop over two lists one after the other. */
  lemma {:induction false} OuterAppend(k: Kind, p: Pass, s: seq<Delta>, t: seq<Delta>, all: seq<Delta>)
    ensures Outer(k, p, s + t, all) == Outer(k, Outer(k, p, s, all), t, all)
    decreases |t|
  {
    if t == [] {
      assert s + t == s;
    } else {
      var n := |t| - 1;
      assert (s + t)[..|s + t| - 1] == s + t[..n];
      OuterAppend(k, p, s, t[..n], all);
    }
  }

  /** The additions' loop touches additions only. */
  ghost predicate KeepsNonAdditions(p: Pass, q: Pass) {
    forall d: Delta :: !d.changeType.ADD? ==>
      multiset(q.copy)[d] == multiset(p.copy)[d] && multiset(q.filtered)[d] == multiset(p.filtered)[d]
  }

  lemma {:induction false} InnerKeepsNonAdditions(p: Pass, d1: Delta, s: seq<Delta>)
    ensures KeepsNonAdditions(p, Inner(Additions, p, d1, s))
    decreases |s|
  {
    if s != [] {
      InnerKeepsNonAdditions(p, d1, s[..|s| - 1]);
    }
  }

  lemma {:induction false} OuterKeepsNonAdditions(p: Pass, d1s: seq<Delta>, all: seq<Delta>)
    ensures KeepsNonAdditions(p, Outer(Additions, p, d1s, all))
    decreases |d1s|
  {
    if d1s != [] {
      var n := |d1s| - 1;
      OuterKeepsNonAdditions(p, d1s[..n], all);
      InnerKeepsNonAdditions(Outer(Additions, p, d1s[..n], all), d1s[n], all);
    }
  }

  /** The deletions' loop removes at most one deletion from the copy, and
      does nothing once `deletedFirst` is set. */
  ghost predicate DropsAtMostOne(p: Pass, q: Pass) {
    q.filtered == p.filtered &&
    (p.deletedFirst ==> q == p) &&
    (!q.deletedFirst ==> q.copy == p.copy) &&
    (q.copy == p.copy || exists x: Delta :: x.changeType.DELETE? && multiset(q.copy) == multiset(p.copy) - multiset{x})
  }

  lemma DropsAtMostOneTrans(p: Pass, q: Pass, r: Pass)
    requires DropsAtMostOne(p, q) && DropsAtMostOne(q, r)
    ensures DropsAtMostOne(p, r)
  {
    if !q.deletedFirst {
      assert q.copy == p.copy;
    }
  }

  lemma {:induction false} InnerDropsAtMostOne(p: Pass, d1: Delta, s: seq<Delta>)
    requires d1.changeType.DELETE?
    ensures DropsAtMostOne(p, Inner(Deletions, p, d1, s))
    decreases |s|
  {
    if s != [] {
      var q := Inner(Deletions, p, d1, s[..|s| - 1]);
      InnerDropsAtMostOne(p, d1, s[..|s| - 1]);
      var r := PairStep(Deletions, q, d1, s[|s| - 1]);
      assert DropsAtMostOne(q, r);
      DropsAtMostOneTrans(p, q, r);
    }
  }

  lemma {:induction false} OuterDropsAtMostOne(p: Pass, d1s: seq<Delta>, all: seq<Delta>)
    requires forall x :: x in d1s ==> x.changeType.DELETE?
    ensures DropsAtMostOne(p, Outer(Deletions, p, d1s, all))
    decreases |d1s|
  {
    if d1s != [] {
      var n := |d1s| - 1;
      var q := Outer(Deletions, p, d1s[..n], all);
      OuterDropsAtMostOne(p, d1s[..n], all);
      assert d1s[n] in d1s;
      InnerDropsAtMostOne(q, d1s[n], all);
      DropsAtMostOneTrans(p, q, Inner(Deletions, q, d1s[n], all));
    }
  }

  /** `filterBuildDeltas` holds no more of any change than the candidates. */
  lemma FilterBuildDeltasShrinks(ms: seq<M.Service>, changes: seq<Delta>, x: Delta)
    ensures multiset(FilterBuildDeltas(ms, changes))[x] <= multiset(Candidates(ms, changes))[x]
  {
    var f := Candidates(ms, changes);
    var adds := Adds(f);
    var a := Outer(Additions, Pass(f, f, false), adds, adds);
    OuterShrinks(Additions, Pass(f, f, false), adds, adds, x);
    var dels := Dels(a.filtered);
    OuterShrinks(Deletions, a.(deletedFirst := false), dels, dels, x);
  }

  /** `filterBuildDeltas` returns candidates only: changes of build files
      that are no modification, and deletions whose old path a microservice
      owns. */
  lemma FilterBuildDeltasCandidates(ms: seq<M.Service>, changes: seq<Delta>)
    ensures forall d :: d in FilterBuildDeltas(ms, changes) ==> d in changes && Candidate(ms, d)
  {
    forall d | d in FilterBuildDeltas(ms, changes) ensures d in changes && Candidate(ms, d) {
      FilterBuildDeltasShrinks(ms, changes, d);
    }
  }

  /** `after` holds as many of every deletion as `before`, except for at
      most one deletion, of which it holds one fewer. */
  ghost predicate LosesAtMostOneDeletion(before: multiset<Delta>, after: multiset<Delta>) {
    (forall d: Delta :: d.changeType.DELETE? ==> after[d] == before[d]) ||
    exists x: Delta :: x.changeType.DELETE? && after[x] + 1 == before[x] &&
      forall d: Delta :: d.changeType.DELETE? && d != x ==> after[d] == before[d]
  }

  lemma LosesAtMostOne(f: seq<Delta>, c: seq<Delta>, r: seq<Delta>)
    requires forall d: Delta :: d.changeType.DELETE? ==> multiset(c)[d] == multiset(f)[d]
    requires r == c || exists x: Delta :: x.changeType.DELETE? && multiset(r) == multiset(c) - multiset{x}
    ensures LosesAtMostOneDeletion(multiset(f), multiset(r))
  {
    if r != c {
      var x: Delta :| x.changeType.DELETE? && multiset(r) == multiset(c) - multiset{x};
      var mr, mc, mf := multiset(r), multiset(c), multiset(f);
      assert forall d :: d != x ==> mr[d] == mc[d];
      if mc[x] == 0 {
        assert mr[x] == 0;
        assert forall d: Delta :: d.changeType.DELETE? ==> mr[d] == mf[d];
      } else {
        assert mr[x] + 1 == mf[x];
        assert forall d: Delta :: d.changeType.DELETE? && d != x ==> mr[d] == mf[d];
      }
    }
  }

  /** What the deletions' loop is given holds deletions only. */
  lemma DeletionsOnly(s: seq<Delta>)
    ensures forall x :: x in Dels(s) ==> x.changeType.DELETE?
  {
    var dels := Dels(s);
    forall x | x in dels ensures x.changeType.DELETE? {
      assert multiset(dels)[x] > 0;
    }
  }

  /** The deletion candidates all reach the deletions' loop, and of them at
      most one loses one occurrence there. */
  lemma FilterBuildDeltasDeletions(ms: seq<M.Service>, changes: seq<Delta>)
    ensures LosesAtMostOneDeletion(multiset(Candidates(ms, changes)), multiset(FilterBuildDeltas(ms, changes)))
  {
    var f := Candidates(ms, changes);
    var a := AddPass(f);
    var adds := Adds(f);
    OuterKeepsNonAdditions(Pass(f, f, false), adds, adds);
    var dels := Dels(a.filtered);
    DeletionsOnly(a.filtered);
    var a' := a.(deletedFirst := false);
    OuterDropsAtMostOne(a', dels, dels);
    LosesAtMostOne(f, a.copy, Outer(Deletions, a', dels, dels).copy);
  }

  /** `outer` goes from the copy when the additions' loop pairs it with
      `inner`. */
  lemma PairDropsOuter(p: Pass, outer: Delta, inner: Delta)
    requires outer.changeType.ADD? && inner.changeType.ADD?
    requires Below(Root(inner.newPath), Root(outer.newPath))
    requires multiset(p.copy)[outer] <= 1
    ensures multiset(PairStep(Additions, p, outer, inner).copy)[outer] == 0
  {
    BelowIsStrict(Root(inner.newPath), Root(outer.newPath));
  }

  /** Within the additions' loop, the turn of `outer` drops it. */
  lemma InnerDropsOuter(p: Pass, outer: Delta, inner: Delta, adds: seq<Delta>)
    requires outer.changeType.ADD? && inner.changeType.ADD? && inner in adds
    requires Below(Root(inner.newPath), Root(outer.newPath))
    requires multiset(p.copy)[outer] <= 1
    ensures multiset(Inner(Additions, p, outer, adds).copy)[outer] == 0
  {
    var j :| 0 <= j < |adds| && adds[j] == inner;
    var q := Inner(Additions, p, outer, adds[..j]);
    var q1 := Inner(Additions, p, outer, adds[..j + 1]);
    assert multiset(q1.copy)[outer] == 0 by {
      InnerShrinks(Additions, p, outer, adds[..j], outer);
      assert adds[..j + 1][..j] == adds[..j] && adds[..j + 1][j] == inner;
      assert q1 == PairStep(Additions, q, outer, inner);
      PairDropsOuter(q, outer, inner);
    }
    assert Inner(Additions, p, outer, adds) == Inner(Additions, q1, outer, adds[j + 1..]) by {
      InnerAppend(Additions, p, outer, adds[..j + 1], adds[j + 1..]);
      SplitAt(adds, j + 1);
    }
    InnerShrinks(Additions, q1, outer, adds[j + 1..], outer);
  }

  /** An added candidate is in the additions' list as often as in the
      change list. */
  lemma AdditionsOf(ms: seq<M.Service>, changes: seq<Delta>, x: Delta)
    requires Candidate(ms, x) && x.changeType.ADD?
    ensures multiset(Adds(Candidates(ms, changes)))[x] == multiset(changes)[x]
  {
  }

  /** Once the outer loop has reached `outer`, it is gone from the copy. */
  lemma OuterDropsOuter(p: Pass, adds: seq<Delta>, i: nat, outer: Delta, inner: Delta)
    requires i < |adds| && adds[i] == outer && inner in adds
    requires outer.changeType.ADD? && inner.changeType.ADD?
    requires Below(Root(inner.newPath), Root(outer.newPath))
    requires multiset(p.copy)[outer] <= 1
    ensures multiset(Outer(Additions, p, adds, adds).copy)[outer] == 0
  {
    OuterTurnDropsOuter(p, adds, i, outer, inner);
    var pi1 := Outer(Additions, p, adds[..i + 1], adds);
    OuterSplit(p, adds, i + 1);
    OuterShrinks(Additions, pi1, adds[i + 1..], adds, outer);
  }

  /** The turn of the outer loop for `outer` drops it. */
  lemma OuterTurnDropsOuter(p: Pass, adds: seq<Delta>, i: nat, outer: Delta, inner: Delta)
    requires i < |adds| && adds[i] == outer && inner in adds
    requires outer.changeType.ADD? && inner.changeType.ADD?
    requires Below(Root(inner.newPath), Root(outer.newPath))
    requires multiset(p.copy)[outer] <= 1
    ensures multiset(Outer(Additions, p, adds[..i + 1], adds).copy)[outer] == 0
  {
    var pi := Outer(Additions, p, adds[..i], adds);
    OuterShrinks(Additions, p, adds[..i], adds, outer);
    InnerDropsOuter(pi, outer, inner, adds);
    assert adds[..i + 1][..i] == adds[..i] && adds[..i + 1][i] == outer;
  }

  /** The outer loop over `adds` is the loop over its first `i` elements
      followed by the loop over the rest. */
  lemma OuterSplit(p: Pass, adds: seq<Delta>, i: nat)
    requires i <= |adds|
    ensures Outer(Additions, p, adds, adds) == Outer(Additions, Outer(Additions, p, adds[..i], adds), adds[i..], adds)
  {
    OuterAppend(Additions, p, adds[..i], adds[i..], adds);
    SplitAt(adds, i);
  }

  /** The deletions' loop never puts back what the additions' loop took. */
  lemma FilterBuildDeltasAfterAdds(ms: seq<M.Service>, changes: seq<Delta>, x: Delta)
    ensures multiset(FilterBuildDeltas(ms, changes))[x] <= multiset(AddPass(Candidates(ms, changes)).copy)[x]
  {
    var a := AddPass(Candidates(ms, changes));
    var dels := Dels(a.filtered);
    OuterShrinks(Deletions, a.(deletedFirst := false), dels, dels, x);
  }

  /** Of two added build files in nested directories, the outer one is
      dropped: the more specific microservice wins. */
  lemma MoreSpecificWins(ms: seq<M.Service>, changes: seq<Delta>, outer: Delta, inner: Delta)
    requires outer in changes && inner in changes && Candidate(ms, outer) && Candidate(ms, inner)
    requires outer.changeType.ADD? && inner.changeType.ADD?
    requires Below(Root(inner.newPath), Root(outer.newPath))
    requires multiset(changes)[outer] == 1
    ensures outer !in FilterBuildDeltas(ms, changes)
  {
    var f := Candidates(ms, changes);
    var adds := Adds(f);
    AdditionsOf(ms, changes, outer);
    AdditionsOf(ms, changes, inner);
    assert outer in adds && inner in adds;
    var i :| 0 <= i < |adds| && adds[i] == outer;
    OuterDropsOuter(Pass(f, f, false), adds, i, outer, inner);
    assert multiset(AddPass(f).copy)[outer] == 0;
    FilterBuildDeltasAfterAdds(ms, changes, outer);
  }

  lemma FilterBoth<T(!new)>(x: T, y: T, p: T -> bool)
    requires p(x) && p(y)
    ensures Filter([x, y], p) == [x, y]
  {
    assert [x, y][..1] == [x];
    assert [x][..0] == [];
  }

  lemma FilterNeither<T(!new)>(x: T, p: T -> bool)
    requires !p(x)
    ensures Filter([x], p) == []
  {
    assert [x][..0] == [];
  }

  /** The inner loop over two changes. */
  lemma InnerTwo(k: Kind, p: Pass, d: Delta, x: Delta, y: Delta)
    ensures Inner(k, p, d, [x, y]) == PairStep(k, PairStep(k, p, d, x), d, y)
  {
    assert [x][..0] == [];
    assert Inner(k, p, d, [x]) == PairStep(k, p, d, x);
    assert [x, y][..1] == [x];
  }

  /** The outer loop over two changes. */
  lemma OuterTwo(k: Kind, p: Pass, x: Delta, y: Delta, all: seq<Delta>)
    ensures Outer(k, p, [x, y], all) == Inner(k, Inner(k, p, x, all), y, all)
  {
    assert [x][..0] == [];
    assert Outer(k, p, [x], all) == Inner(k, p, x, all);
    assert [x, y][..1] == [x];
  }

  /** Two added build files of one directory (a `pom.xml` and a
      `build.gradle`) both stay: the duplicate is dropped from
      `filteredDeltas`, which is not the list returned. */
  lemma SameDirectoryAddsKept(ms: seq<M.Service>, d1: Delta, d2: Delta)
    requires Candidate(ms, d1) && Candidate(ms, d2) && d1.changeType.ADD? && d2.changeType.ADD?
    requires d1 != d2 && Root(d1.newPath) == Root(d2.newPath)
    ensures FilterBuildDeltas(ms, [d1, d2]) == [d1, d2]
  {
    var f := [d1, d2];
    FilterBoth(d1, d2, d => Candidate(ms, d));
    assert Candidates(ms, f) == f;
    FilterBoth(d1, d2, (d: Delta) => d.changeType.ADD?);
    var p0 := Pass(f, f, false);
    InnerTwo(Additions, p0, d1, d1, d2);
    assert PairStep(Additions, p0, d1, d1) == p0;
    assert RemoveFirst(f, d1) == [d2];
    var q1 := Pass([d2], f, true);
    assert PairStep(Additions, p0, d1, d2) == q1;
    InnerTwo(Additions, q1, d2, d1, d2);
    assert !Below(Root(d2.newPath), Root(d1.newPath));
    assert PairStep(Additions, q1, d2, d1) == q1;
    assert PairStep(Additions, q1, d2, d2) == q1;
    OuterTwo(Additions, p0, d1, d2, f);
    assert AddPass(f) == q1;
    FilterNeither(d2, (d: Delta) => d.changeType.DELETE?);
    assert Outer(Deletions, q1.(deletedFirst := false), [], []).copy == f;
  }

  // ---------------------------------------------------------------- lemmas: updateMicroservices

  /** The scan from `i` skips exactly when some service from `i` on lies
      below the new directory. Otherwise it ends with the last service from
      `i` on that the new directory lies below, or with `remove` when there
      is none. */
  lemma {:induction false} ScanFromSpec(ms: seq<M.Service>, root: string, i: nat, remove: Option<nat>)
    requires i <= |ms| && (remove.None? || remove.value < i)
    ensures ScanFrom(ms, root, i, remove) == Skip <==> exists j :: i <= j < |ms| && Below(ms[j].path, root)
    ensures ScanFrom(ms, root, i, remove).Proceed? ==>
      var r := ScanFrom(ms, root, i, remove).remove;
      (r == remove && forall j :: i <= j < |ms| ==> !Below(root, ms[j].path)) ||
      (r.Some? && i <= r.value < |ms| && Below(root, ms[r.value].path) &&
       forall j :: r.value < j < |ms| ==> !Below(root, ms[j].path))
    decreases |ms| - i
  {
    if i < |ms| {
      if Below(root, ms[i].path) {
        BelowIsStrict(root, ms[i].path);
        ScanFromSpec(ms, root, i + 1, Some(i));
      } else if !Below(ms[i].path, root) {
        ScanFromSpec(ms, root, i + 1, remove);
      }
    }
  }

  /** Retiring a service drops one copy of it from the list, keeps the
      other services' invariants, and turns its classes into orphans
      stamped with the empty name; the pool keeps what it had. */
  lemma RetireSpec(st: S.SystemState, i: nat)
    requires i < |st.microservices|
    ensures multiset(Retire(st, i).microservices) == multiset(st.microservices) - multiset{st.microservices[i]}
    ensures S.Valid(st) ==> S.Valid(Retire(st, i))
    ensures forall g :: g in st.orphans ==> g in Retire(st, i).orphans
    ensures forall c :: c in M.GetClasses(st.microservices[i]) ==>
      ClassFile(UpdateMicroserviceName(c, "")) in Retire(st, i).orphans
  {
    var r := Retire(st, i);
    S.OrphanizeSpec(st.orphans, st.microservices[i]);
    forall x | x in r.microservices ensures x in st.microservices {
      assert multiset(r.microservices)[x] > 0;
    }
  }

  /** An addition below an existing service leaves the system as it is. */
  lemma AddServiceSkips(st: S.SystemState, newPath: string, tokens: seq<string>, j: nat)
    requires j < |st.microservices| && Below(st.microservices[j].path, Root(newPath))
    ensures AddService(st, newPath, tokens) == Done(st)
  {
    ScanFromSpec(st.microservices, Root(newPath), 0, None);
  }

  /** With no service below the new directory, a build file at the top of
      the repository, whose path has fewer than two parts, cannot be named. */
  lemma AddServiceUnnamed(st: S.SystemState, newPath: string, tokens: seq<string>)
    requires forall j :: 0 <= j < |st.microservices| ==> !Below(st.microservices[j].path, Root(newPath))
    requires |tokens| < 2
    ensures AddService(st, newPath, tokens) == Throws(AIOOBE)
  {
    ScanFromSpec(st.microservices, Root(newPath), 0, None);
  }

  /** Otherwise the new service comes last, named after the build file's
      directory and rooted at it. When no service encloses the new
      directory the others stay as they were; otherwise the last enclosing
      one is retired. */
  lemma AddServiceShape(st: S.SystemState, newPath: string, tokens: seq<string>)
    requires forall j :: 0 <= j < |st.microservices| ==> !Below(st.microservices[j].path, Root(newPath))
    requires |tokens| >= 2
    ensures AddService(st, newPath, tokens).Done?
    ensures var ms := AddService(st, newPath, tokens).value.microservices;
      |ms| > 0 && ms[|ms| - 1].name == tokens[|tokens| - 2] && ms[|ms| - 1].path == Root(newPath)
    ensures var ms := AddService(st, newPath, tokens).value.microservices;
      (forall j :: 0 <= j < |st.microservices| ==> !Below(Root(newPath), st.microservices[j].path)) ==>
        ms == st.microservices + [ms[|ms| - 1]]
    ensures var ms := AddService(st, newPath, tokens).value.microservices;
      (exists j :: 0 <= j < |st.microservices| && Below(Root(newPath), st.microservices[j].path)) ==>
        exists k :: 0 <= k < |st.microservices| && Below(Root(newPath), st.microservices[k].path) &&
          (forall j :: k < j < |st.microservices| ==> !Below(Root(newPath), st.microservices[j].path)) &&
          multiset(ms[..|ms| - 1]) == multiset(st.microservices) - multiset{st.microservices[k]}
  {
    var root := Root(newPath);
    ScanFromSpec(st.microservices, root, 0, None);
    var sc := ScanFrom(st.microservices, root, 0, None);
    var st1 := if sc.remove.Some? then Retire(st, sc.remove.value) else st;
    var a := S.Adopt(M.NewService(tokens[|tokens| - 2], root), st1.orphans);
    S.AdoptAllKeeps(S.Adoption(M.NewService(tokens[|tokens| - 2], root), st1.orphans), st1.orphans);
    var ms := st1.microservices + [a.service];
    assert AddService(st, newPath, tokens) == Done(st1.(microservices := ms, orphans := a.orphans));
    assert ms[..|ms| - 1] == st1.microservices;
    if sc.remove.Some? {
      RetireSpec(st, sc.remove.value);
    }
  }

  function Last<T>(s: seq<T>): T
    requires |s| > 0
  {
    s[|s| - 1]
  }

  /** The new service holds exactly the class orphans whose path contains
      its directory and whose role has a bucket, stamped with its name; the
      pool keeps every other orphan. */
  lemma AddServiceAdopts(st: S.SystemState, newPath: string, tokens: seq<string>, pool: seq<ProjectFile>, r: S.SystemState)
    requires forall j :: 0 <= j < |st.microservices| ==> !Below(st.microservices[j].path, Root(newPath))
    requires |tokens| >= 2
    requires pool == (match ScanFrom(st.microservices, Root(newPath), 0, None)
      case Proceed(Some(k)) => Retire(st, k).orphans
      case _ => st.orphans)
    requires AddService(st, newPath, tokens) == Done(r)
    ensures |r.microservices| > 0
    ensures forall c :: c in M.GetClasses(Last(r.microservices)) ==>
      exists f :: f in pool && S.TakenClass(f, Root(newPath)) && f.jClass.classRole != UNKNOWN &&
        c == UpdateMicroserviceName(f.jClass, tokens[|tokens| - 2])
    ensures forall f :: f in pool && S.TakenClass(f, Root(newPath)) && f.jClass.classRole != UNKNOWN ==>
      UpdateMicroserviceName(f.jClass, tokens[|tokens| - 2]) in M.GetClasses(Last(r.microservices))
    ensures forall g :: g in r.orphans <==> g in pool && !S.TakenClass(g, Root(newPath))
  {
    var root := Root(newPath);
    ScanFromSpec(st.microservices, root, 0, None);
    var s0 := M.NewService(tokens[|tokens| - 2], root);
    S.AdoptAllClasses(S.Adoption(s0, pool), pool);
    S.AdoptAllOrphans(S.Adoption(s0, pool), pool);
  }

  /** The addition keeps the system's invariant. */
  lemma AddServiceValid(st: S.SystemState, newPath: string, tokens: seq<string>)
    requires S.Valid(st)
    ensures AddService(st, newPath, tokens).Done? ==> S.Valid(AddService(st, newPath, tokens).value)
  {
    var root := Root(newPath);
    match ScanFrom(st.microservices, root, 0, None)
    case Skip =>
    case Proceed(remove) =>
      var st1 := if remove.Some? then Retire(st, remove.value) else st;
      if remove.Some? {
        RetireSpec(st, remove.value);
      }
      if |tokens| >= 2 {
        var s0 := M.NewService(tokens[|tokens| - 2], root);
        S.AdoptAllKeeps(S.Adoption(s0, st1.orphans), st1.orphans);
      }
  }

  /** A deletion retires the first service whose path prefixes the build
      file's directory. */
  lemma DeleteServiceSpec(st: S.SystemState, oldPath: string, i: nat)
    requires S.FindMicroserviceByPath(st.microservices, Root(oldPath)) == Some(i)
    ensures i < |st.microservices| && StartsWith(Root(oldPath), st.microservices[i].path)
    ensures DeleteService(st, oldPath).Done?
    ensures multiset(DeleteService(st, oldPath).value.microservices) ==
      multiset(st.microservices) - multiset{st.microservices[i]}
    ensures S.Valid(st) ==> S.Valid(DeleteService(st, oldPath).value)
    ensures forall g :: g in st.orphans ==> g in DeleteService(st, oldPath).value.orphans
  {
    RetireSpec(st, i);
  }

  /** Every build change keeps the system's invariant. */
  lemma TopologyStepValid(st: S.SystemState, d: Delta)
    requires S.Valid(st)
    ensures TopologyStep(st, d).Done? ==> S.Valid(TopologyStep(st, d).value)
  {
    var path := if d.oldPath == DEV_NULL then d.newPath else d.oldPath;
    if d.changeType.ADD? {
      AddServiceValid(st, d.newPath, Split(path, '/'));
    } else if d.changeType.DELETE? {
      match S.FindMicroserviceByPath(st.microservices, Root(d.oldPath))
      case None =>
      case Some(i) => DeleteServiceSpec(st, d.oldPath, i);
    }
  }

  lemma {:induction false} TopologyAllValid(st: S.SystemState, ds: seq<Delta>)
    requires S.Valid(st)
    ensures TopologyAll(st, ds).Done? ==> S.Valid(TopologyAll(st, ds).value)
    decreases |ds|
  {
    if ds != [] {
      TopologyStepValid(st, ds[0]);
      var o := TopologyStep(st, ds[0]);
      if o.Done? {
        TopologyAllValid(o.value, ds[1..]);
      }
    }
  }

  /** The merge keeps the IR's invariant: every microservice's buckets hold
      only classes of their roles, without duplicates, and its
      configuration files form a set. */
  lemma GenerateMergeIRValid(st: S.SystemState, sc: SystemChange)
    requires S.Valid(st)
    ensures GenerateMergeIR(st, sc).Done? ==> S.Valid(GenerateMergeIR(st, sc).value)
  {
    match sc.changes
    case None =>
    case Some(changes) =>
      TopologyAllValid(st, FilterBuildDeltas(st.microservices, changes));
      var s1 := UpdateMicroservices(st, changes);
      if s1.Done? {
        ApplyAllValid(s1.value, changes);
      }
  }
}
