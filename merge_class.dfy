/**
 * The MergeService class: it holds the IR of one commit as a
 * MicroserviceSystem object and the change list to the next commit, and
 * updates the system's fields and its microservice objects in place. Each
 * method is specified by the matching function of MergeModel.
 */
module Merging {
  import opened Wrappers
  import opened Outcomes
  import opened Ir
  import opened JavaStrings
  import opened Deltas
  import opened Serialization
  import M = MicroserviceModel
  import S = SystemModel
  import MergeModel
  import opened Microservices
  import opened Systems

  /** How an operation of the model ends, without its value. */
  function Status<T>(o: Outcome<T>): (r: Outcome<()>)
    ensures r.Done? <==> o.Done?
    ensures o.Throws? <==> r.Throws?
    ensures o.Throws? ==> r.exception == o.exception
  {
    match o
    case Done(_) => Done(())
    case Diverges => Diverges
    case Throws(e) => Throws(e)
  }

  /** Two lists that agree everywhere but at `i`. */
  lemma UpdatedAt(a: seq<M.Service>, b: seq<M.Service>, i: nat)
    requires |a| == |b| && i < |a|
    requires forall j :: 0 <= j < |a| && j != i ==> b[j] == a[j]
    ensures b == a[i := b[i]]
  {
  }

  /** The loop of the ADD case on the services' states: a service below the
      new directory ends it, and the last service the new directory lies
      below is the one to remove. */
  method ScanPaths(ms: seq<M.Service>, root: string) returns (skip: bool, k: Option<nat>)
    ensures skip <==> MergeModel.ScanFrom(ms, root, 0, None).Skip?
    ensures !skip ==> MergeModel.ScanFrom(ms, root, 0, None) == MergeModel.Proceed(k)
    ensures k.Some? ==> k.value < |ms|
  {
    k := None;
    var i := 0;
    while i < |ms|
      invariant i <= |ms| && (k.None? || k.value < i)
      invariant MergeModel.ScanFrom(ms, root, 0, None) == MergeModel.ScanFrom(ms, root, i, k)
    {
      if MergeModel.Below(root, ms[i].path) {
        k := Some(i);
      } else if MergeModel.Below(ms[i].path, root) {
        return true, k;
      }
      i := i + 1;
    }
    return false, k;
  }

  /** One more row of the outer loop. */
  lemma OuterStep(k: MergeModel.Kind, p0: MergeModel.Pass, s: seq<Delta>, i: nat)
    requires i < |s|
    ensures MergeModel.Outer(k, p0, s[..i + 1], s) == MergeModel.Inner(k, MergeModel.Outer(k, p0, s[..i], s), s[i], s)
  {
    assert s[..i + 1][..i] == s[..i];
  }

  /** The first pair loop of `filterBuildDeltas`, over the additions. */
  method AdditionPairs(p0: MergeModel.Pass, adds: seq<Delta>) returns (p: MergeModel.Pass)
    ensures p == MergeModel.Outer(MergeModel.Additions, p0, adds, adds)
  {
    p := p0;
    for i := 0 to |adds|
      invariant p == MergeModel.Outer(MergeModel.Additions, p0, adds[..i], adds)
    {
      OuterStep(MergeModel.Additions, p0, adds, i);
      p := AdditionRow(p, adds[i], adds);
    }
    assert adds[..|adds|] == adds;
  }

  /** Its inner loop: `delta1` against every addition, with both lists and
      the `deletedFirst` flag as they stand. */
  method AdditionRow(p0: MergeModel.Pass, delta1: Delta, adds: seq<Delta>) returns (p: MergeModel.Pass)
    ensures p == MergeModel.Inner(MergeModel.Additions, p0, delta1, adds)
  {
    var filtered, copy, deletedFirst := p0.filtered, p0.copy, p0.deletedFirst;
    for j := 0 to |adds|
      invariant MergeModel.Pass(filtered, copy, deletedFirst) == MergeModel.Inner(MergeModel.Additions, p0, delta1, adds[..j])
    {
      var delta2 := adds[j];
      assert adds[..j + 1][..j] == adds[..j];
      if delta1 == delta2 || !delta1.changeType.ADD? || !delta2.changeType.ADD? {
        continue;
      }
      var path1 := MergeModel.Root(delta1.newPath);
      var path2 := MergeModel.Root(delta2.newPath);
      if path1 == path2 && !deletedFirst {
        filtered := MergeModel.RemoveFirst(filtered, delta1);
        deletedFirst := true;
        continue;
      }
      if MergeModel.Below(path1, path2) {
        copy := MergeModel.RemoveFirst(copy, delta2);
      } else if MergeModel.Below(path2, path1) {
        copy := MergeModel.RemoveFirst(copy, delta1);
      }
    }
    assert adds[..|adds|] == adds;
    p := MergeModel.Pass(filtered, copy, deletedFirst);
  }

  /** The second pair loop, over the deletions. */
  method DeletionPairs(p0: MergeModel.Pass, dels: seq<Delta>) returns (p: MergeModel.Pass)
    ensures p == MergeModel.Outer(MergeModel.Deletions, p0, dels, dels)
  {
    p := p0;
    for i := 0 to |dels|
      invariant p == MergeModel.Outer(MergeModel.Deletions, p0, dels[..i], dels)
    {
      OuterStep(MergeModel.Deletions, p0, dels, i);
      p := DeletionRow(p, dels[i], dels);
    }
    assert dels[..|dels|] == dels;
  }

  /** The candidates, then the addition pass, then the deletion pass. */
  method FilterBuildChanges(ms: seq<M.Service>, changes: seq<Delta>) returns (r: seq<Delta>)
    ensures r == MergeModel.FilterBuildDeltas(ms, changes)
  {
    var filtered := MergeModel.Candidates(ms, changes);
    var adds := MergeModel.Adds(filtered);
    var a := AdditionPairs(MergeModel.Pass(filtered, filtered, false), adds);
    var dels := MergeModel.Dels(a.filtered);
    var b := DeletionPairs(a.(deletedFirst := false), dels);
    r := b.copy;
    MergeModel.FilterBuildDeltasSteps(ms, changes, a, b);
  }

  /** Its inner loop: the first of two deletions in one directory leaves
      the copy. */
  method DeletionRow(p0: MergeModel.Pass, delta1: Delta, dels: seq<Delta>) returns (p: MergeModel.Pass)
    ensures p == MergeModel.Inner(MergeModel.Deletions, p0, delta1, dels)
  {
    var copy, deletedFirst := p0.copy, p0.deletedFirst;
    for j := 0 to |dels|
      invariant MergeModel.Pass(p0.filtered, copy, deletedFirst) == MergeModel.Inner(MergeModel.Deletions, p0, delta1, dels[..j])
    {
      var delta2 := dels[j];
      assert dels[..j + 1][..j] == dels[..j];
      var path1 := MergeModel.Root(delta1.oldPath);
      var path2 := MergeModel.Root(delta2.oldPath);
      if path1 == path2 && delta1.oldPath != delta2.oldPath && !deletedFirst {
        copy := MergeModel.RemoveFirst(copy, delta1);
        deletedFirst := true;
      }
    }
    assert dels[..|dels|] == dels;
    p := MergeModel.Pass(p0.filtered, copy, deletedFirst);
  }

  /** Retiring, then joining, is `Supersede`. */
  lemma SupersedeSteps(st0: S.SystemState, st1: S.SystemState, st2: S.SystemState, root: string, tokens: seq<string>, k: Option<nat>)
    requires k.None? || k.value < |st0.microservices|
    requires st1 == if k.Some? then MergeModel.Retire(st0, k.value) else st0
    requires |tokens| >= 2 && st2 == MergeModel.Join(st1, tokens[|tokens| - 2], root)
    ensures MergeModel.Supersede(st0, root, tokens, k) == Done(st2)
  {
  }

  /** Without a second-to-last path token, `Supersede` throws. */
  lemma SupersedeShort(st0: S.SystemState, root: string, tokens: seq<string>, k: Option<nat>)
    requires k.None? || k.value < |st0.microservices|
    requires |tokens| < 2
    ensures Status(MergeModel.Supersede(st0, root, tokens, k)) == Throws(MergeModel.AIOOBE)
  {
  }

  /** Dropping the first equal service, then orphanizing it, is `Retire`. */
  lemma RetireSteps(st0: S.SystemState, st1: S.SystemState, st2: S.SystemState, k: nat)
    requires k < |st0.microservices|
    requires st1 == st0.(microservices := MergeModel.RemoveFirst(st0.microservices, st0.microservices[k]))
    requires st2 == st1.(orphans := S.Orphanize(st1.orphans, st0.microservices[k]))
    ensures st2 == MergeModel.Retire(st0, k)
  {
  }

  /** What the objects left around position `j` hold. */
  lemma StatesRemoveAt(objs: seq<Microservice>, j: nat)
    requires j < |objs|
    ensures States(objs[..j] + objs[j + 1..]) == States(objs)[..j] + States(objs)[j + 1..]
  {
    var rest := objs[..j] + objs[j + 1..];
    var l, r := States(rest), States(objs)[..j] + States(objs)[j + 1..];
    forall i | 0 <= i < |l| ensures l[i] == r[i] {
      RemovedAt(objs, j, i);
      RemovedAt(States(objs), j, i);
    }
    PointwiseEqual(l, r);
  }

  /** What a concatenation of objects holds. */
  lemma StatesConcat(a: seq<Microservice>, b: seq<Microservice>)
    ensures States(a + b) == States(a) + States(b)
  {
    assert forall i :: 0 <= i < |a| ==> (a + b)[i] == a[i];
    assert forall i :: |a| <= i < |a| + |b| ==> (a + b)[i] == b[i - |a|];
  }

  /** Dropping an object keeps the others distinct and adds none. */
  lemma DistinctRemoveAt(objs: seq<Microservice>, j: nat)
    requires j < |objs| && DistinctObjects(objs)
    ensures DistinctObjects(objs[..j] + objs[j + 1..])
    ensures forall m :: m in objs[..j] + objs[j + 1..] ==> m in objs
  {
    var r := objs[..j] + objs[j + 1..];
    DistinctObjectsSpec(objs);
    DistinctObjectsSpec(r);
    forall a, b | 0 <= a < b < |r| ensures r[a] != r[b] {
      var a' := if a < j then a else a + 1;
      var b' := if b < j then b else b + 1;
      assert r[a] == objs[a'] && r[b] == objs[b'];
    }
    forall m | m in r ensures m in objs {
      var i :| 0 <= i < |r| && r[i] == m;
      assert r[i] == objs[if i < j then i else i + 1];
    }
  }

  /** What a list with one more object holds. */
  lemma StatesAppend(objs: seq<Microservice>, m: Microservice)
    ensures States(objs + [m]) == States(objs) + [m.State()]
  {
    var l, r := States(objs + [m]), States(objs) + [m.State()];
    forall i | 0 <= i < |l| ensures l[i] == r[i] {
      assert (objs + [m])[i] == if i < |objs| then objs[i] else m;
    }
    PointwiseEqual(l, r);
  }

  class MergeService {
    /** The IR being merged. */
    const system: MicroserviceSystem
    /** The change list to the next commit. */
    const systemChange: SystemChange

    constructor(system: MicroserviceSystem, systemChange: SystemChange)
      ensures this.system == system && this.systemChange == systemChange
    {
      this.system := system;
      this.systemChange := systemChange;
    }

    /** `generateMergeIR`: with no change list the IR stays as it is;
        otherwise the microservices are reshaped, every change is applied,
        and the IR moves to the new commit. */
    method GenerateMergeIR() returns (status: Outcome<()>)
      requires system.Distinct()
      modifies system, system.Objects()
      ensures status == Status(MergeModel.GenerateMergeIR(old(system.State()), systemChange))
      ensures status.Done? ==> system.State() == MergeModel.GenerateMergeIR(old(system.State()), systemChange).value
    {
      if systemChange.changes.None? {
        return Done(());
      }
      ghost var st0 := system.State();
      status := UpdateMicroservices();
      if !status.Done? {
        return;
      }
      ghost var st1 := system.State();
      status := ApplyChanges(systemChange.changes.value);
      if !status.Done? {
        return;
      }
      ghost var st2 := system.State();
      assert MergeModel.GenerateMergeIR(st0, systemChange) == Done(st2.(commitID := systemChange.newCommit));
      Stamp(systemChange.newCommit);
    }

    /** Moves the IR to a commit, leaving everything else as it is. */
    method Stamp(commit: string)
      modifies system
      ensures system.State() == old(system.State()).(commitID := commit)
      ensures system.microservices == old(system.microservices)
    {
      ghost var sts := States(system.microservices);
      system.commitID := commit;
      assert States(system.microservices) == sts;
    }

    /** The loop of `generateMergeIR` over the change list. */
    method ApplyChanges(changes: seq<Delta>) returns (status: Outcome<()>)
      requires system.Distinct()
      modifies system, system.Objects()
      ensures status == Status(MergeModel.ApplyAll(old(system.State()), changes))
      ensures status.Done? ==> system.State() == MergeModel.ApplyAll(old(system.State()), changes).value
      ensures system.microservices == old(system.microservices)
    {
      ghost var st0 := system.State();
      for i := 0 to |changes|
        invariant MergeModel.ApplyAll(st0, changes) == MergeModel.ApplyAll(system.State(), changes[i..])
        invariant system.microservices == old(system.microservices)
      {
        DropNext(changes, i);
        status := ApplyDelta(changes[i]);
        if !status.Done? {
          return;
        }
      }
      assert changes[|changes|..] == [];
      return Done(());
    }

    /** One change: an addition adds, a modification removes and adds
        again, a deletion removes. */
    method ApplyDelta(d: Delta) returns (status: Outcome<()>)
      requires system.Distinct()
      modifies system, system.Objects()
      ensures status == Status(MergeModel.ApplyDelta(old(system.State()), d))
      ensures status.Done? ==> system.State() == MergeModel.ApplyDelta(old(system.State()), d).value
      ensures system.microservices == old(system.microservices)
    {
      match d.changeType {
        case ADD =>
          status := AddFile(d);
        case MODIFY =>
          RemoveFile(d);
          status := AddFile(d);
        case DELETE =>
          RemoveFile(d);
          status := Done(());
      }
    }

    /** `filterBuildDeltas`: the three `removeIf` calls, then the two pair
        loops; the copy is what the method returns. */
    method FilterBuildDeltas() returns (r: seq<Delta>)
      requires systemChange.changes.Some?
      ensures r == MergeModel.FilterBuildDeltas(States(system.microservices), systemChange.changes.value)
    {
      r := FilterBuildChanges(States(system.microservices), systemChange.changes.value);
    }

    /** `updateMicroservices`: the build changes, chosen before the first of
        them applies, reshape the system one after the other; the first
        exception ends the loop. */
    method UpdateMicroservices() returns (status: Outcome<()>)
      requires systemChange.changes.Some? && system.Distinct()
      modifies system
      ensures status == Status(MergeModel.UpdateMicroservices(old(system.State()), systemChange.changes.value))
      ensures status.Done? ==>
        system.State() == MergeModel.UpdateMicroservices(old(system.State()), systemChange.changes.value).value
      ensures system.Distinct() && fresh(system.Objects() - old(system.Objects()))
    {
      var buildDeltas := FilterBuildDeltas();
      if |buildDeltas| == 0 {
        return Done(());
      }
      ghost var st0 := system.State();
      for i := 0 to |buildDeltas|
        invariant MergeModel.TopologyAll(st0, buildDeltas) == MergeModel.TopologyAll(system.State(), buildDeltas[i..])
        invariant system.Distinct() && fresh(system.Objects() - old(system.Objects()))
      {
        ghost var s := system.State();
        DropNext(buildDeltas, i);
        status := TopologyStep(buildDeltas[i]);
        if !status.Done? {
          return;
        }
      }
      assert buildDeltas[|buildDeltas|..] == [];
      return Done(());
    }

    /** One build change: an addition may add a service, a deletion
        retires one. */
    method TopologyStep(d: Delta) returns (status: Outcome<()>)
      requires system.Distinct()
      modifies system
      ensures status == Status(MergeModel.TopologyStep(old(system.State()), d))
      ensures status.Done? ==> system.State() == MergeModel.TopologyStep(old(system.State()), d).value
      ensures system.Distinct() && fresh(system.Objects() - old(system.Objects()))
    {
      var path := if d.oldPath == MergeModel.DEV_NULL then d.newPath else d.oldPath;
      var tokens := Split(path, '/');
      if d.changeType.ADD? {
        status := AddService(d.newPath, tokens);
      } else if d.changeType.DELETE? {
        status := DeleteService(d.oldPath);
      } else {
        status := Done(());
      }
    }

    /** The ADD case. */
    method AddService(newPath: string, tokens: seq<string>) returns (status: Outcome<()>)
      requires system.Distinct()
      modifies system
      ensures status == Status(MergeModel.AddService(old(system.State()), newPath, tokens))
      ensures status.Done? ==> system.State() == MergeModel.AddService(old(system.State()), newPath, tokens).value
      ensures system.Distinct() && fresh(system.Objects() - old(system.Objects()))
    {
      var root := MergeModel.Root(newPath);
      var skip, remove, k := ScanServices(root);
      if skip {
        return Done(());
      }
      status := ReplaceService(root, tokens, remove, k);
    }

    /** The ADD case once the scan is through. */
    method ReplaceService(root: string, tokens: seq<string>, remove: Microservice?, ghost k: Option<nat>) returns (status: Outcome<()>)
      requires system.Distinct()
      requires k.None? ==> remove == null
      requires k.Some? ==> k.value < |system.microservices| && remove == system.microservices[k.value]
      modifies system
      ensures status == Status(MergeModel.Supersede(old(system.State()), root, tokens, k))
      ensures status.Done? ==> system.State() == MergeModel.Supersede(old(system.State()), root, tokens, k).value
      ensures system.Distinct() && fresh(system.Objects() - old(system.Objects()))
    {
      ghost var st0 := system.State();
      if remove != null {
        RetireObject(remove, k.value);
      }
      ghost var st1 := system.State();
      if |tokens| < 2 {
        SupersedeShort(st0, root, tokens, k);
        return Throws(MergeModel.AIOOBE);
      }
      JoinNew(tokens[|tokens| - 2], root);
      SupersedeSteps(st0, st1, system.State(), root, tokens, k);
      return Done(());
    }

    /** The scan of the ADD case over the services: a service below the
        new directory ends it, and the last service the new directory lies
        below is the one to remove. */
    method ScanServices(root: string) returns (skip: bool, remove: Microservice?, ghost k: Option<nat>)
      ensures skip <==> MergeModel.ScanFrom(States(system.microservices), root, 0, None).Skip?
      ensures !skip ==> MergeModel.ScanFrom(States(system.microservices), root, 0, None) == MergeModel.Proceed(k)
      ensures k.None? ==> remove == null
      ensures k.Some? ==> k.value < |system.microservices| && remove == system.microservices[k.value]
    {
      var found;
      skip, found := ScanPaths(States(system.microservices), root);
      k := found;
      remove := if found.Some? then system.microservices[found.value] else null;
    }

    /** `getMicroservices().remove(s)` followed by `orphanize(s)`: the set
        drops the first service equal to `s`. */
    method RetireObject(target: Microservice, ghost k: nat)
      requires system.Distinct() && k < |system.microservices| && system.microservices[k] == target
      modifies system
      ensures system.State() == MergeModel.Retire(old(system.State()), k)
      ensures system.Distinct() && system.Objects() <= old(system.Objects())
    {
      ghost var st0 := system.State();
      RemoveEqual(target, k);
      ghost var st1 := system.State();
      OrphanizeState(target);
      RetireSteps(st0, st1, system.State(), k);
    }

    /** `getMicroservices().remove(s)`: the first service equal to `s` goes. */
    method RemoveEqual(target: Microservice, ghost k: nat)
      requires system.Distinct() && k < |system.microservices| && system.microservices[k] == target
      modifies system
      ensures system.State() == old(system.State()).(microservices := MergeModel.RemoveFirst(old(States(system.microservices)), old(target.State())))
      ensures system.Distinct() && system.Objects() <= old(system.Objects())
    {
      var j := FirstEqual(target, k);
      MergeModel.RemoveFirstAt(States(system.microservices), target.State(), j);
      DropAt(j);
    }

    /** The set without the object at `j`. */
    method DropAt(j: nat)
      requires system.Distinct() && j < |system.microservices|
      modifies system
      ensures system.State() == old(system.State()).(microservices := old(States(system.microservices))[..j] + old(States(system.microservices))[j + 1..])
      ensures system.Distinct() && system.Objects() <= old(system.Objects())
    {
      var objs := system.microservices;
      StatesRemoveAt(objs, j);
      DistinctRemoveAt(objs, j);
      system.microservices := objs[..j] + objs[j + 1..];
    }

    /** `orphanize(s)`, on the system's value. */
    method OrphanizeState(target: Microservice)
      modifies system
      ensures system.State() == old(system.State()).(orphans := S.Orphanize(old(system.orphans), target.State()))
      ensures system.microservices == old(system.microservices)
    {
      system.Orphanize(target);
    }

    /** The first service that holds what `target`, at `k`, holds. */
    method FirstEqual(target: Microservice, ghost k: nat) returns (j: nat)
      requires k < |system.microservices| && system.microservices[k] == target
      ensures j <= k && States(system.microservices)[j] == target.State()
      ensures forall i :: 0 <= i < j ==> States(system.microservices)[i] != target.State()
    {
      var ms := system.microservices;
      j := 0;
      while ms[j].State() != target.State()
        invariant j <= k
        invariant forall i :: 0 <= i < j ==> ms[i].State() != target.State()
        decreases k - j
      {
        j := j + 1;
      }
    }

    /** The new service of the ADD case adopts from the pool and joins the
        set. */
    method JoinNew(name: string, root: string)
      requires system.Distinct()
      modifies system
      ensures system.State() == MergeModel.Join(old(system.State()), name, root)
      ensures system.Distinct() && fresh(system.Objects() - old(system.Objects()))
    {
      var m;
      ghost var a;
      m, a := NewAdopted(name, root);
      Append(m);
    }

    /** `new Microservice(name, path)` followed by `adopt`. */
    method NewAdopted(name: string, root: string) returns (m: Microservice, ghost a: S.Adoption)
      modifies system
      ensures a == S.Adopt(M.NewService(name, root), old(system.orphans))
      ensures fresh(m) && m.State() == a.service
      ensures system.State() == old(system.State()).(orphans := a.orphans)
      ensures system.microservices == old(system.microservices)
    {
      m := new Microservice(name, root);
      system.Adopt(m);
      a := S.Adoption(m.State(), system.orphans);
    }

    /** `getMicroservices().add(m)` for a service not yet in the set. */
    method Append(m: Microservice)
      requires system.Distinct() && m !in system.microservices
      modifies system
      ensures system.State() == old(system.State()).(microservices := old(system.State()).microservices + [m.State()])
      ensures system.Distinct() && system.Objects() == old(system.Objects()) + {m}
    {
      var objs := system.microservices;
      StatesAppend(objs, m);
      DistinctObjectsSnoc(objs, m);
      system.microservices := objs + [m];
      assert forall x :: x in objs + [m] <==> x in objs || x == m;
    }

    /** The DELETE case: the owner of the build file's directory is retired;
        with no owner, `orphanize(null)` throws. */
    method DeleteService(oldPath: string) returns (status: Outcome<()>)
      requires system.Distinct()
      modifies system
      ensures status == Status(MergeModel.DeleteService(old(system.State()), oldPath))
      ensures status.Done? ==> system.State() == MergeModel.DeleteService(old(system.State()), oldPath).value
      ensures system.Distinct() && system.Objects() <= old(system.Objects())
    {
      var ms := system.FindMicroserviceByPath(MergeModel.Root(oldPath));
      if ms == null {
        return Throws(NPE);
      }
      RetireObject(ms, S.FindMicroserviceByPath(States(system.microservices), MergeModel.Root(oldPath)).value);
      return Done(());
    }

    /** `addFile`: a payload that is neither a class nor a configuration
        file is skipped. */
    method AddFile(d: Delta) returns (status: Outcome<()>)
      requires system.Distinct()
      modifies system, system.Objects()
      ensures status == Status(MergeModel.AddFile(old(system.State()), d))
      ensures status.Done? ==> system.State() == MergeModel.AddFile(old(system.State()), d).value
      ensures system.microservices == old(system.microservices) && system.Distinct()
    {
      var c := GetClassChange(d);
      if !c.Done? {
        return Status(c);
      }
      if c.value.Some? {
        PlaceFile(d.newPath, ClassFile(c.value.value));
        return Done(());
      }
      var g := GetConfigChange(d);
      if !g.Done? {
        return Status(g);
      }
      if g.value.Some? {
        PlaceFile(d.newPath, ConfigEntry(g.value.value));
      }
      return Done(());
    }

    /** The rest of `addFile`, once the payload is known: into the owner of
        the path, else into the pool. The code asks for the class first in
        the pool branch and for the configuration file first in the owner
        branch; a class payload is never a configuration payload, so both
        come to the one file `f`. */
    method PlaceFile(path: string, f: ProjectFile)
      requires system.Distinct()
      modifies system, system.Objects()
      ensures system.State() == MergeModel.Place(old(system.State()), path, f)
      ensures system.microservices == old(system.microservices) && system.Distinct()
    {
      var ms := system.FindMicroserviceByPath(path);
      if ms == null {
        AddToPool(path, f);
      } else {
        AddToOwner(path, ms, S.FindMicroserviceByPath(States(system.microservices), path).value, f);
      }
    }

    /** The pool branch of `addFile`: no service owns the path. */
    method AddToPool(ghost path: string, f: ProjectFile)
      requires S.FindMicroserviceByPath(States(system.microservices), path).None?
      modifies system
      ensures system.State() == MergeModel.Place(old(system.State()), path, f)
      ensures system.microservices == old(system.microservices)
    {
      system.orphans := AddOrphan(system.orphans, f);
    }

    /** The owner branch of `addFile`: only the owner changes. */
    method AddToOwner(ghost path: string, ms: Microservice, ghost i: nat, f: ProjectFile)
      requires system.Distinct() && i < |system.microservices| && system.microservices[i] == ms
      requires S.FindMicroserviceByPath(States(system.microservices), path) == Some(i)
      modifies ms
      ensures system.State() == MergeModel.Place(old(system.State()), path, f)
    {
      ghost var before := States(system.microservices);
      DistinctObjectsSpec(system.microservices);
      if f.ConfigEntry? {
        ms.AddFile(f.config);
      } else {
        ms.AddJClass(f.jClass);
      }
      forall j | 0 <= j < |before| && j != i ensures States(system.microservices)[j] == before[j] {
        assert system.microservices[j] != ms;
      }
      UpdatedAt(before, States(system.microservices), i);
    }

    /** `removeFile`. */
    method RemoveFile(d: Delta)
      requires system.Distinct()
      modifies system, system.Objects()
      ensures system.State() == MergeModel.RemoveFile(old(system.State()), d)
      ensures system.microservices == old(system.microservices) && system.Distinct()
    {
      var ms := system.FindMicroserviceByPath(d.oldPath);
      if ms == null {
        ghost var st0 := system.State();
        RemoveOrphanByPath(d.oldPath);
        assert States(system.microservices) == st0.microservices;
        assert system.State() == st0.(orphans := system.orphans);
      } else {
        RemoveFromOwner(d, ms, S.FindMicroserviceByPath(States(system.microservices), d.oldPath).value);
      }
    }

    /** The owner branch of `removeFile`: only the owner changes. */
    method RemoveFromOwner(d: Delta, ms: Microservice, ghost i: nat)
      requires system.Distinct() && i < |system.microservices| && system.microservices[i] == ms
      requires S.FindMicroserviceByPath(States(system.microservices), d.oldPath) == Some(i)
      modifies ms
      ensures system.State() == MergeModel.RemoveFile(old(system.State()), d)
    {
      ghost var before := States(system.microservices);
      DistinctObjectsSpec(system.microservices);
      ms.RemoveProjectFile(d.oldPath);
      forall j | 0 <= j < |before| && j != i ensures States(system.microservices)[j] == before[j] {
        assert system.microservices[j] != ms;
      }
      UpdatedAt(before, States(system.microservices), i);
    }

    /** The pool branch of `removeFile`: the loop over the pool removes the
        first orphan with the path. */
    method RemoveOrphanByPath(path: string)
      modifies system
      ensures system.orphans == match S.FindFileByPath(old(system.orphans), path)
        case None => old(system.orphans)
        case Some(f) => RemoveOrphan(old(system.orphans), f)
      ensures system.microservices == old(system.microservices)
      ensures system.name == old(system.name) && system.commitID == old(system.commitID)
    {
      var i := OrphanIndex(path);
      if i < |system.orphans| {
        system.orphans := RemoveOrphan(system.orphans, system.orphans[i]);
      }
    }

    /** The loop of `removeFile` over the pool: the index of the first
        orphan with the path, or the pool's length when there is none. */
    method OrphanIndex(path: string) returns (i: nat)
      ensures i <= |system.orphans|
      ensures i < |system.orphans| ==> S.FindFileByPath(system.orphans, path) == Some(system.orphans[i])
      ensures i == |system.orphans| ==> S.FindFileByPath(system.orphans, path).None?
    {
      var orphans := system.orphans;
      i := 0;
      while i < |orphans| && orphans[i].Path() != path
        invariant i <= |orphans|
        invariant S.FindFileByPath(orphans, path) == S.FindFileByPath(orphans[i..], path)
      {
        DropNext(orphans, i);
        i := i + 1;
      }
      if i < |orphans| {
        assert orphans[i..][0] == orphans[i];
      } else {
        assert orphans[i..] == [];
      }
    }
  }
}
