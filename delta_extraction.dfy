/**
 * `DeltaExtractionService.processDelta`: the rules that turn the filtered
 * diff entries between two commits into the deltas of a system change.
 * Reading, cloning and resetting the repository are outside the model; the
 * two file parsers the service calls on the checked-out new commit are
 * inputs, applied to the local path of the git path they are given.
 */
module DeltaExtraction {
  import opened Wrappers
  import opened Outcomes
  import opened Json
  import opened Ir
  import opened JavaStrings
  import FileUtils
  import Serialization
  import G = Git
  import D = Deltas

  const DEV_NULL: string := "/dev/null"

  /**
   * What the service reads besides the diff: the separator and repository
   * name that locate a git path on disk, and the two parsers. A parser
   * answers `None` where the Java one returns null (for a configuration
   * file: also where its data is null).
   */
  datatype Setting = Setting(
    sep: string,
    repoName: string,
    readConfig: string -> Outcome<Option<ConfigFile>>,
    readClass: string -> Outcome<Option<JClass>>)

  // ------------------------------------------------------------ one entry

  /** The git path an entry is judged by: the new path of an addition, the
      old path of anything else. */
  function PathOf(e: G.DiffEntry): string {
    if e.changeType.ADD? then e.newPath else e.oldPath
  }

  /** The entries `processDelta` passes over in silence: the root manifest
      and any path `isValidFile` rejects. */
  predicate Skipped(e: G.DiffEntry) {
    PathOf(e) == "pom.xml" || !FileUtils.IsValidFile(PathOf(e))
  }

  /** The delta's two paths: a side that does not exist is `/dev/null`, a
      side that does is the git path under a leading separator. */
  function DeltaPaths(e: G.DiffEntry): (r: (string, string))
    ensures e.changeType.ADD? ==> r.0 == DEV_NULL
    ensures e.changeType.DELETE? ==> r.1 == DEV_NULL
    ensures !e.changeType.ADD? ==> r.0 == FileUtils.GIT_SEPARATOR + e.oldPath
    ensures !e.changeType.DELETE? ==> r.1 == FileUtils.GIT_SEPARATOR + e.newPath
  {
    if e.changeType.DELETE? then (FileUtils.GIT_SEPARATOR + e.oldPath, DEV_NULL)
    else if e.changeType.ADD? then (DEV_NULL, FileUtils.GIT_SEPARATOR + e.newPath)
    else (FileUtils.GIT_SEPARATOR + e.oldPath, FileUtils.GIT_SEPARATOR + e.newPath)
  }

  /** `ChangeType.fromDiffEntry`: the three kinds the delta model knows
      carry over by name; a rename or a copy is an illegal argument. */
  function FromDiffEntry(k: G.DiffKind): (r: Outcome<D.ChangeType>)
    ensures r.Done? <==> !(k.RENAME? || k.COPY?)
    ensures r.Done? ==> (r.value.ADD? <==> k.ADD?) && (r.value.MODIFY? <==> k.MODIFY?) && (r.value.DELETE? <==> k.DELETE?)
    ensures !r.Done? ==> r == Throws(Serialization.IAE)
  {
    match k
    case ADD => Done(D.ChangeType.ADD)
    case MODIFY => Done(D.ChangeType.MODIFY)
    case DELETE => Done(D.ChangeType.DELETE)
    case _ => Throws(Serialization.IAE)
  }

  /** `add`: the file at a git path of the new commit as JSON, parsed as a
      configuration file or as a class by its name, and empty when the
      parser gives nothing. */
  function Add(setting: Setting, path: string): (r: Outcome<Object>)
    ensures FileUtils.IsConfigurationFile(path) && setting.readConfig(FileUtils.GitPathToLocalPath(setting.sep, path, setting.repoName)) == Done(None)
      ==> r == Done(EmptyObject)
    ensures !FileUtils.IsConfigurationFile(path) && setting.readClass(FileUtils.GitPathToLocalPath(setting.sep, path, setting.repoName)) == Done(None)
      ==> r == Done(EmptyObject)
    ensures r.Done? && r.value != EmptyObject ==> "fileType" in r.value
  {
    var local := FileUtils.GitPathToLocalPath(setting.sep, path, setting.repoName);
    if FileUtils.IsConfigurationFile(path) then
      var f :- setting.readConfig(local);
      if f.None? then Done(EmptyObject) else Done(Serialization.ConfigFileToJson(f.value).members)
    else
      var c :- setting.readClass(local);
      if c.None? then Done(EmptyObject) else Done(Serialization.JClassToJson(c.value).members)
  }

  /** The payload by change type: ADD reads the new path, MODIFY the old
      path (both in the new commit), DELETE has none. */
  function Payload(setting: Setting, t: D.ChangeType, oldPath: string, newPath: string): Outcome<Object> {
    match t
    case ADD => Add(setting, newPath)
    case MODIFY => Add(setting, oldPath)
    case DELETE => Done(EmptyObject)
  }

  /** What one entry contributes: nothing when skipped, otherwise one delta,
      or the exception that ends the loop. */
  function Entry(setting: Setting, e: G.DiffEntry): Outcome<Option<D.Delta>> {
    if Skipped(e) then Done(None)
    else
      var t :- FromDiffEntry(e.changeType);
      var paths := DeltaPaths(e);
      var data :- Payload(setting, t, paths.0, paths.1);
      Done(Some(D.Delta(paths.0, paths.1, t, data)))
  }

  function OptionList(d: Option<D.Delta>): seq<D.Delta> {
    if d.Some? then [d.value] else []
  }

  // -------------------------------------------------------------- the loop

  /** What one pass of the loop does: the entry's outcome, and the change
      type it stores in the `changeType` field once past the skip rules and
      `fromDiffEntry` (none when it stores nothing). */
  datatype Pass = Pass(result: Outcome<Option<D.Delta>>, setsType: Option<D.ChangeType>)

  function PassOf(setting: Setting, e: G.DiffEntry): (p: Pass)
    ensures p.result == Entry(setting, e)
    ensures p.setsType.Some? <==> !Skipped(e) && !(e.changeType.RENAME? || e.changeType.COPY?)
  {
    var t := FromDiffEntry(e.changeType);
    Pass(Entry(setting, e), if Skipped(e) || !t.Done? then None else Some(t.value))
  }

  /** The passes of a list of entries, one each, in order. */
  function Passes(setting: Setting, entries: seq<G.DiffEntry>): (ps: seq<Pass>)
    ensures |ps| == |entries|
    ensures forall k :: 0 <= k < |ps| ==> ps[k] == PassOf(setting, entries[k])
  {
    if entries == [] then [] else [PassOf(setting, entries[0])] + Passes(setting, entries[1..])
  }

  /** The `changeType` field after a pass. */
  function After(p: Pass, before: Option<D.ChangeType>): Option<D.ChangeType> {
    if p.setsType.Some? then p.setsType else before
  }

  /** The whole loop: the deltas of every pass in order, or the first
      exception. */
  function Extract(ps: seq<Pass>): Outcome<seq<D.Delta>> {
    if ps == [] then Done([])
    else
      var d :- ps[0].result;
      var rest :- Extract(ps[1..]);
      Done(OptionList(d) + rest)
  }

  /** How a failed pass ends the loop. */
  function Stop(o: Outcome<Option<D.Delta>>): Outcome<()> {
    match o
    case Done(_) => Done(())
    case Diverges => Diverges
    case Throws(x) => Throws(x)
  }

  /** Where the loop leaves the service: how it ended, the deltas in the
      change list and the `changeType` field. */
  datatype State = State(ending: Outcome<()>, changes: seq<D.Delta>, changeType: Option<D.ChangeType>)

  /** The loop from a given `changeType`: an exception ends it and keeps
      the deltas appended before it. */
  function Run(ps: seq<Pass>, before: Option<D.ChangeType>): State {
    if ps == [] then State(Done(()), [], before)
    else if ps[0].result.Done? then
      var rest := Run(ps[1..], After(ps[0], before));
      rest.(changes := OptionList(ps[0].result.value) + rest.changes)
    else State(Stop(ps[0].result), [], After(ps[0], before))
  }

  /** The entries that produce a delta. */
  function Surviving(entries: seq<G.DiffEntry>): (r: seq<G.DiffEntry>)
    ensures forall e :: e in r <==> e in entries && !Skipped(e)
  {
    if entries == [] then []
    else (if Skipped(entries[0]) then [] else [entries[0]]) + Surviving(entries[1..])
  }

  /** How a run ends, without its value. */
  function Ending(o: Outcome<seq<D.Delta>>): Outcome<()> {
    match o
    case Done(_) => Done(())
    case Diverges => Diverges
    case Throws(x) => Throws(x)
  }

  // ------------------------------------------------------------ properties

  /** An entry produces nothing exactly when it is skipped; otherwise it
      produces a delta or the loop ends. */
  lemma SkipRule(setting: Setting, e: G.DiffEntry)
    ensures Entry(setting, e) == Done(None) <==> Skipped(e)
  {
  }

  /** The skip rules run before `fromDiffEntry`: a rename or copy of a
      skipped path is ignored, any other one ends the loop. */
  lemma UnknownKind(setting: Setting, e: G.DiffEntry)
    requires e.changeType.RENAME? || e.changeType.COPY?
    ensures Entry(setting, e) == (if Skipped(e) then Done(None) else Throws(Serialization.IAE))
  {
  }

  /** The delta of an entry: its kind, its paths and its payload. */
  lemma EntryDelta(setting: Setting, e: G.DiffEntry, d: D.Delta)
    requires Entry(setting, e) == Done(Some(d))
    ensures !Skipped(e)
    ensures e.changeType.ADD? ==>
      d.changeType.ADD? && d.oldPath == DEV_NULL && d.newPath == "/" + e.newPath && Add(setting, d.newPath) == Done(d.data)
    ensures e.changeType.MODIFY? ==>
      d.changeType.MODIFY? && d.oldPath == "/" + e.oldPath && d.newPath == "/" + e.newPath && Add(setting, d.oldPath) == Done(d.data)
    ensures e.changeType.DELETE? ==>
      d.changeType.DELETE? && d.oldPath == "/" + e.oldPath && d.newPath == DEV_NULL && d.data == EmptyObject
    ensures !(e.changeType.RENAME? || e.changeType.COPY?)
  {
  }

  /** The loop finishes exactly when no pass fails. */
  lemma {:induction false} ExtractFinishes(ps: seq<Pass>)
    ensures Extract(ps).Done? <==> forall k :: 0 <= k < |ps| ==> ps[k].result.Done?
  {
    if ps != [] {
      ExtractFinishes(ps[1..]);
      assert forall k :: 1 <= k < |ps| ==> ps[k] == ps[1..][k - 1];
    }
  }

  /** The passes that deliver a delta. */
  function Kept(ps: seq<Pass>): seq<Pass> {
    if ps == [] then []
    else (if ps[0].result.Done? && ps[0].result.value.Some? then [ps[0]] else []) + Kept(ps[1..])
  }

  /** A finished loop returns the deltas of the delivering passes, in order. */
  lemma {:induction false} ExtractKept(ps: seq<Pass>)
    requires Extract(ps).Done?
    ensures |Extract(ps).value| == |Kept(ps)|
    ensures forall k :: 0 <= k < |Kept(ps)| ==> Kept(ps)[k].result == Done(Some(Extract(ps).value[k]))
  {
    if ps != [] {
      ExtractKept(ps[1..]);
    }
  }

  /** When no entry fails, the delivering passes are those of the
      surviving entries. */
  lemma {:induction false} KeptSurviving(setting: Setting, entries: seq<G.DiffEntry>)
    requires Extract(Passes(setting, entries)).Done?
    ensures Kept(Passes(setting, entries)) == Passes(setting, Surviving(entries))
  {
    if entries != [] {
      var ps := Passes(setting, entries);
      assert ps[1..] == Passes(setting, entries[1..]);
      KeptSurviving(setting, entries[1..]);
      SkipRule(setting, entries[0]);
      if Skipped(entries[0]) {
        assert Surviving(entries) == Surviving(entries[1..]);
      } else {
        assert Surviving(entries) == [entries[0]] + Surviving(entries[1..]);
        assert Surviving(entries)[1..] == Surviving(entries[1..]);
      }
    }
  }

  /** One delta per surviving entry, in input order. */
  lemma ExtractSurviving(setting: Setting, entries: seq<G.DiffEntry>)
    requires Extract(Passes(setting, entries)).Done?
    ensures |Extract(Passes(setting, entries)).value| == |Surviving(entries)|
    ensures forall k :: 0 <= k < |Surviving(entries)| ==>
      Entry(setting, Surviving(entries)[k]) == Done(Some(Extract(Passes(setting, entries)).value[k]))
  {
    ExtractKept(Passes(setting, entries));
    KeptSurviving(setting, entries);
  }

  /** The loop ends as `Extract` does, and a loop that finishes leaves in
      the change list exactly the deltas `Extract` returns. */
  lemma {:induction false} RunSpec(ps: seq<Pass>, before: Option<D.ChangeType>)
    ensures Run(ps, before).ending == Ending(Extract(ps))
    ensures Extract(ps).Done? ==> Run(ps, before).changes == Extract(ps).value
  {
    if ps != [] {
      RunSpec(ps[1..], After(ps[0], before));
    }
  }

  /** `run` is what is left of a loop after `changes`, continued by `rest`. */
  predicate Resumes(run: State, changes: seq<D.Delta>, rest: State) {
    run == rest.(changes := changes + rest.changes)
  }

  /** One pass of the loop at the level of values. */
  lemma Advances(ps: seq<Pass>, i: nat, before: Option<D.ChangeType>, run: State, changes: seq<D.Delta>)
    requires i < |ps|
    requires Resumes(run, changes, Run(ps[i..], before))
    ensures ps[i].result.Done? ==>
      Resumes(run, changes + OptionList(ps[i].result.value), Run(ps[i + 1..], After(ps[i], before)))
    ensures !ps[i].result.Done? ==> run == State(Stop(ps[i].result), changes, After(ps[i], before))
  {
    DropNext(ps, i);
    if ps[i].result.Done? {
      var rest := Run(ps[i + 1..], After(ps[i], before));
      assert changes + (OptionList(ps[i].result.value) + rest.changes) == (changes + OptionList(ps[i].result.value)) + rest.changes;
    } else {
      assert changes + [] == changes;
    }
  }

  // ------------------------------------------------------------ the class

  /** The service's state: the system change it builds and the change type
      of the entry in hand. */
  class DeltaExtractor {
    const commitOld: string
    const commitNew: string
    const setting: Setting
    var systemChange: Option<D.SystemChange>
    var changeType: Option<D.ChangeType>

    constructor(commitOld: string, commitNew: string, setting: Setting)
      ensures this.commitOld == commitOld && this.commitNew == commitNew && this.setting == setting
      ensures systemChange == None && changeType == None
    {
      this.commitOld := commitOld;
      this.commitNew := commitNew;
      this.setting := setting;
      systemChange := None;
      changeType := None;
    }

    /**
     * `processDelta`: a new system change between the two commits, one
     * delta appended per surviving entry; an exception ends the loop and
     * leaves the deltas appended so far.
     */
    method ProcessDelta(entries: seq<G.DiffEntry>) returns (ending: Outcome<()>)
      modifies this
      ensures var run := Run(Passes(setting, entries), old(changeType));
        ending == run.ending &&
        systemChange == Some(D.SystemChange(commitOld, commitNew, Some(run.changes))) &&
        changeType == run.changeType
    {
      ghost var ps := Passes(setting, entries);
      var changes: seq<D.Delta> := [];
      systemChange := Some(D.SystemChange(commitOld, commitNew, Some(changes)));
      ghost var run := Run(ps, changeType);
      assert ps[0..] == ps;
      for i := 0 to |entries|
        invariant systemChange == Some(D.SystemChange(commitOld, commitNew, Some(changes)))
        invariant Resumes(run, changes, Run(ps[i..], changeType))
      {
        var stop;
        changes, stop := Advance(entries, i, changes, run, ps[i..]);
        if stop.Some? {
          return stop.value;
        }
        assert ps[i..][1..] == ps[i + 1..];
      }
      assert ps[|entries|..] == [];
      assert changes + [] == changes;
      ending := Done(());
    }

    /** One pass of the loop: the entry's delta is appended, or the
        exception that ends the loop is returned. */
    method Advance(entries: seq<G.DiffEntry>, i: nat, changes: seq<D.Delta>, ghost run: State, ghost ps: seq<Pass>)
      returns (changes': seq<D.Delta>, stop: Option<Outcome<()>>)
      requires i < |entries| && ps != [] && ps[0] == PassOf(setting, entries[i])
      requires systemChange == Some(D.SystemChange(commitOld, commitNew, Some(changes)))
      requires Resumes(run, changes, Run(ps, changeType))
      modifies this
      ensures systemChange == Some(D.SystemChange(commitOld, commitNew, Some(changes')))
      ensures stop.None? ==> Resumes(run, changes', Run(ps[1..], changeType))
      ensures stop.Some? ==> run == State(stop.value, changes', changeType)
    {
      Advances(ps, 0, changeType, run, changes);
      assert ps[0..] == ps;
      var d := ProcessEntry(entries[i]);
      if !d.Done? {
        return changes, Some(Stop(d));
      }
      changes' := changes + OptionList(d.value);
      systemChange := Some(D.SystemChange(commitOld, commitNew, Some(changes')));
      stop := None;
    }

    /** The body of the loop for one entry: the skip rules, the paths, the
        kind, and the payload. */
    method ProcessEntry(e: G.DiffEntry) returns (r: Outcome<Option<D.Delta>>)
      modifies this
      ensures r == PassOf(setting, e).result
      ensures changeType == After(PassOf(setting, e), old(changeType))
      ensures systemChange == old(systemChange)
    {
      var path := if e.changeType.ADD? then e.newPath else e.oldPath;
      if path == "pom.xml" {
        return Done(None);
      }
      if !FileUtils.IsValidFile(path) {
        return Done(None);
      }
      var oldPath := "";
      var newPath := "";
      if e.changeType.DELETE? {
        oldPath := FileUtils.GIT_SEPARATOR + e.oldPath;
        newPath := DEV_NULL;
      } else if e.changeType.ADD? {
        oldPath := DEV_NULL;
        newPath := FileUtils.GIT_SEPARATOR + e.newPath;
      } else {
        oldPath := FileUtils.GIT_SEPARATOR + e.oldPath;
        newPath := FileUtils.GIT_SEPARATOR + e.newPath;
      }
      var t := FromDiffEntry(e.changeType);
      if !t.Done? {
        return Throws(t.exception);
      }
      changeType := Some(t.value);
      var data := Payload(setting, t.value, oldPath, newPath);
      if !data.Done? {
        return if data.Diverges? then Diverges else Throws(data.exception);
      }
      r := Done(Some(D.Delta(oldPath, newPath, t.value, data.value)));
    }

    /** `getSystemChange`. */
    function GetSystemChange(): (r: Option<D.SystemChange>)
      reads this
      ensures r == systemChange
    {
      systemChange
    }
  }

  /**
   * `create` after the repository work: the raw diff is filtered by
   * `getDifferences` and the surviving code changes become the deltas.
   */
  method Create(raw: seq<G.DiffEntry>, oldContent: string -> string, newContent: string -> string,
                commitOld: string, commitNew: string, setting: Setting) returns (r: Outcome<D.SystemChange>)
    ensures var ds := Extract(Passes(setting, G.Differences(raw, oldContent, newContent)));
      (r.Done? <==> ds.Done?) &&
      (r.Done? ==> r.value == D.SystemChange(commitOld, commitNew, Some(ds.value))) &&
      (r.Throws? <==> ds.Throws?) &&
      (r.Throws? ==> r.exception == ds.exception)
  {
    var differences := G.Differences(raw, oldContent, newContent);
    var service := new DeltaExtractor(commitOld, commitNew, setting);
    var ending := service.ProcessDelta(differences);
    RunSpec(Passes(setting, differences), None);
    match ending
    case Done(_) =>
      r := Done(service.GetSystemChange().value);
    case Diverges => r := Diverges;
    case Throws(x) => r := Throws(x);
  }
}
