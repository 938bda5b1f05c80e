/**
 * One change between two commits, as the delta stage records it: the two
 * git paths, the kind of change, and the changed file's JSON (empty for a
 * deletion or a file that did not parse). The payload is read back as a
 * class or as a configuration file according to its `fileType` member.
 */
module Deltas {
  import opened Wrappers
  import opened Outcomes
  import opened Json
  import opened Ir
  import opened Serialization

  datatype ChangeType = ADD | MODIFY | DELETE

  function ChangeTypeName(t: ChangeType): string {
    if t.ADD? then "ADD" else if t.MODIFY? then "MODIFY" else "DELETE"
  }

  function ParseChangeType(s: string): (r: Option<ChangeType>)
    ensures r.Some? ==> ChangeTypeName(r.value) == s
  {
    match s
    case "ADD" => Some(ADD)
    case "MODIFY" => Some(MODIFY)
    case "DELETE" => Some(ChangeType.DELETE)
    case _ => None
  }

  datatype Delta = Delta(oldPath: string, newPath: string, changeType: ChangeType, data: Object)

  /** The change between two commits; `None` is a change list that is null. */
  datatype SystemChange = SystemChange(oldCommit: string, newCommit: string, changes: Option<seq<Delta>>)

  /** Reads the payload as one kind of file: an empty payload is none, a
      payload of another `fileType` is none, a payload Gson cannot read is
      none; a `fileType` member that is missing or not a string is an error
      the caller sees. */
  function PayloadAs<T>(data: Object, fileType: string, decode: Object -> Outcome<T>): (r: Outcome<Option<T>>)
    ensures |data| == 0 ==> r == Done(None)
    ensures r.Done? && r.value.Some? ==> "fileType" in data && GetAsString(data["fileType"]) == Done(fileType)
    ensures r.Done? && r.value.Some? ==> FromJson(decode(data)) == Done(r.value.value)
    ensures |data| != 0 && "fileType" !in data ==> r == Throws(NPE)
  {
    if |data| == 0 then Done(None)
    else
      var t :- StringMember(data, "fileType");
      if t != fileType then Done(None)
      else match FromJson(decode(data))
        case Done(x) => Done(Some(x))
        case Diverges => Diverges
        case Throws(e) => if e == JSE then Done(None) else Throws(e)
  }

  /** A payload stamped with the expected type that decodes is read as that value. */
  lemma PayloadAsDecoded<T>(data: Object, fileType: string, decode: Object -> Outcome<T>, x: T)
    requires "fileType" in data && data["fileType"] == JStr(fileType) && decode(data) == Done(x)
    ensures PayloadAs(data, fileType, decode) == Done(Some(x))
  {
    assert |data| != 0 by { assert "fileType" in data.Keys; }
  }

  /** `Delta.getClassChange`. */
  function GetClassChange(d: Delta): Outcome<Option<JClass>> {
    PayloadAs(d.data, "JCLASS", DecodeJClass)
  }

  /** `Delta.getConfigChange`. */
  function GetConfigChange(d: Delta): Outcome<Option<ConfigFile>> {
    PayloadAs(d.data, "CONFIG", DecodeConfigFile)
  }

  /** An empty payload is neither a class nor a configuration file. */
  lemma EmptyPayloadIsNothing(d: Delta)
    requires |d.data| == 0
    ensures GetClassChange(d) == Done(None) && GetConfigChange(d) == Done(None)
  {
  }

  /** A payload is a class only under `fileType` JCLASS and a configuration
      file only under CONFIG, so never both. */
  lemma NeverBoth(d: Delta)
    ensures !(GetClassChange(d).Done? && GetClassChange(d).value.Some? &&
              GetConfigChange(d).Done? && GetConfigChange(d).value.Some?)
  {
  }

  /** A payload that Gson fails to read as a class is no class at all,
      rather than an error. */
  lemma SyntaxFailureIsNone(d: Delta)
    requires "fileType" in d.data && d.data["fileType"] == JStr("JCLASS")
    requires DecodeJClass(d.data) == Throws(JSE) || DecodeJClass(d.data) == Throws(ISE)
    ensures GetClassChange(d) == Done(None)
  {
  }

  /** The class the delta stage wrote into a payload is the class read back. */
  lemma ClassPayloadRoundTrip(d: Delta, c: JClass)
    requires JClassSets(c) && d.data == JClassToJson(c).members
    ensures GetClassChange(d) == Done(Some(c))
  {
    JClassRoundTrip(c);
    PayloadAsDecoded(d.data, "JCLASS", DecodeJClass, c);
  }

  /** So is the configuration file, which its constructor stamps CONFIG. */
  lemma ConfigPayloadRoundTrip(d: Delta, g: ConfigFile)
    requires g.fileType == CONFIG && d.data == ConfigFileToJson(g).members
    ensures GetConfigChange(d) == Done(Some(g))
  {
    assert DecodeConfigFile(d.data) == Done(g);
    PayloadAsDecoded(d.data, "CONFIG", DecodeConfigFile, g);
  }

  function DeltaObject(changeType: Json, oldPath: Json, newPath: Json, data: Json): (r: Object)
    ensures r.Keys == {"changeType", "oldPath", "newPath", "data"}
    ensures r["changeType"] == changeType && r["oldPath"] == oldPath && r["newPath"] == newPath && r["data"] == data
  {
    map["changeType" := changeType, "oldPath" := oldPath, "newPath" := newPath, "data" := data]
  }

  /** `Delta.toJsonObject`: the kind by its enum name, the two paths and the
      payload, and nothing else. */
  function DeltaToJson(d: Delta): (r: Json)
    ensures r.JObj? && r.members.Keys == {"changeType", "oldPath", "newPath", "data"}
    ensures r.members["changeType"] == JStr(ChangeTypeName(d.changeType))
    ensures r.members["data"] == JObj(d.data)
  {
    JObj(DeltaObject(JStr(ChangeTypeName(d.changeType)), JStr(d.oldPath), JStr(d.newPath), JObj(d.data)))
  }

  /** Gson's reflective decoding of a Delta, as a stored SystemChange is read. */
  function DecodeDelta(j: Json): Outcome<Delta> {
    if !j.JObj? then Throws(JSE)
    else
      var o := j.members;
      var oldPath :- GsonStringMember(o, "oldPath");
      var newPath :- GsonStringMember(o, "newPath");
      var name :- GsonStringMember(o, "changeType");
      var changeType :- match ParseChangeType(name) case Some(t) => Done(t) case None => Throws(JSE);
      var data :- if "data" in o && o["data"].JObj? then Done(o["data"].members) else Throws(JSE);
      Done(Delta(oldPath, newPath, changeType, data))
  }

  lemma DeltaRoundTrip(d: Delta)
    ensures DecodeDelta(DeltaToJson(d)) == Done(d)
  {
    assert ParseChangeType(ChangeTypeName(d.changeType)) == Some(d.changeType);
  }
}
