/**
 * `NonJsonReadWriteUtils`: the readers that turn a Dockerfile and a Gradle
 * build script into a configuration file. Opening and reading the file is
 * outside the model: a reader is given the file's lines, or `None` when
 * reading failed, which the Java code answers with `null`.
 */
module NonJson {
  import opened Wrappers
  import opened Outcomes
  import opened Json
  import opened Ir
  import opened JavaStrings
  import FileUtils

  // The exceptions `java.util.Stack` and Gson's `getAsJsonArray` can raise.
  const ESE := "EmptyStackException"
  const CCE := "ClassCastException"

  // ------------------------------------------------------------ file names

  /** `new File(path).getName()`: the text after the last separator. */
  function BaseName(path: string, sep: char): (r: string)
    ensures |r| <= |path| && r == path[|path| - |r|..]
    ensures sep !in r
    ensures |r| < |path| ==> path[|path| - |r| - 1] == sep
  {
    if path == [] || path[|path| - 1] == sep then []
    else
      var r := BaseName(path[..|path| - 1], sep) + [path[|path| - 1]];
      assert path[..|path| - 1][|path| - |r|..] + [path[|path| - 1]] == path[|path| - |r|..];
      r
  }

  /** A name without separators is its own base name. */
  lemma {:induction false} BaseNameOfName(dir: string, name: string, sep: char)
    requires sep !in name
    ensures BaseName(dir + [sep] + name, sep) == name
  {
    var path := dir + [sep] + name;
    if name != [] {
      var init := name[..|name| - 1];
      assert path[..|path| - 1] == dir + [sep] + init;
      assert path[|path| - 1] == name[|name| - 1];
      BaseNameOfName(dir, init, sep);
      assert init + [name[|name| - 1]] == name;
    }
  }

  // ------------------------------------------------------------ Dockerfile

  /** The instructions of a Dockerfile: every line trimmed, blank lines
      included, in order. */
  function Instructions(lines: seq<string>): (r: seq<string>)
    ensures |r| == |lines|
    ensures forall k :: 0 <= k < |lines| ==> r[k] == Trim(lines[k])
  {
    if lines == [] then [] else Instructions(lines[..|lines| - 1]) + [Trim(lines[|lines| - 1])]
  }

  /** The configuration data of a Dockerfile. */
  function DockerData(lines: seq<string>): Object {
    map["instructions" := JArr(Strings(Instructions(lines)))]
  }

  /** The data holds one key, whose array has one string per line. */
  lemma DockerDataShape(lines: seq<string>)
    ensures DockerData(lines).Keys == {"instructions"}
    ensures DockerData(lines)["instructions"].JArr?
    ensures |DockerData(lines)["instructions"].items| == |lines|
    ensures forall k :: 0 <= k < |lines| ==> DockerData(lines)["instructions"].items[k] == JStr(Trim(lines[k]))
  {
  }

  /**
   * `readFromDocker`: `None` when the file could not be read; otherwise a
   * configuration file at the file's git path whose data is `DockerData`.
   */
  method ReadFromDocker(path: string, sep: char, repoName: string, lines: Option<seq<string>>) returns (r: Option<ConfigFile>)
    ensures lines.None? ==> r.None?
    ensures lines.Some? ==>
      r == Some(NewConfigFile(FileUtils.LocalPathToGitPath([sep], path, repoName), BaseName(path, sep), DockerData(lines.value), CONFIG))
  {
    if lines.None? {
      return None;
    }
    var ls := lines.value;
    var instructions: seq<string> := [];
    for i := 0 to |ls|
      invariant instructions == Instructions(ls[..i])
    {
      assert ls[..i + 1][..i] == ls[..i];
      instructions := instructions + [Trim(ls[i])];
    }
    assert ls[..|ls|] == ls;
    var jsonArray := ToJsonArray(instructions);
    var jsonObject := map["instructions" := JArr(jsonArray)];
    r := Some(NewConfigFile(FileUtils.LocalPathToGitPath([sep], path, repoName), BaseName(path, sep), jsonObject, CONFIG));
  }

  /** The loop of `readFromDocker` that fills the JSON array: one JSON string per instruction. */
  method ToJsonArray(instructions: seq<string>) returns (jsonArray: seq<Json>)
    ensures jsonArray == Strings(instructions)
  {
    jsonArray := [];
    for i := 0 to |instructions|
      invariant |jsonArray| == i
      invariant forall k :: 0 <= k < i ==> jsonArray[k] == JStr(instructions[k])
    {
      jsonArray := jsonArray + [JStr(instructions[i])];
    }
  }

  // ------------------------------------------------------------ Gradle script

  /**
   * An open block of a Gradle script: the key it was opened under and the
   * members written into it so far. The Java code puts the block's object
   * into its parent when the block opens and keeps filling it through the
   * stack; here a block is written into its parent when it closes, and the
   * blocks still open are written in at the end. The model takes the two to
   * build the same tree because the Java code writes only into the
   * innermost open block; the sharing of one object by the stack and the
   * tree is not itself modelled.
   */
  datatype Frame = Frame(key: string, members: Object)

  /**
   * The reader's state: the stack of open blocks (the root block first),
   * the members the root block had when a `}` closed it, and `currentKey`.
   */
  datatype Reader = Reader(stack: seq<Frame>, closed: Option<Object>, currentKey: Option<string>)

  /** The reader before the first line: only the root block is open. */
  function Start(): Reader {
    Reader([Frame("", EmptyObject)], None, None)
  }

  /** Either the root block is open, or it was closed and nothing is open
      and there is no current key. */
  predicate Valid(r: Reader) {
    (r.stack == [] <==> r.closed.Some?) && (r.stack == [] ==> r.currentKey.None?)
  }

  /** The innermost open block. */
  function Top(stack: seq<Frame>): Frame
    requires stack != []
  {
    stack[|stack| - 1]
  }

  /** `jsonStack.peek().add(key, value)`. */
  function Put(stack: seq<Frame>, key: string, value: Json): (r: seq<Frame>)
    requires stack != []
    ensures |r| == |stack|
  {
    stack[..|stack| - 1] + [Frame(Top(stack).key, Top(stack).members[key := value])]
  }

  /** `jsonStack.pop()` with at least two blocks open: the innermost block
      is written into its parent under its key. */
  function Pop(stack: seq<Frame>): (r: seq<Frame>)
    requires |stack| >= 2
    ensures |r| == |stack| - 1
  {
    var child := Top(stack);
    Put(stack[..|stack| - 1], child.key, JObj(child.members))
  }

  /** The root object as the Java code sees it: every open block written
      into its parent. */
  function Tree(stack: seq<Frame>): Object
    requires stack != []
    decreases |stack|
  {
    if |stack| == 1 then stack[0].members else Tree(Pop(stack))
  }

  /** The root object of a reader. */
  function Root(r: Reader): Object {
    if r.closed.Some? then r.closed.value
    else if r.stack == [] then EmptyObject
    else Tree(r.stack)
  }

  /** A line ending in `{` (the first branch of the read loop): the block opens under the
      trimmed text before the brace, which becomes the current key. */
  function Open(r: Reader, line: string): Outcome<Reader>
    requires line != []
  {
    if r.stack == [] then Throws(ESE)
    else
      var key := Trim(line[..|line| - 1]);
      Done(Reader(r.stack + [Frame(key, EmptyObject)], r.closed, Some(key)))
  }

  /** A `}` line (the second branch): the innermost block is popped. */
  function Close(r: Reader): Outcome<Reader> {
    if r.stack == [] then Throws(ESE)
    else if |r.stack| == 1 then Done(Reader([], Some(r.stack[0].members), None))
    else Done(Reader(Pop(r.stack), r.closed, None))
  }

  /** A line holding `=` (the third branch): split at the first `=`. */
  function SetProperty(r: Reader, line: string): Outcome<Reader>
    requires '=' in line
  {
    if r.stack == [] then Throws(ESE)
    else
      var i := FirstChar(line, '=');
      var value := MapChar(Trim(line[i + 1..]), '\'', '"');
      Done(r.(stack := Put(r.stack, Trim(line[..i]), JStr(value))))
  }

  /** Any other line (the last branch): appended to the current key's array. */
  function Append(r: Reader, line: string): Outcome<Reader> {
    if r.currentKey.None? then Done(r)
    else if r.stack == [] then Throws(ESE)
    else
      var key := r.currentKey.value;
      var top := Top(r.stack).members;
      if key !in top then Done(r.(stack := Put(r.stack, key, JArr([JStr(line)]))))
      else if top[key].JArr? then Done(r.(stack := Put(r.stack, key, JArr(top[key].items + [JStr(line)]))))
      else Throws(CCE)
  }

  /** One line of the read loop of `readFromGradle`. */
  function Step(r: Reader, raw: string): Outcome<Reader> {
    var line := Trim(raw);
    if line == [] then Done(r)
    else if EndsWith(line, "{") then Open(r, line)
    else if line == "}" then Close(r)
    else if '=' in line then SetProperty(r, line)
    else Append(r, line)
  }

  /** The lines one after the other; the first exception ends the read. */
  function Run(r: Reader, lines: seq<string>): Outcome<Reader>
    decreases |lines|
  {
    if lines == [] then Done(r)
    else
      var next :- Step(r, lines[0]);
      Run(next, lines[1..])
  }

  /** The configuration data of a Gradle script, or the exception that ends
      its reading. */
  function GradleData(lines: seq<string>): Outcome<Object> {
    var r :- Run(Start(), lines);
    Done(Root(r))
  }

  /**
   * `readFromGradle`: `None` when the file could not be read; otherwise
   * the exception that ended the read, or a configuration file at the
   * file's git path whose data is `GradleData`.
   */
  method ReadFromGradle(path: string, sep: char, repoName: string, lines: Option<seq<string>>)
    returns (r: Outcome<Option<ConfigFile>>)
    ensures lines.None? ==> r == Done(None)
    ensures lines.Some? ==> (r.Done? <==> GradleData(lines.value).Done?)
    ensures lines.Some? && r.Done? ==>
      r.value == Some(NewConfigFile(FileUtils.LocalPathToGitPath([sep], path, repoName), BaseName(path, sep), GradleData(lines.value).value, CONFIG))
    ensures lines.Some? && !r.Done? ==> r == GradleData(lines.value).PropagateFailure()
  {
    if lines.None? {
      return Done(None);
    }
    var ls := lines.value;
    var stack := [Frame("", EmptyObject)];
    var closed: Option<Object> := None;
    var currentKey: Option<string> := None;
    var i := 0;
    while i < |ls|
      invariant 0 <= i <= |ls|
      invariant Run(Start(), ls) == Run(Reader(stack, closed, currentKey), ls[i..])
    {
      var o := ReadLine(stack, closed, currentKey, ls[i]);
      DropNext(ls, i);
      if !o.Done? {
        return o.PropagateFailure();
      }
      stack, closed, currentKey := o.value.stack, o.value.closed, o.value.currentKey;
      i := i + 1;
    }
    var root := Root(Reader(stack, closed, currentKey));
    r := Done(Some(NewConfigFile(FileUtils.LocalPathToGitPath([sep], path, repoName), BaseName(path, sep), root, CONFIG)));
  }

  /** The body of the read loop for one line: the line is trimmed and its
      form picks the branch. */
  method ReadLine(stack: seq<Frame>, closed: Option<Object>, currentKey: Option<string>, raw: string)
    returns (o: Outcome<Reader>)
    ensures o == Step(Reader(stack, closed, currentKey), raw)
  {
    var line := Trim(raw);
    if line == [] {
      o := Done(Reader(stack, closed, currentKey));
    } else if EndsWith(line, "{") {
      o := ReadOpen(stack, closed, line);
    } else if line == "}" {
      o := ReadClose(stack, closed);
    } else if '=' in line {
      o := ReadProperty(stack, closed, currentKey, line);
    } else {
      o := ReadPlain(stack, closed, currentKey, line);
    }
  }

  /** The `endsWith("{")` branch of `readFromGradle`: peek, add the new object, push it. */
  method ReadOpen(stack: seq<Frame>, closed: Option<Object>, line: string) returns (o: Outcome<Reader>)
    requires line != []
    ensures forall currentKey :: o == Open(Reader(stack, closed, currentKey), line)
  {
    if stack == [] {
      return Throws(ESE);
    }
    var key := Trim(line[..|line| - 1]);
    var newObject := Frame(key, EmptyObject);
    return Done(Reader(stack + [newObject], closed, Some(key)));
  }

  /** The `equals("}")` branch: pop, and the current key is cleared. */
  method ReadClose(stack: seq<Frame>, closed: Option<Object>) returns (o: Outcome<Reader>)
    ensures forall currentKey :: o == Close(Reader(stack, closed, currentKey))
  {
    if stack == [] {
      return Throws(ESE);
    }
    if |stack| == 1 {
      return Done(Reader([], Some(stack[0].members), None));
    }
    return Done(Reader(Pop(stack), closed, None));
  }

  /** The `contains("=")` branch: `split("=", 2)` and `addProperty` on the innermost block. */
  method ReadProperty(stack: seq<Frame>, closed: Option<Object>, currentKey: Option<string>, line: string)
    returns (o: Outcome<Reader>)
    requires '=' in line
    ensures o == SetProperty(Reader(stack, closed, currentKey), line)
  {
    if stack == [] {
      return Throws(ESE);
    }
    var i := FirstChar(line, '=');
    var key := Trim(line[..i]);
    var value := MapChar(Trim(line[i + 1..]), '\'', '"');
    return Done(Reader(Put(stack, key, JStr(value)), closed, currentKey));
  }

  /** The final `else` branch: with a current key, the line joins that key's array. */
  method ReadPlain(stack: seq<Frame>, closed: Option<Object>, currentKey: Option<string>, line: string)
    returns (o: Outcome<Reader>)
    ensures o == Append(Reader(stack, closed, currentKey), line)
  {
    if currentKey.None? {
      return Done(Reader(stack, closed, currentKey));
    }
    if stack == [] {
      return Throws(ESE);
    }
    var key := currentKey.value;
    var top := Top(stack).members;
    var items: seq<Json> := [];
    if key in top {
      if !top[key].JArr? {
        return Throws(CCE);
      }
      items := top[key].items;
    }
    items := items + [JStr(line)];
    assert key !in top ==> items == [JStr(line)];
    return Done(Reader(Put(stack, key, JArr(items)), closed, currentKey));
  }

  // ------------------------------------------------------------ Gradle properties

  /** Blank lines change nothing. */
  lemma BlankLine(r: Reader, raw: string)
    requires Trim(raw) == []
    ensures Step(r, raw) == Done(r)
  {
  }

  /**
   * A line ending in `{` puts an empty object under the trimmed text before
   * the brace into the innermost block, opens that object as the innermost
   * block and makes the text the current key.
   */
  lemma OpenBlock(r: Reader, raw: string)
    requires Valid(r) && r.closed.None?
    requires EndsWith(Trim(raw), "{")
    ensures var line := Trim(raw);
      var key := Trim(line[..|line| - 1]);
      Step(r, raw).Done? &&
      |Step(r, raw).value.stack| == |r.stack| + 1 &&
      Top(Step(r, raw).value.stack) == Frame(key, EmptyObject) &&
      Step(r, raw).value.currentKey == Some(key) &&
      Root(Step(r, raw).value) == Tree(Put(r.stack, key, JObj(EmptyObject)))
  {
    var line := Trim(raw);
    assert Step(r, raw) == Open(r, line);
    var key := Trim(line[..|line| - 1]);
    var s := r.stack + [Frame(key, EmptyObject)];
    assert s[..|s| - 1] == r.stack;
    assert Pop(s) == Put(r.stack, key, JObj(EmptyObject));
  }

  /** A `}` inside a nested block closes it and clears the current key; the
      document does not change. */
  lemma CloseBlock(r: Reader, raw: string)
    requires Valid(r) && |r.stack| >= 2
    requires Trim(raw) == "}"
    ensures Step(r, raw) == Done(Reader(Pop(r.stack), None, None))
    ensures Root(Step(r, raw).value) == Root(r)
  {
    assert Step(r, raw) == Close(r);
  }

  /** A `}` at the outermost level closes the root block: the document is
      final from then on. */
  lemma CloseRoot(r: Reader, raw: string)
    requires Valid(r) && |r.stack| == 1
    requires Trim(raw) == "}"
    ensures Step(r, raw) == Done(Reader([], Some(Root(r)), None))
  {
    assert Step(r, raw) == Close(r);
  }

  /**
   * Once the root block is closed, a line that would touch the stack throws
   * `EmptyStackException`, and any other line is dropped.
   */
  lemma AfterRoot(r: Reader, raw: string)
    requires Valid(r) && r.closed.Some?
    ensures var line := Trim(raw);
      Step(r, raw) == (if line != [] && (EndsWith(line, "{") || line == "}" || '=' in line) then Throws(ESE) else Done(r))
  {
    var line := Trim(raw);
    if line == [] {
    } else if EndsWith(line, "{") {
      assert Step(r, raw) == Open(r, line);
    } else if line == "}" {
      assert Step(r, raw) == Close(r);
    } else if '=' in line {
      assert Step(r, raw) == SetProperty(r, line);
    } else {
      assert Step(r, raw) == Append(r, line);
    }
  }

  /**
   * A line `k=v` without a trailing brace sets the property named by the
   * trimmed text before its first `=` to the trimmed text after it, with
   * every single quote turned into a double quote.
   */
  lemma Property(r: Reader, raw: string, k: string, v: string)
    requires Valid(r) && r.closed.None?
    requires Trim(raw) == k + "=" + v && '=' !in k
    requires !EndsWith(Trim(raw), "{")
    ensures Step(r, raw) == Done(r.(stack := Put(r.stack, Trim(k), JStr(MapChar(Trim(v), '\'', '"')))))
  {
    var line := Trim(raw);
    assert line != "}" by {
      assert line[|k|] == '=';
    }
    assert '=' in line by {
      assert line[|k|] == '=';
    }
    assert Step(r, raw) == SetProperty(r, line);
    SplitAtFirst(r, k, v);
  }

  /** `split("=", 2)` cuts at the first `=`. */
  lemma SplitAtFirst(r: Reader, k: string, v: string)
    requires r.stack != [] && '=' !in k
    ensures SetProperty(r, k + "=" + v) == Done(r.(stack := Put(r.stack, Trim(k), JStr(MapChar(Trim(v), '\'', '"')))))
  {
    var line := k + "=" + v;
    assert line[|k|] == '=';
    var i := FirstChar(line, '=');
    assert line[..|k|] == k;
    assert i == |k|;
    assert line[..i] == k;
    assert line[i + 1..] == v;
  }

  /** Whether a trimmed line is one that neither opens, closes nor sets. */
  predicate IsPlain(line: string) {
    line != [] && !EndsWith(line, "{") && line != "}" && '=' !in line
  }

  /**
   * Any other line is dropped when there is no current key; otherwise it is
   * appended to the array under the current key in the innermost block, a
   * new array when the key is absent, and a key holding anything but an
   * array throws `ClassCastException`.
   */
  lemma PlainLine(r: Reader, raw: string)
    requires Valid(r)
    requires IsPlain(Trim(raw))
    ensures r.currentKey.None? ==> Step(r, raw) == Done(r)
    ensures r.currentKey.Some? ==> r.stack != []
    ensures r.currentKey.Some? ==>
      (var key := r.currentKey.value;
       var top := Top(r.stack).members;
       Step(r, raw) ==
         if key !in top then Done(r.(stack := Put(r.stack, key, JArr([JStr(Trim(raw))]))))
         else if top[key].JArr? then Done(r.(stack := Put(r.stack, key, JArr(top[key].items + [JStr(Trim(raw))]))))
         else Throws(CCE))
  {
    assert Step(r, raw) == Append(r, Trim(raw));
  }

  // Each branch keeps the reader valid and throws `EmptyStackException`
  // only once the root block is closed.

  lemma OpenSound(r: Reader, line: string)
    requires line != [] && Valid(r)
    ensures Open(r, line).Done? ==> Valid(Open(r, line).value)
    ensures Open(r, line) == Throws(ESE) ==> r.closed.Some?
  {
  }

  lemma CloseSound(r: Reader)
    requires Valid(r)
    ensures Close(r).Done? ==> Valid(Close(r).value)
    ensures Close(r) == Throws(ESE) ==> r.closed.Some?
  {
  }

  lemma SetSound(r: Reader, line: string)
    requires '=' in line && Valid(r)
    ensures SetProperty(r, line).Done? ==> Valid(SetProperty(r, line).value)
    ensures SetProperty(r, line) == Throws(ESE) ==> r.closed.Some?
  {
  }

  lemma AppendSound(r: Reader, line: string)
    requires Valid(r)
    ensures Append(r, line).Done? ==> Valid(Append(r, line).value)
    ensures Append(r, line) == Throws(ESE) ==> r.closed.Some?
  {
  }

  /**
   * A step that succeeds keeps the reader valid, only a `}` closes the root
   * block, and `EmptyStackException` happens only once it is closed.
   */
  lemma StepSound(r: Reader, raw: string)
    requires Valid(r)
    ensures Step(r, raw).Done? ==> Valid(Step(r, raw).value)
    ensures Step(r, raw).Done? && Step(r, raw).value.closed != r.closed ==> Trim(raw) == "}"
    ensures Step(r, raw) == Throws(ESE) ==> r.closed.Some?
  {
    var line := Trim(raw);
    if line == [] {
    } else if EndsWith(line, "{") {
      assert Step(r, raw) == Open(r, line);
      OpenSound(r, line);
    } else if line == "}" {
      assert Step(r, raw) == Close(r);
      CloseSound(r);
    } else if '=' in line {
      assert Step(r, raw) == SetProperty(r, line);
      SetSound(r, line);
    } else {
      assert Step(r, raw) == Append(r, line);
      AppendSound(r, line);
    }
  }

  /** Reading a script from the start keeps the reader valid and never
      diverges. */
  lemma {:induction false} RunValid(r: Reader, lines: seq<string>)
    requires Valid(r)
    ensures !Run(r, lines).Diverges?
    ensures Run(r, lines).Done? ==> Valid(Run(r, lines).value)
    decreases |lines|
  {
    if lines != [] {
      var o := Step(r, lines[0]);
      if o.Done? {
        StepSound(r, lines[0]);
        RunValid(o.value, lines[1..]);
      }
    }
  }

  /** A script whose reading throws `EmptyStackException` closed its root
      block before the line that threw. */
  lemma {:induction false} EmptyStackNeedsRootClose(r: Reader, lines: seq<string>)
    requires Valid(r) && r.closed.None?
    requires Run(r, lines) == Throws(ESE)
    ensures exists i :: 0 <= i < |lines| && Trim(lines[i]) == "}"
    decreases |lines|
  {
    var o := Step(r, lines[0]);
    StepSound(r, lines[0]);
    if o.Done? {
      if o.value.closed.Some? {
        assert Trim(lines[0]) == "}";
      } else {
        EmptyStackNeedsRootClose(o.value, lines[1..]);
        var i :| 0 <= i < |lines[1..]| && Trim(lines[1..][i]) == "}";
        assert lines[i + 1] == lines[1..][i];
      }
    }
  }
}
