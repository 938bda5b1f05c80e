/**
 * The part of `GitService` that decides which raw diff entries count as
 * changes: a diff between two commits keeps an entry unless both of its
 * paths are Java files whose contents agree once comments and whitespace
 * are removed. Reading the trees of the two commits is outside the model:
 * the contents of a path in each commit are inputs.
 */
module Git {
  import opened JavaStrings
  import opened Wrappers

  /** JGit's `DiffEntry.ChangeType`. */
  datatype DiffKind = ADD | MODIFY | DELETE | RENAME | COPY

  /** The raw diff entry: its kind and its two git paths. */
  datatype DiffEntry = DiffEntry(changeType: DiffKind, oldPath: string, newPath: string)

  /** `\s` of Java's regular expressions: space, tab, newline, vertical
      tab, form feed, carriage return. */
  predicate IsSpace(c: char) {
    c == ' ' || c == '\t' || c == '\n' || c == '\U{000B}' || c == '\U{000C}' || c == '\r'
  }

  /** The characters `.` does not match. */
  predicate IsLineTerminator(c: char) {
    c == '\n' || c == '\r' || c == '\U{0085}' || c == '\U{2028}' || c == '\U{2029}'
  }

  /** The first line terminator at or after `i`, or the end. */
  function LineEnd(s: string, i: nat): (r: nat)
    requires i <= |s|
    ensures i <= r <= |s|
    ensures r < |s| ==> IsLineTerminator(s[r])
    ensures forall k :: i <= k < r ==> !IsLineTerminator(s[k])
    decreases |s| - i
  {
    if i == |s| || IsLineTerminator(s[i]) then i else LineEnd(s, i + 1)
  }

  /** The first `*` at or after `i` that is followed by `/`, or -1. */
  function CloseFrom(s: string, i: nat): (r: int)
    ensures r == -1 || (i <= r && r + 1 < |s| && s[r] == '*' && s[r + 1] == '/')
    ensures r == -1 ==> forall k :: i <= k && k + 1 < |s| ==> !(s[k] == '*' && s[k + 1] == '/')
    ensures r != -1 ==> forall k :: i <= k < r ==> !(s[k] == '*' && s[k + 1] == '/')
    decreases |s| - i
  {
    if i + 1 >= |s| then -1
    else if s[i] == '*' && s[i + 1] == '/' then i
    else CloseFrom(s, i + 1)
  }

  // `stripCommentsAndWhitespace`: the replace-all of a line comment, a
  // block comment or a whitespace run by nothing, scanned from the left.
  // At each position the alternatives are tried in their order: `//` up to
  // the next line terminator, then slash-star up to the first star-slash
  // after it, then whitespace; an unclosed slash-star is kept as text.
  function Strip(s: string): (r: string)
    ensures |r| <= |s|
    ensures forall i :: 0 <= i < |r| ==> !IsSpace(r[i])
    decreases |s|
  {
    if s == [] then []
    else if |s| >= 2 && s[0] == '/' && s[1] == '/' then Strip(s[LineEnd(s, 2)..])
    else if |s| >= 2 && s[0] == '/' && s[1] == '*' && CloseFrom(s, 2) != -1 then Strip(s[CloseFrom(s, 2) + 2..])
    else if IsSpace(s[0]) then Strip(s[1..])
    else [s[0]] + Strip(s[1..])
  }

  /** Text other than `/` and whitespace is kept as it is. */
  lemma StripKeeps(c: char, s: string)
    requires c != '/' && !IsSpace(c)
    ensures Strip([c] + s) == [c] + Strip(s)
  {
    assert ([c] + s)[1..] == s;
  }

  /** Leading whitespace makes no difference. */
  lemma {:induction false} StripLeadingSpace(w: string, s: string)
    requires forall i :: 0 <= i < |w| ==> IsSpace(w[i])
    ensures Strip(w + s) == Strip(s)
  {
    if w != [] {
      assert (w + s)[0] == w[0];
      assert (w + s)[1..] == w[1..] + s;
      StripLeadingSpace(w[1..], s);
    } else {
      assert w + s == s;
    }
  }

  /** A line comment ends at the end of its line, and the line break after
      it is whitespace. */
  lemma StripLineComment(t: string, s: string)
    requires forall i :: 0 <= i < |t| ==> !IsLineTerminator(t[i])
    ensures Strip("//" + t + "\n" + s) == Strip(s)
  {
    var x := "//" + t + "\n" + s;
    assert forall k :: 2 <= k < |t| + 2 ==> x[k] == t[k - 2];
    assert x[|t| + 2] == '\n';
    assert LineEnd(x, 2) == |t| + 2;
    assert x[|t| + 2..] == "\n" + s;
    assert ("\n" + s)[1..] == s;
  }

  /** A line comment that runs to the end of the text removes the rest. */
  lemma StripTrailingLineComment(t: string)
    requires forall i :: 0 <= i < |t| ==> !IsLineTerminator(t[i])
    ensures Strip("//" + t) == ""
  {
    var x := "//" + t;
    assert forall k :: 2 <= k < |x| ==> x[k] == t[k - 2];
    assert LineEnd(x, 2) == |x|;
  }

  /** A block comment is removed as a whole when its text holds no star-slash. */
  lemma StripBlockComment(t: string, s: string)
    requires !Contains(t, "*/")
    ensures Strip("/*" + t + "*/" + s) == Strip(s)
  {
    var x := "/*" + t + "*/" + s;
    assert forall k :: 2 <= k < |t| + 2 ==> x[k] == t[k - 2];
    assert x[|t| + 2] == '*' && x[|t| + 3] == '/';
    forall k | 2 <= k < |t| + 2
      ensures !(x[k] == '*' && x[k + 1] == '/')
    {
      if k + 1 < |t| + 2 && x[k] == '*' && x[k + 1] == '/' {
        assert t[k - 2..k] == "*/";
        ContainsAt(t, "*/", k - 2);
      }
    }
    assert CloseFrom(x, 2) == |t| + 2;
    assert x[|t| + 4..] == s;
  }

  /** `isCodeChange`, with the file contents of the two commits given: an
      entry that is not a Java file on either side always counts. */
  predicate IsCodeChange(e: DiffEntry, oldContent: string, newContent: string) {
    (!EndsWith(e.oldPath, ".java") && !EndsWith(e.newPath, ".java")) || Strip(oldContent) != Strip(newContent)
  }

  /** Only a Java entry whose stripped contents agree is not a change. */
  lemma IsCodeChangeSpec(e: DiffEntry, oldContent: string, newContent: string)
    ensures !IsCodeChange(e, oldContent, newContent) <==>
      (EndsWith(e.oldPath, ".java") || EndsWith(e.newPath, ".java")) && Strip(oldContent) == Strip(newContent)
  {
  }

  /** Re-indenting or commenting a Java file is not a change. */
  lemma CommentedEditIsNoChange(e: DiffEntry, w: string, t: string, s: string)
    requires EndsWith(e.newPath, ".java")
    requires forall i :: 0 <= i < |w| ==> IsSpace(w[i])
    requires !Contains(t, "*/")
    ensures !IsCodeChange(e, s, w + ("/*" + t + "*/" + s))
  {
    StripLeadingSpace(w, "/*" + t + "*/" + s);
    StripBlockComment(t, s);
  }

  /** The filter of `getDifferences`: the raw entries that are code
      changes, in their order; `oldContent`/`newContent` give a path's text
      in the old and the new commit. */
  function Differences(raw: seq<DiffEntry>, oldContent: string -> string, newContent: string -> string): (r: seq<DiffEntry>)
    ensures |r| <= |raw|
    ensures forall e :: e in r <==> e in raw && IsCodeChange(e, oldContent(e.oldPath), newContent(e.newPath))
  {
    if raw == [] then []
    else
      var e := raw[0];
      (if IsCodeChange(e, oldContent(e.oldPath), newContent(e.newPath)) then [e] else [])
        + Differences(raw[1..], oldContent, newContent)
  }

  /** The filter keeps the order: filtering a concatenation concatenates. */
  lemma {:induction false} DifferencesAppend(a: seq<DiffEntry>, b: seq<DiffEntry>, oldContent: string -> string, newContent: string -> string)
    ensures Differences(a + b, oldContent, newContent) == Differences(a, oldContent, newContent) + Differences(b, oldContent, newContent)
  {
    if a != [] {
      var e := a[0];
      var head := if IsCodeChange(e, oldContent(e.oldPath), newContent(e.newPath)) then [e] else [];
      AppendTail(a, b);
      assert Differences(a + b, oldContent, newContent) == head + Differences(a[1..] + b, oldContent, newContent);
      DifferencesAppend(a[1..], b, oldContent, newContent);
      Associative(head, Differences(a[1..], oldContent, newContent), Differences(b, oldContent, newContent));
    } else {
      assert a + b == b;
    }
  }
}
