/**
 * The java.lang.String operations the library relies on, written out with
 * their Java semantics: literal all-occurrence `replace`, `indexOf` with -1
 * for "absent", `trim` on characters up to U+0020, and `split` on a single
 * character, which drops trailing empty strings.
 */
module JavaStrings {
  import opened Wrappers

  predicate StartsWith(s: string, p: string) {
    |p| <= |s| && s[..|p|] == p
  }

  predicate EndsWith(s: string, p: string) {
    |p| <= |s| && s[|s| - |p|..] == p
  }

  /** `p` occurs in `s` starting at index `i`. */
  predicate OccursAt(s: string, p: string, i: int) {
    0 <= i && i + |p| <= |s| && s[i..i + |p|] == p
  }

  /** First index at or after `from` where `p` occurs, or -1. */
  function IndexFrom(s: string, p: string, from: nat): (r: int)
    requires from <= |s|
    ensures r == -1 || (from <= r && OccursAt(s, p, r))
    ensures r == -1 ==> forall i :: from <= i <= |s| ==> !OccursAt(s, p, i)
    ensures r != -1 ==> forall i :: from <= i < r ==> !OccursAt(s, p, i)
    decreases |s| - from
  {
    if OccursAt(s, p, from) then from
    else if from == |s| then -1
    else IndexFrom(s, p, from + 1)
  }

  /** `s.indexOf(p)`. */
  function IndexOf(s: string, p: string): (r: int)
    ensures r == -1 || OccursAt(s, p, r)
    ensures r == -1 <==> forall i :: 0 <= i <= |s| ==> !OccursAt(s, p, i)
    ensures r != -1 ==> forall i :: 0 <= i < r ==> !OccursAt(s, p, i)
  {
    IndexFrom(s, p, 0)
  }

  /** `s.contains(p)`. */
  predicate Contains(s: string, p: string) {
    IndexOf(s, p) != -1
  }

  lemma ContainsAt(s: string, p: string, i: int)
    requires OccursAt(s, p, i)
    ensures Contains(s, p)
  {
  }

  /** A string contains each of its characters. */
  lemma ContainsChar(s: string, i: nat)
    requires i < |s|
    ensures Contains(s, [s[i]])
  {
    assert OccursAt(s, [s[i]], i);
  }

  /** `s.replace(target, replacement)` for a non-empty target: every
      occurrence, scanned left to right, without overlap. */
  function ReplaceNonEmpty(s: string, target: string, replacement: string): string
    requires |target| > 0
    decreases |s|
  {
    if |s| < |target| then s
    else if s[..|target|] == target then replacement + ReplaceNonEmpty(s[|target|..], target, replacement)
    else [s[0]] + ReplaceNonEmpty(s[1..], target, replacement)
  }

  /** `s.replace("", replacement)`: the replacement is inserted before every
      character and at the end. */
  function ReplaceEmpty(s: string, replacement: string): string
    decreases |s|
  {
    if s == [] then replacement else replacement + [s[0]] + ReplaceEmpty(s[1..], replacement)
  }

  /** `s.replace(target, replacement)`. */
  function Replace(s: string, target: string, replacement: string): string {
    if |target| == 0 then ReplaceEmpty(s, replacement) else ReplaceNonEmpty(s, target, replacement)
  }

  lemma {:induction false} ReplaceAbsent(s: string, target: string, replacement: string)
    requires |target| > 0
    requires !Contains(s, target)
    ensures Replace(s, target, replacement) == s
    decreases |s|
  {
    if |s| >= |target| {
      assert !OccursAt(s, target, 0);
      assert s[..|target|] != target;
      forall i | 0 <= i <= |s[1..]| ensures !OccursAt(s[1..], target, i) {
        assert !OccursAt(s, target, i + 1);
        if i + |target| <= |s[1..]| {
          assert s[1..][i..i + |target|] == s[i + 1..i + 1 + |target|];
        }
      }
      ReplaceAbsent(s[1..], target, replacement);
    }
  }

  lemma ReplacePrefix(t: string, u: string, replacement: string)
    requires |t| > 0
    ensures Replace(t + u, t, replacement) == replacement + Replace(u, t, replacement)
  {
    assert (t + u)[..|t|] == t;
    assert (t + u)[|t|..] == u;
  }

  /** Replacing one character by another is a character-wise map. */
  function MapChar(s: string, a: char, b: char): (r: string)
    ensures |r| == |s|
    ensures forall i :: 0 <= i < |s| ==> r[i] == (if s[i] == a then b else s[i])
  {
    if s == [] then [] else [if s[0] == a then b else s[0]] + MapChar(s[1..], a, b)
  }

  lemma {:induction false} ReplaceCharIsMap(s: string, a: char, b: char)
    ensures Replace(s, [a], [b]) == MapChar(s, a, b)
    decreases |s|
  {
    if |s| >= 1 {
      ReplaceCharIsMap(s[1..], a, b);
      assert s[..1] == [s[0]];
      assert s[1..] == s[|[a]|..];
    }
  }

  /** Characters that `String.trim` removes. */
  predicate IsTrimmed(c: char) { c <= ' ' }

  /** `s` without its leading trimmed characters. */
  function TrimStart(s: string): (r: string)
    ensures |r| <= |s|
    ensures r == [] || !IsTrimmed(r[0])
  {
    if s != [] && IsTrimmed(s[0]) then TrimStart(s[1..]) else s
  }

  /** `s` without its trailing trimmed characters. */
  function TrimEnd(s: string): (r: string)
    ensures |r| <= |s|
    ensures r == [] || (!IsTrimmed(r[|r| - 1]) && r[0] == s[0])
  {
    if s != [] && IsTrimmed(s[|s| - 1]) then TrimEnd(s[..|s| - 1]) else s
  }

  /** `s.trim()`. */
  function Trim(s: string): (r: string)
    ensures r == [] || (!IsTrimmed(r[0]) && !IsTrimmed(r[|r| - 1]))
  {
    TrimEnd(TrimStart(s))
  }

  /** `TrimStart` removes a prefix of trimmed characters. */
  lemma {:induction false} TrimStartSuffix(s: string)
    ensures TrimStart(s) == s[|s| - |TrimStart(s)|..]
    ensures forall i :: 0 <= i < |s| - |TrimStart(s)| ==> IsTrimmed(s[i])
  {
    if s != [] && IsTrimmed(s[0]) {
      TrimStartSuffix(s[1..]);
    }
  }

  /** `TrimEnd` removes a suffix of trimmed characters. */
  lemma {:induction false} TrimEndPrefix(s: string)
    ensures TrimEnd(s) == s[..|TrimEnd(s)|]
    ensures forall i :: |TrimEnd(s)| <= i < |s| ==> IsTrimmed(s[i])
  {
    if s != [] && IsTrimmed(s[|s| - 1]) {
      TrimEndPrefix(s[..|s| - 1]);
    }
  }

  /**
   * `trim` keeps the text between the first and the last character above
   * a space and removes only such characters around it.
   */
  lemma TrimSpec(s: string)
    ensures exists i, j ::
      (0 <= i <= j <= |s| && Trim(s) == s[i..j] &&
       (forall k :: 0 <= k < i ==> IsTrimmed(s[k])) && (forall k :: j <= k < |s| ==> IsTrimmed(s[k])))
  {
    var t := TrimStart(s);
    TrimStartSuffix(s);
    TrimEndPrefix(t);
    var i := |s| - |t|;
    var j := i + |Trim(s)|;
    assert Trim(s) == s[i..j];
    forall k | j <= k < |s| ensures IsTrimmed(s[k]) {
      assert s[k] == t[k - i];
    }
  }

  /** The pieces of `s` between occurrences of `c`, empty pieces included. */
  function Pieces(s: string, c: char): (r: seq<string>)
    ensures |r| >= 1
    ensures forall k :: 0 <= k < |r| ==> c !in r[k]
    decreases |s|
  {
    if c !in s then [s]
    else
      var i := FirstChar(s, c);
      [s[..i]] + Pieces(s[i + 1..], c)
  }

  /** Index of the first occurrence of `c` in `s`, which must have one. */
  function FirstChar(s: string, c: char): (i: nat)
    requires c in s
    ensures i < |s| && s[i] == c && c !in s[..i]
  {
    if s[0] == c then 0 else
      var k := FirstChar(s[1..], c);
      assert s[..k + 1] == [s[0]] + s[1..][..k];
      k + 1
  }

  function DropTrailingEmpty(parts: seq<string>): (r: seq<string>)
    ensures |r| <= |parts| && r == parts[..|r|]
    ensures r == [] || r[|r| - 1] != []
    ensures forall k :: |r| <= k < |parts| ==> parts[k] == []
  {
    if parts != [] && parts[|parts| - 1] == [] then DropTrailingEmpty(parts[..|parts| - 1]) else parts
  }

  /** `s.split(c)` for a delimiter that is a single plain character: no
      delimiter gives `[s]`; otherwise trailing empty pieces are dropped. */
  function Split(s: string, c: char): seq<string> {
    if c !in s then [s] else DropTrailingEmpty(Pieces(s, c))
  }

  /** `String.join(sep, parts)`. */
  function Join(parts: seq<string>, sep: string): string {
    if parts == [] then []
    else if |parts| == 1 then parts[0]
    else parts[0] + sep + Join(parts[1..], sep)
  }

  lemma {:induction false} JoinPieces(s: string, c: char)
    ensures Join(Pieces(s, c), [c]) == s
    decreases |s|
  {
    if c in s {
      var i := FirstChar(s, c);
      var rest := Pieces(s[i + 1..], c);
      PiecesUnfold(s, c);
      JoinCons(s[..i], rest, [c]);
      JoinPieces(s[i + 1..], c);
      SplitAround(s, i);
    }
  }

  lemma PiecesUnfold(s: string, c: char)
    requires c in s
    ensures Pieces(s, c) == [s[..FirstChar(s, c)]] + Pieces(s[FirstChar(s, c) + 1..], c)
  {
  }

  lemma JoinCons(x: string, parts: seq<string>, sep: string)
    requires parts != []
    ensures Join([x] + parts, sep) == x + sep + Join(parts, sep)
  {
    assert ([x] + parts)[1..] == parts;
  }

  function LowerChar(ch: char): char {
    if 'A' <= ch <= 'Z' then (ch as int - 'A' as int + 'a' as int) as char else ch
  }

  /** `s.toLowerCase()` restricted to ASCII letters. */
  function ToLower(s: string): (r: string)
    ensures |r| == |s|
    ensures forall i :: 0 <= i < |s| ==> r[i] == LowerChar(s[i])
  {
    if s == [] then [] else [LowerChar(s[0])] + ToLower(s[1..])
  }

  /** Remove every occurrence of one character. */
  function RemoveChar(s: string, c: char): (r: string)
    ensures c !in r
    ensures |r| <= |s|
  {
    if s == [] then [] else (if s[0] == c then [] else [s[0]]) + RemoveChar(s[1..], c)
  }

  /** Removing `c` from a `c`-free text followed by one `c` gives the text. */
  lemma {:induction false} RemoveCharLast(s: string, c: char)
    requires c !in s
    ensures RemoveChar(s + [c], c) == s
    decreases |s|
  {
    if s != [] {
      assert (s + [c])[1..] == s[1..] + [c];
      RemoveCharLast(s[1..], c);
    }
  }

  lemma {:induction false} RemoveCharIsReplace(s: string, c: char)
    ensures Replace(s, [c], "") == RemoveChar(s, c)
    decreases |s|
  {
    if |s| >= 1 {
      RemoveCharIsReplace(s[1..], c);
      assert s[..1] == [s[0]];
      assert s[1..] == s[|[c]|..];
    }
  }
}
