/**
 * StringParserUtils: quote stripping and the `{name}` -> `{?}` rewrite of
 * endpoint URLs (`url.replaceAll("\\{[^{}]*\\}", "{?}")`), the latter written
 * as the left-to-right scan the regular expression performs.
 */
module StringParserUtils {

  function Quote(s: string): string { "\"" + s + "\"" }

  predicate IsQuoted(s: string) {
    |s| >= 2 && s[0] == '"' && s[|s| - 1] == '"'
  }

  /** `removeOuterQuotations`: one leading and one trailing `"` go, when
      both are there and the string has at least two characters. */
  function RemoveOuterQuotations(s: string): string {
    if IsQuoted(s) then s[1..|s| - 1] else s
  }

  lemma RemoveOuterQuotationsStrips(s: string)
    requires IsQuoted(s)
    ensures |RemoveOuterQuotations(s)| == |s| - 2
    ensures Quote(RemoveOuterQuotations(s)) == s
  {
    assert s == [s[0]] + s[1..|s| - 1] + [s[|s| - 1]];
  }

  lemma RemoveQuoteRoundTrip(x: string)
    ensures RemoveOuterQuotations(Quote(x)) == x
  {
    assert IsQuoted(Quote(x));
    assert Quote(x)[1..|Quote(x)| - 1] == x;
  }

  lemma RemoveOuterQuotationsKeeps(s: string)
    requires !IsQuoted(s)
    ensures RemoveOuterQuotations(s) == s
    ensures RemoveOuterQuotations("\"") == "\""
  {
  }

  predicate IsBrace(c: char) { c == '{' || c == '}' }

  predicate NoBraces(s: string) { forall i :: 0 <= i < |s| ==> !IsBrace(s[i]) }

  /** Index of the first `{` or `}` in `t`, or -1. */
  function NextBrace(t: string): (k: int)
    ensures -1 <= k < |t|
    ensures k >= 0 ==> IsBrace(t[k]) && NoBraces(t[..k])
    ensures k == -1 ==> NoBraces(t)
  {
    if t == [] then -1
    else if IsBrace(t[0]) then 0
    else
      var k := NextBrace(t[1..]);
      if k == -1 then -1 else
        assert t[..k + 1] == [t[0]] + t[1..][..k];
        k + 1
  }

  /** The first brace of `t`: none, an opening or a closing one. */
  datatype BraceKind = NoBrace | Open | Close

  function FirstBraceKind(t: string): BraceKind {
    var k := NextBrace(t);
    if k == -1 then NoBrace else if t[k] == '{' then Open else Close
  }

  /** `simplifyEndpointURL`: at each `{` whose next brace is a `}`, the whole
      group becomes `{?}`; every other character is copied. */
  function SimplifyEndpointURL(s: string): string
    decreases |s|
  {
    if s == [] then []
    else if s[0] == '{' then
      var k := NextBrace(s[1..]);
      if k >= 0 && s[1 + k] == '}' then "{?}" + SimplifyEndpointURL(s[k + 2..])
      else [s[0]] + SimplifyEndpointURL(s[1..])
    else [s[0]] + SimplifyEndpointURL(s[1..])
  }

  lemma {:induction false} SimplifyNoBraceUnchanged(s: string)
    requires '{' !in s
    ensures SimplifyEndpointURL(s) == s
    decreases |s|
  {
    if s != [] {
      assert s[0] != '{';
      SimplifyNoBraceUnchanged(s[1..]);
    }
  }

  /** A brace-free group after brace-free text is rewritten to `{?}`; the
      text before it and the structure after it are kept. */
  lemma {:induction false} SimplifyGroup(x: string, g: string, y: string)
    requires NoBraces(x) && NoBraces(g)
    ensures SimplifyEndpointURL(x + "{" + g + "}" + y) == x + "{?}" + SimplifyEndpointURL(y)
    decreases |x|
  {
    var s := x + "{" + g + "}" + y;
    if x == [] {
      assert s == "{" + g + "}" + y;
      assert s[1..] == g + "}" + y;
      assert (g + "}" + y)[..|g|] == g;
      assert NextBrace(s[1..]) == |g| by {
        NextBraceAfter(g, '}', y);
      }
      assert s[|g| + 2..] == y;
    } else {
      assert !IsBrace(x[0]);
      assert s[0] == x[0];
      assert s[1..] == x[1..] + "{" + g + "}" + y;
      SimplifyGroup(x[1..], g, y);
    }
  }

  lemma {:induction false} NextBraceAfter(g: string, c: char, y: string)
    requires NoBraces(g) && IsBrace(c)
    ensures NextBrace(g + [c] + y) == |g|
    decreases |g|
  {
    if g != [] {
      assert (g + [c] + y)[1..] == g[1..] + [c] + y;
      NextBraceAfter(g[1..], c, y);
    }
  }

  /** Simplification keeps the kind of the first brace. */
  lemma {:induction false} SimplifyKeepsFirstBrace(t: string)
    ensures FirstBraceKind(SimplifyEndpointURL(t)) == FirstBraceKind(t)
    decreases |t|
  {
    if t != [] {
      var r := SimplifyEndpointURL(t);
      if !IsBrace(t[0]) {
        SimplifyKeepsFirstBrace(t[1..]);
        assert r == [t[0]] + SimplifyEndpointURL(t[1..]);
        assert r[1..] == SimplifyEndpointURL(t[1..]);
        NextBraceSkip(t);
        NextBraceSkip(r);
      } else {
        assert r[0] == t[0];
      }
    }
  }

  lemma NextBraceSkip(t: string)
    requires t != [] && !IsBrace(t[0])
    ensures FirstBraceKind(t) == FirstBraceKind(t[1..])
  {
  }

  /** Simplifying an already simplified URL changes nothing. */
  lemma {:induction false} SimplifyIdempotent(s: string)
    ensures SimplifyEndpointURL(SimplifyEndpointURL(s)) == SimplifyEndpointURL(s)
    decreases |s|
  {
    if s != [] {
      var r := SimplifyEndpointURL(s);
      if s[0] == '{' {
        var k := NextBrace(s[1..]);
        if k >= 0 && s[1 + k] == '}' {
          var x := SimplifyEndpointURL(s[k + 2..]);
          assert r == "{?}" + x;
          SimplifyIdempotent(s[k + 2..]);
          SimplifyGroupHead(x);
        } else {
          var x := SimplifyEndpointURL(s[1..]);
          assert r == "{" + x;
          SimplifyIdempotent(s[1..]);
          SimplifyKeepsFirstBrace(s[1..]);
          SimplifyOpenHead(x);
        }
      } else {
        var x := SimplifyEndpointURL(s[1..]);
        assert r == [s[0]] + x;
        SimplifyIdempotent(s[1..]);
        SimplifyPlainHead(s[0], x);
      }
    }
  }

  lemma SimplifyGroupHead(x: string)
    ensures SimplifyEndpointURL("{?}" + x) == "{?}" + SimplifyEndpointURL(x)
  {
    var r := "{?}" + x;
    assert r[1..] == "?}" + x;
    assert NextBrace(r[1..]) == 1;
    assert r[3..] == x;
  }

  lemma SimplifyOpenHead(x: string)
    requires FirstBraceKind(x) != Close
    ensures SimplifyEndpointURL("{" + x) == "{" + SimplifyEndpointURL(x)
  {
    assert ("{" + x)[1..] == x;
  }

  lemma SimplifyPlainHead(c: char, x: string)
    requires c != '{'
    ensures SimplifyEndpointURL([c] + x) == [c] + SimplifyEndpointURL(x)
  {
    assert ([c] + x)[1..] == x;
  }
}
