/**
 * Cross-service matching: a method call against a method of the same
 * service (`MethodCall.matchMethod`), and a REST call against an endpoint of
 * another service (`RestCall.matchEndpoint` with its query-parameter check).
 */
module Matching {
  import opened Wrappers
  import opened Outcomes
  import opened Ir
  import opened JavaStrings

  /** `String.substring` past the end of the string. */
  const SIOOBE := "StringIndexOutOfBoundsException"

  /** `MethodCall.matchMethod`: same service, the call's receiver type is the
      method's class, and the names agree. */
  predicate MatchMethod(c: MethodCall, m: Method) {
    c.microserviceName == m.microserviceName && c.objectType == m.className && c.name == m.name
  }

  /** Matching looks at none of the call's package, caller, receiver name or
      argument text, nor at the method's parameters. */
  lemma MatchMethodIgnores(c: MethodCall, m: Method, pkg: string, calledFrom: string, objectName: string,
                           contents: string, params: seq<Parameter>)
    ensures MatchMethod(c.(packageAndClassName := pkg, calledFrom := calledFrom, objectName := objectName,
                           parameterContents := contents), m.(parameters := params)) == MatchMethod(c, m)
  {
  }

  // ------------------------------------------------------------ queries

  /** The index `matchEndpoint` takes as the start of the query: the first
      `?` after every `{?}` has been rewritten to the four letters `temp`. */
  function QueryIndex(url: string): (r: int)
    ensures r >= -1
  {
    IndexOf(Replace(url, "{?}", "temp"), "?")
  }

  /** `substring(0, queryParamIndex)` on the original URL, which fails when
      the index lies beyond its end. */
  function BaseURL(url: string, qi: int): (r: Outcome<string>)
    requires qi >= -1
    ensures qi == -1 ==> r == Done(url)
    ensures 0 <= qi <= |url| ==> r == Done(url[..qi])
    ensures qi > |url| ==> r == Throws(SIOOBE)
  {
    if qi == -1 then Done(url) else if qi <= |url| then Done(url[..qi]) else Throws(SIOOBE)
  }

  /** `substring(queryParamIndex + 1, length)`: the text after the query
      index, the whole URL when the index is -1. */
  function QueryTail(url: string, qi: int): (r: Outcome<string>)
    requires qi >= -1
    ensures qi + 1 <= |url| ==> r == Done(url[qi + 1..])
    ensures qi + 1 > |url| ==> r == Throws(SIOOBE)
  {
    if qi + 1 <= |url| then Done(url[qi + 1..]) else Throws(SIOOBE)
  }

  /** The query name a `RequestParam` annotation on parameter `p` expects:
      its `default` attribute, else its `name` attribute (unless it is
      marked `required="false"`, when the parameter is skipped), else the
      parameter's own name. */
  function ExpectedName(p: Parameter, a: Annotation): (r: Option<string>)
    ensures "default" in a.attributes ==> r == Some(a.attributes["default"])
    ensures "default" !in a.attributes && "name" !in a.attributes ==> r == Some(p.name)
    ensures r.None? <==> "default" !in a.attributes && "name" in a.attributes &&
                         "required" in a.attributes && a.attributes["required"] == "false"
  {
    if "default" in a.attributes then Some(a.attributes["default"])
    else if "name" in a.attributes then
      if "required" in a.attributes && a.attributes["required"] == "false" then None
      else Some(a.attributes["name"])
    else Some(p.name)
  }

  /** The inner loop of `matchQueryParams`, over one parameter's annotations. */
  function AnnotationsOk(url: string, qi: int, p: Parameter, anns: seq<Annotation>): Outcome<bool>
    requires qi >= -1
  {
    if anns == [] then Done(true)
    else if anns[0].name != "RequestParam" then AnnotationsOk(url, qi, p, anns[1..])
    else match ExpectedName(p, anns[0])
      case None => AnnotationsOk(url, qi, p, anns[1..])
      case Some(n) =>
        var tail :- QueryTail(url, qi);
        if !Contains(tail, n + "=") then Done(false) else AnnotationsOk(url, qi, p, anns[1..])
  }

  /** `matchQueryParams`: every expected query name must occur as `name=`
      in the URL after the query index; the first miss answers false. */
  function MatchQueryParams(url: string, qi: int, params: seq<Parameter>): Outcome<bool>
    requires qi >= -1
  {
    if params == [] then Done(true)
    else
      var ok :- AnnotationsOk(url, qi, params[0], params[0].annotations);
      if !ok then Done(false) else MatchQueryParams(url, qi, params[1..])
  }

  /** A parameter annotation that asks for a query name. */
  predicate Expects(p: Parameter, a: Annotation) {
    a.name == "RequestParam" && ExpectedName(p, a).Some?
  }

  /** Every name the endpoint's parameters expect occurs in `tail`. */
  predicate AllExpectedIn(tail: string, params: seq<Parameter>) {
    forall i, j :: 0 <= i < |params| && 0 <= j < |params[i].annotations| && Expects(params[i], params[i].annotations[j]) ==>
      Contains(tail, ExpectedName(params[i], params[i].annotations[j]).value + "=")
  }

  /** No parameter asks for a query name. */
  predicate NoneExpected(params: seq<Parameter>) {
    forall i, j :: 0 <= i < |params| && 0 <= j < |params[i].annotations| ==> !Expects(params[i], params[i].annotations[j])
  }

  lemma {:induction false} AnnotationsOkSpec(url: string, qi: int, p: Parameter, anns: seq<Annotation>)
    requires -1 <= qi && qi + 1 <= |url|
    ensures AnnotationsOk(url, qi, p, anns) ==
      Done(forall j :: 0 <= j < |anns| && Expects(p, anns[j]) ==> Contains(url[qi + 1..], ExpectedName(p, anns[j]).value + "="))
  {
    if anns != [] {
      AnnotationsOkSpec(url, qi, p, anns[1..]);
      assert forall j :: 1 <= j < |anns| ==> anns[j] == anns[1..][j - 1];
    }
  }

  /** With a query index inside the URL, the check passes exactly when every
      expected name occurs after it. */
  lemma {:induction false} MatchQueryParamsSpec(url: string, qi: int, params: seq<Parameter>)
    requires -1 <= qi && qi + 1 <= |url|
    ensures MatchQueryParams(url, qi, params) == Done(AllExpectedIn(url[qi + 1..], params))
  {
    if params != [] {
      AnnotationsOkSpec(url, qi, params[0], params[0].annotations);
      MatchQueryParamsSpec(url, qi, params[1..]);
      assert forall i :: 1 <= i < |params| ==> params[i] == params[1..][i - 1];
    }
  }

  lemma {:induction false} NoneExpectedAnnotations(url: string, qi: int, p: Parameter, anns: seq<Annotation>)
    requires qi >= -1
    requires forall j :: 0 <= j < |anns| ==> !Expects(p, anns[j])
    ensures AnnotationsOk(url, qi, p, anns) == Done(true)
  {
    if anns != [] {
      NoneExpectedAnnotations(url, qi, p, anns[1..]);
    }
  }

  /** An endpoint with no `RequestParam` to satisfy always passes, whatever
      the URL and the index. */
  lemma {:induction false} NoneExpectedPasses(url: string, qi: int, params: seq<Parameter>)
    requires qi >= -1 && NoneExpected(params)
    ensures MatchQueryParams(url, qi, params) == Done(true)
  {
    if params != [] {
      NoneExpectedAnnotations(url, qi, params[0], params[0].annotations);
      assert NoneExpected(params[1..]) by {
        forall i, j | 0 <= i < |params[1..]| && 0 <= j < |params[1..][i].annotations|
          ensures !Expects(params[1..][i], params[1..][i].annotations[j])
        {
          assert params[1..][i] == params[i + 1];
        }
      }
      NoneExpectedPasses(url, qi, params[1..]);
    }
  }

  // ------------------------------------------------------------ matchEndpoint

  /** The verbs agree, or the endpoint accepts every verb. */
  predicate VerbMatches(call: HttpMethod, endpoint: HttpMethod) {
    call == endpoint || endpoint == ALL
  }

  /** `RestCall.matchEndpoint`, as written: never within one service; then
      the base URL must equal the endpoint's, the verb must agree and the
      query check must pass, evaluated left to right. */
  function MatchEndpoint(rc: MethodCall, ep: Method): (r: Outcome<bool>)
    requires rc.RestCall? && ep.Endpoint?
    ensures rc.microserviceName == ep.microserviceName ==> r == Done(false)
    ensures r == Done(true) ==>
      rc.microserviceName != ep.microserviceName && BaseURL(rc.url, QueryIndex(rc.url)) == Done(ep.url) &&
      VerbMatches(rc.httpMethod, ep.httpMethod) &&
      MatchQueryParams(rc.url, QueryIndex(rc.url), ep.parameters) == Done(true)
  {
    if rc.microserviceName == ep.microserviceName then Done(false)
    else
      var qi := QueryIndex(rc.url);
      var base :- BaseURL(rc.url, qi);
      if base != ep.url || !VerbMatches(rc.httpMethod, ep.httpMethod) then Done(false)
      else MatchQueryParams(rc.url, qi, ep.parameters)
  }

  /** A URL without placeholders is cut at its first `?`, and the query
      names are looked up after it. */
  lemma PlainURLMatch(rc: MethodCall, ep: Method)
    requires rc.RestCall? && ep.Endpoint? && rc.microserviceName != ep.microserviceName
    requires !Contains(rc.url, "{?}")
    ensures QueryIndex(rc.url) == IndexOf(rc.url, "?")
    ensures MatchEndpoint(rc, ep) == Done(true) <==>
      (var qi := IndexOf(rc.url, "?");
       (if qi == -1 then rc.url else rc.url[..qi]) == ep.url && VerbMatches(rc.httpMethod, ep.httpMethod) &&
       AllExpectedIn(rc.url[qi + 1..], ep.parameters))
  {
    ReplaceAbsent(rc.url, "{?}", "temp");
    MatchQueryParamsSpec(rc.url, IndexOf(rc.url, "?"), ep.parameters);
  }

  /** A cross-service call with the endpoint's exact URL (no query, hence
      no placeholder) and an agreeing verb matches an endpoint without
      `RequestParam`s. */
  lemma ExactURLMatches(rc: MethodCall, ep: Method)
    requires rc.RestCall? && ep.Endpoint? && rc.microserviceName != ep.microserviceName
    requires rc.url == ep.url && !Contains(rc.url, "?")
    requires VerbMatches(rc.httpMethod, ep.httpMethod) && NoneExpected(ep.parameters)
    ensures MatchEndpoint(rc, ep) == Done(true)
  {
    if Contains(rc.url, "{?}") {
      var i := IndexOf(rc.url, "{?}");
      assert rc.url[i..i + 3] == "{?}";
      assert rc.url[i + 1] == rc.url[i..i + 3][1];
      ContainsChar(rc.url, i + 1);
    }
    ReplaceAbsent(rc.url, "{?}", "temp");
    NoneExpectedPasses(rc.url, -1, ep.parameters);
  }

  /** A character other than the target's first starts no occurrence. */
  lemma ReplaceCons(c: char, u: string, t: string, rep: string)
    requires |t| > 0 && c != t[0]
    ensures Replace([c] + u, t, rep) == [c] + Replace(u, t, rep)
  {
    var s := [c] + u;
    assert s[1..] == u;
    if |s| >= |t| {
      assert s[..|t|][0] == c;
    }
  }

  /** Text without the target's first character holds no occurrence. */
  lemma {:induction false} ReplaceNoStart(u: string, t: string, rep: string)
    requires |t| > 0 && t[0] !in u
    ensures Replace(u, t, rep) == u
    decreases |u|
  {
    if u != [] {
      assert u == [u[0]] + u[1..];
      ReplaceCons(u[0], u[1..], t, rep);
      ReplaceNoStart(u[1..], t, rep);
    }
  }

  /** Rewriting passes unchanged over a stretch without the target's first
      character. */
  lemma {:induction false} ReplaceSkip(a: string, w: string, t: string, rep: string)
    requires |t| > 0 && t[0] !in a
    ensures Replace(a + w, t, rep) == a + Replace(w, t, rep)
    decreases |a|
  {
    if a != [] {
      assert a + w == [a[0]] + (a[1..] + w);
      ReplaceCons(a[0], a[1..] + w, t, rep);
      ReplaceSkip(a[1..], w, t, rep);
      assert a + Replace(w, t, rep) == [a[0]] + (a[1..] + Replace(w, t, rep));
    } else {
      assert a + w == w;
    }
  }

  /** ... up to an occurrence, which it rewrites. */
  lemma ReplaceGroup(a: string, t: string, u: string, rep: string)
    requires |t| > 0 && t[0] !in a
    ensures Replace(a + t + u, t, rep) == a + rep + Replace(u, t, rep)
  {
    var x := Replace(t + u, t, rep);
    var y := Replace(u, t, rep);
    assert a + t + u == a + (t + u);
    ReplaceSkip(a, t + u, t, rep);
    ReplacePrefix(t, u, rep);
    assert x == rep + y;
    assert a + (rep + y) == a + rep + y;
  }

  lemma MaskCons(c: char, u: string)
    requires c != '{'
    ensures Mask([c] + u) == [c] + Mask(u)
  {
    var s := [c] + u;
    assert s[1..] == u;
    if |s| >= 3 {
      assert s[..3][0] == c;
    }
  }

  lemma {:induction false} MaskNoBrace(u: string)
    requires '{' !in u
    ensures Mask(u) == u
    decreases |u|
  {
    if u != [] {
      assert u == [u[0]] + u[1..];
      MaskCons(u[0], u[1..]);
      MaskNoBrace(u[1..]);
    }
  }

  lemma {:induction false} MaskSkip(a: string, w: string)
    requires '{' !in a
    ensures Mask(a + w) == a + Mask(w)
    decreases |a|
  {
    if a != [] {
      assert a + w == [a[0]] + (a[1..] + w);
      MaskCons(a[0], a[1..] + w);
      MaskSkip(a[1..], w);
      assert a + Mask(w) == [a[0]] + (a[1..] + Mask(w));
    } else {
      assert a + w == w;
    }
  }

  lemma MaskPrefix(u: string)
    ensures Mask("{?}" + u) == "tmp" + Mask(u)
  {
    var s := "{?}" + u;
    assert s[..3] == "{?}" && s[3..] == u;
  }

  lemma MaskGroup(a: string, u: string)
    requires '{' !in a
    ensures Mask(a + "{?}" + u) == a + "tmp" + Mask(u)
  {
    var y := Mask(u);
    assert a + "{?}" + u == a + ("{?}" + u);
    MaskSkip(a, "{?}" + u);
    MaskPrefix(u);
    assert a + ("tmp" + y) == a + "tmp" + y;
  }

  /** The first `?` of a text whose `?` at `k` is preceded by none. */
  lemma FirstQuestionMark(s: string, k: nat)
    requires k < |s| && s[k] == '?' && forall i :: 0 <= i < k ==> s[i] != '?'
    ensures IndexOf(s, "?") == k
  {
    assert OccursAt(s, "?", k) by { assert s[k..k + 1] == "?"; }
    forall i | 0 <= i < k ensures !OccursAt(s, "?", i) {
      assert s[i] != '?';
    }
  }

  // ------------------------------------------------------------ the index shift

  /** A call URL `p{?}?q`: a path ending in a placeholder, then a query;
      neither `p` nor `q` holds a brace, and `p` holds no `?`. */
  predicate PlaceholderThenQuery(p: string, q: string) {
    '{' !in p && '?' !in p && '{' !in q
  }

  /** Only the placeholder is rewritten. */
  lemma ShiftRewrite(p: string, q: string)
    requires PlaceholderThenQuery(p, q)
    ensures Replace(p + "{?}" + ("?" + q), "{?}", "temp") == p + "temp" + ("?" + q)
  {
    ReplaceGroup(p, "{?}", "?" + q, "temp");
    ReplaceNoStart("?" + q, "{?}", "temp");
  }

  /** As written, the rewritten URL has its `?` at `|p| + 4`, one past the
      `?` of the original, so the base keeps the `?`. */
  lemma ShiftKeepsQuestionMark(p: string, q: string)
    requires PlaceholderThenQuery(p, q)
    ensures QueryIndex(p + "{?}" + ("?" + q)) == |p| + 4
    ensures BaseURL(p + "{?}" + ("?" + q), |p| + 4) == Done(p + "{?}?")
  {
    ShiftRewrite(p, q);
    var r := p + "temp" + ("?" + q);
    forall i | 0 <= i < |p| + 4 ensures r[i] != '?' {
      if i < |p| {
        assert r[i] == p[i] && p[i] in p;
      }
    }
    FirstQuestionMark(r, |p| + 4);
    assert (p + "{?}" + ("?" + q))[..|p| + 4] == p + "{?}?";
  }

  /** Hence a call with a path placeholder and a query never reaches the
      endpoint at that path. */
  lemma ShiftMissesEndpoint(rc: MethodCall, ep: Method, p: string, q: string)
    requires rc.RestCall? && ep.Endpoint? && PlaceholderThenQuery(p, q)
    requires rc.url == p + "{?}" + ("?" + q) && ep.url == p + "{?}"
    ensures MatchEndpoint(rc, ep) == Done(false)
  {
    ShiftKeepsQuestionMark(p, q);
    assert |p + "{?}?"| != |ep.url|;
  }

  /** And two placeholders right before the query push the index past the
      end of the URL, so the substring fails. */
  lemma ShiftOverruns(rc: MethodCall, ep: Method, p: string)
    requires rc.RestCall? && ep.Endpoint? && rc.microserviceName != ep.microserviceName
    requires '{' !in p && '?' !in p && rc.url == p + "{?}" + ("{?}" + "?")
    ensures MatchEndpoint(rc, ep) == Throws(SIOOBE)
  {
    ReplaceGroup(p, "{?}", "{?}" + "?", "temp");
    ReplacePrefix("{?}", "?", "temp");
    ReplaceNoStart("?", "{?}", "temp");
    var r := p + "temp" + ("temp" + "?");
    forall i | 0 <= i < |p| + 8 ensures r[i] != '?' {
      if i < |p| {
        assert r[i] == p[i] && p[i] in p;
      }
    }
    FirstQuestionMark(r, |p| + 8);
  }

  /** Every `{?}` masked by three letters, so the indices stay those of the
      original URL. */
  function Mask(url: string): (r: string)
    ensures |r| == |url|
    decreases |url|
  {
    if |url| < 3 then url
    else if url[..3] == "{?}" then "tmp" + Mask(url[3..])
    else [url[0]] + Mask(url[1..])
  }

  /** A `?` of the masked URL is a `?` of the URL that stands outside every
      placeholder. */
  lemma {:induction false} MaskQuestionMark(url: string, i: nat)
    requires i < |url| && Mask(url)[i] == '?'
    ensures url[i] == '?'
    decreases |url|
  {
    if |url| >= 3 {
      if url[..3] == "{?}" {
        assert Mask(url) == "tmp" + Mask(url[3..]);
        if i >= 3 {
          assert Mask(url)[i] == Mask(url[3..])[i - 3];
          MaskQuestionMark(url[3..], i - 3);
        }
      } else if i > 0 {
        assert Mask(url)[i] == Mask(url[1..])[i - 1];
        MaskQuestionMark(url[1..], i - 1);
      }
    }
  }

  /** The query index the code evidently intends: the first `?` that is not
      part of a placeholder. */
  function IntendedQueryIndex(url: string): (r: int)
    ensures r == -1 || (0 <= r < |url| && url[r] == '?')
  {
    var r := IndexOf(Mask(url), "?");
    if r == -1 then r
    else
      assert Mask(url)[r] == "?"[0];
      MaskQuestionMark(url, r);
      r
  }

  /** `matchEndpoint` with the intended index: it never fails. */
  function IntendedMatchEndpoint(rc: MethodCall, ep: Method): (r: bool)
    requires rc.RestCall? && ep.Endpoint?
    ensures rc.microserviceName == ep.microserviceName ==> !r
  {
    if rc.microserviceName == ep.microserviceName then false
    else
      var qi := IntendedQueryIndex(rc.url);
      var base := if qi == -1 then rc.url else rc.url[..qi];
      base == ep.url && VerbMatches(rc.httpMethod, ep.httpMethod) && AllExpectedIn(rc.url[qi + 1..], ep.parameters)
  }

  /** With the intended index, `p{?}?q` is cut right before its query. */
  lemma IntendedCutsBeforeQuery(p: string, q: string)
    requires PlaceholderThenQuery(p, q)
    ensures IntendedQueryIndex(p + "{?}" + ("?" + q)) == |p| + 3
  {
    MaskGroup(p, "?" + q);
    MaskNoBrace("?" + q);
    var r := p + "tmp" + ("?" + q);
    forall i | 0 <= i < |p| + 3 ensures r[i] != '?' {
      if i < |p| {
        assert r[i] == p[i] && p[i] in p;
      }
    }
    FirstQuestionMark(r, |p| + 3);
  }

  /** ... and so reaches the endpoint at its path. */
  lemma IntendedReachesEndpoint(rc: MethodCall, ep: Method, p: string, q: string)
    requires rc.RestCall? && ep.Endpoint? && rc.microserviceName != ep.microserviceName
    requires PlaceholderThenQuery(p, q) && rc.url == p + "{?}" + ("?" + q) && ep.url == p + "{?}"
    requires VerbMatches(rc.httpMethod, ep.httpMethod) && NoneExpected(ep.parameters)
    ensures IntendedMatchEndpoint(rc, ep)
  {
    IntendedCutsBeforeQuery(p, q);
    assert rc.url[..|p| + 3] == p + "{?}";
  }

  /** The two indices agree on every URL without placeholders. */
  lemma IntendedAgreesWithoutPlaceholders(url: string)
    requires !Contains(url, "{?}")
    ensures IntendedQueryIndex(url) == QueryIndex(url)
  {
    ReplaceAbsent(url, "{?}", "temp");
    MaskAbsent(url);
  }

  lemma {:induction false} MaskAbsent(url: string)
    requires forall i :: 0 <= i <= |url| ==> !OccursAt(url, "{?}", i)
    ensures Mask(url) == url
    decreases |url|
  {
    if |url| >= 3 {
      assert !OccursAt(url, "{?}", 0);
      assert forall i :: 0 <= i <= |url[1..]| ==> !OccursAt(url[1..], "{?}", i) by {
        forall i | 0 <= i <= |url[1..]| ensures !OccursAt(url[1..], "{?}", i) {
          assert !OccursAt(url, "{?}", i + 1);
        }
      }
      MaskAbsent(url[1..]);
    }
  }
}
