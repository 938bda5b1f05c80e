/**
 * EndpointTemplate: the verb and URL of an endpoint, computed from the
 * class-level `@RequestMapping` (if any) and the method's mapping annotation.
 */
module EndpointTemplate {
  import opened Wrappers
  import opened JavaAst
  import opened Ir
  import opened JavaStrings
  import opened StringParserUtils

  const ENDPOINT_ANNOTATIONS: seq<string> :=
    ["RequestMapping", "GetMapping", "PutMapping", "PostMapping", "DeleteMapping", "PatchMapping"]

  /** The template an endpoint mapping produces. */
  datatype Template = Template(httpMethod: HttpMethod, name: string, url: string)

  /** `httpFromMapping`: mapping annotation names and `RequestMethod.X` texts. */
  function HttpFromMapping(mapping: string): HttpMethod {
    if mapping == "GetMapping" || mapping == "RequestMethod.GET" then GET
    else if mapping == "PostMapping" || mapping == "RequestMethod.POST" then POST
    else if mapping == "DeleteMapping" || mapping == "RequestMethod.DELETE" then DELETE
    else if mapping == "PutMapping" || mapping == "RequestMethod.PUT" then PUT
    else if mapping == "PatchMapping" || mapping == "RequestMethod.PATCH" then PATCH
    else ALL
  }

  /** The verb table: each verb has exactly two spellings, and everything else
      (`RequestMapping`, `RequestMethod.OPTIONS`, ...) maps to ALL. */
  lemma HttpFromMappingTable(mapping: string)
    ensures HttpFromMapping(mapping) == GET <==> mapping in {"GetMapping", "RequestMethod.GET"}
    ensures HttpFromMapping(mapping) == POST <==> mapping in {"PostMapping", "RequestMethod.POST"}
    ensures HttpFromMapping(mapping) == DELETE <==> mapping in {"DeleteMapping", "RequestMethod.DELETE"}
    ensures HttpFromMapping(mapping) == PUT <==> mapping in {"PutMapping", "RequestMethod.PUT"}
    ensures HttpFromMapping(mapping) == PATCH <==> mapping in {"PatchMapping", "RequestMethod.PATCH"}
    ensures HttpFromMapping(mapping) in {GET, POST, DELETE, PUT, PATCH, ALL}
  {
  }

  /** `toString().replaceAll("\"", "")`. */
  function Unquoted(e: Expr): string {
    RemoveChar(e.Text(), '"')
  }

  /** The value of the last pair whose name is in `names`. */
  function LastNamed(pairs: seq<MemberValuePair>, names: set<string>): (r: Option<Expr>)
    ensures r.Some? ==> exists i :: 0 <= i < |pairs| && pairs[i].name in names && pairs[i].value == r.value
    ensures r.None? <==> forall i :: 0 <= i < |pairs| ==> pairs[i].name !in names
    decreases |pairs|
  {
    if pairs == [] then None
    else
      var n := |pairs| - 1;
      var r := if pairs[n].name in names then Some(pairs[n].value) else LastNamed(pairs[..n], names);
      assert forall i :: 0 <= i < n ==> pairs[..n][i] == pairs[i];
      r
  }

  lemma LastNamedStep(pairs: seq<MemberValuePair>, i: nat, names: set<string>)
    requires i < |pairs|
    ensures LastNamed(pairs[..i + 1], names) ==
      if pairs[i].name in names then Some(pairs[i].value) else LastNamed(pairs[..i], names)
  {
    assert pairs[..i + 1][..i] == pairs[..i];
  }

  /** The unquoted value of the last pair named in `names`, or "". */
  function NamedPath(pairs: seq<MemberValuePair>, names: set<string>): string {
    match LastNamed(pairs, names) case None => "" case Some(e) => Unquoted(e)
  }

  /** The verb of the last `method` pair, or ALL. */
  function ExplicitVerb(pairs: seq<MemberValuePair>): HttpMethod {
    match LastNamed(pairs, {"method"}) case None => ALL case Some(e) => HttpFromMapping(e.Text())
  }

  lemma NamedPathStep(pairs: seq<MemberValuePair>, i: nat, names: set<string>)
    requires i < |pairs|
    ensures NamedPath(pairs[..i + 1], names) ==
      if pairs[i].name in names then Unquoted(pairs[i].value) else NamedPath(pairs[..i], names)
  {
    LastNamedStep(pairs, i, names);
  }

  lemma ExplicitVerbStep(pairs: seq<MemberValuePair>, i: nat)
    requires i < |pairs|
    ensures ExplicitVerb(pairs[..i + 1]) ==
      if pairs[i].name == "method" then HttpFromMapping(pairs[i].value.Text()) else ExplicitVerb(pairs[..i])
  {
    LastNamedStep(pairs, i, {"method"});
  }

  /** The class-level prefix: the last `value` pair of a normal annotation or
      the member of a single-member one, with every `"` removed. */
  function Prefix(requestMapping: Option<AnnotationExpr>): string {
    match requestMapping
    case None => ""
    case Some(Normal(_, pairs)) => NamedPath(pairs, {"value"})
    case Some(SingleMember(_, v)) => Unquoted(v)
    case Some(Marker(_)) => ""
  }

  /** The method-level path: the last `path`/`value` pair or the single
      member, unquoted; a marker annotation gives `/` when there is no prefix. */
  function MethodPath(endpointMapping: AnnotationExpr, preUrl: string): string {
    match endpointMapping
    case Normal(_, pairs) => NamedPath(pairs, {"path", "value"})
    case SingleMember(_, v) => Unquoted(v)
    case Marker(_) => if preUrl == "" then "/" else ""
  }

  /** The verb: an explicit `method` pair, and the annotation's name when that
      gives ALL or there is none. */
  function Verb(endpointMapping: AnnotationExpr): HttpMethod {
    var explicit :=
      match endpointMapping
      case Normal(_, pairs) => ExplicitVerb(pairs)
      case _ => ALL;
    if explicit == ALL then HttpFromMapping(endpointMapping.name) else explicit
  }

  /** The leading-slash fix, an if/else-if: when the prefix needs a slash the
      path is left as it is. */
  function FixSlashes(preUrl: string, url: string): (string, string) {
    if preUrl != "" && !StartsWith(preUrl, "/") then ("/" + preUrl, url)
    else if url != "" && !StartsWith(url, "/") then (preUrl, "/" + url)
    else (preUrl, url)
  }

  function Joined(preUrl: string, url: string): string {
    var (p, u) := FixSlashes(preUrl, url);
    if p == "" && u == "" then "/" else p + u
  }

  /** One trailing `/` is dropped unless the URL is exactly `/`. */
  function DropTrailingSlash(s: string): string {
    if EndsWith(s, "/") && s != "/" then s[..|s| - 1] else s
  }

  /** The final URL: joined, `//` collapsed in one pass, one trailing slash
      dropped, then `{name}` groups simplified. */
  function FinalUrl(preUrl: string, url: string): string {
    SimplifyEndpointURL(DropTrailingSlash(Replace(Joined(preUrl, url), "//", "/")))
  }

  function Build(requestMapping: Option<AnnotationExpr>, endpointMapping: AnnotationExpr): Template {
    var preUrl := Prefix(requestMapping);
    Template(Verb(endpointMapping), endpointMapping.name, FinalUrl(preUrl, MethodPath(endpointMapping, preUrl)))
  }

  /** The prefix loop of the constructor. */
  method ClassPrefix(requestMapping: Option<AnnotationExpr>) returns (preUrl: string)
    ensures preUrl == Prefix(requestMapping)
  {
    preUrl := "";
    if requestMapping.Some? {
      match requestMapping.value {
        case Normal(_, pairs) =>
          var i := 0;
          while i < |pairs|
            invariant 0 <= i <= |pairs|
            invariant preUrl == NamedPath(pairs[..i], {"value"})
          {
            NamedPathStep(pairs, i, {"value"});
            if pairs[i].name == "value" {
              preUrl := Unquoted(pairs[i].value);
            }
            i := i + 1;
          }
          assert pairs[..|pairs|] == pairs;
        case SingleMember(_, v) =>
          preUrl := Unquoted(v);
        case Marker(_) =>
      }
    }
  }

  /** The pair loop of the constructor over the method's mapping: the
      explicit verb (ALL when absent) and the path. */
  method MappingPairs(endpointMapping: AnnotationExpr, preUrl: string) returns (verb: HttpMethod, url: string)
    ensures url == MethodPath(endpointMapping, preUrl)
    ensures (if verb == ALL then HttpFromMapping(endpointMapping.name) else verb) == Verb(endpointMapping)
  {
    verb := ALL;
    url := "";
    match endpointMapping {
      case Normal(_, pairs) =>
        var i := 0;
        while i < |pairs|
          invariant 0 <= i <= |pairs|
          invariant verb == ExplicitVerb(pairs[..i])
          invariant url == NamedPath(pairs[..i], {"path", "value"})
        {
          ExplicitVerbStep(pairs, i);
          NamedPathStep(pairs, i, {"path", "value"});
          if pairs[i].name == "method" {
            verb := HttpFromMapping(pairs[i].value.Text());
          } else if pairs[i].name == "path" || pairs[i].name == "value" {
            url := Unquoted(pairs[i].value);
          }
          i := i + 1;
        }
        assert pairs[..|pairs|] == pairs;
      case SingleMember(_, v) =>
        url := Unquoted(v);
      case Marker(_) =>
        if preUrl == "" {
          url := "/";
        }
    }
  }

  /** The constructor `EndpointTemplate(requestMapping, endpointMapping)`. */
  method New(requestMapping: Option<AnnotationExpr>, endpointMapping: AnnotationExpr) returns (t: Template)
    ensures t == Build(requestMapping, endpointMapping)
  {
    var preUrl := ClassPrefix(requestMapping);
    var finalHttpMethod, url := MappingPairs(endpointMapping, preUrl);
    if finalHttpMethod == ALL {
      finalHttpMethod := HttpFromMapping(endpointMapping.name);
    }
    ghost var fixedPair := FixSlashes(preUrl, url);
    if preUrl != "" && !StartsWith(preUrl, "/") {
      preUrl := "/" + preUrl;
    } else if url != "" && !StartsWith(url, "/") {
      url := "/" + url;
    }
    assert (preUrl, url) == fixedPair;
    var finalUrl := if preUrl == "" && url == "" then "/" else preUrl + url;
    finalUrl := Replace(finalUrl, "//", "/");
    finalUrl := DropTrailingSlash(finalUrl);
    t := Template(finalHttpMethod, endpointMapping.name, SimplifyEndpointURL(finalUrl));
  }

  /** At class level only `value` counts: a `path` pair is ignored, and with
      no `value` pair (or no mapping at all) the prefix is empty. */
  lemma PrefixIgnoresPath(name: string, pairs: seq<MemberValuePair>, e: Expr)
    ensures Prefix(Some(Normal(name, pairs + [MemberValuePair("path", e)]))) == Prefix(Some(Normal(name, pairs)))
    ensures (forall i :: 0 <= i < |pairs| ==> pairs[i].name != "value") ==> Prefix(Some(Normal(name, pairs))) == ""
    ensures Prefix(None) == ""
  {
    var ps := pairs + [MemberValuePair("path", e)];
    assert ps[..|ps| - 1] == pairs;
  }

  /** With no `method` pair the annotation's name decides the verb, so a bare
      `RequestMapping` stays ALL; an explicit `RequestMethod.X` wins. */
  lemma VerbRules(name: string, pairs: seq<MemberValuePair>)
    ensures (forall i :: 0 <= i < |pairs| ==> pairs[i].name != "method") ==>
      Verb(Normal(name, pairs)) == HttpFromMapping(name)
    ensures Verb(Normal("RequestMapping", [])) == ALL && Verb(Marker("RequestMapping")) == ALL
    ensures Verb(Normal("RequestMapping", pairs + [MemberValuePair("method", FieldAccess(Name("RequestMethod"), "POST"))])) == POST
  {
    var ps := pairs + [MemberValuePair("method", FieldAccess(Name("RequestMethod"), "POST"))];
    assert ps[..|ps|] == ps;
    ExplicitVerbStep(ps, |pairs|);
    assert Verb(Normal("RequestMapping", [])) == ALL;
  }

  /** A marker mapping contributes `/` only when the prefix is empty. */
  lemma MarkerPath(name: string, preUrl: string)
    ensures MethodPath(Marker(name), preUrl) == (if preUrl == "" then "/" else "")
  {
  }

  /** Because the fix is if/else-if, a prefix without a leading slash is fixed
      and the path after it is not. */
  lemma SlashFixOnlyPrefix(preUrl: string, url: string)
    requires preUrl != "" && preUrl[0] != '/'
    ensures Joined(preUrl, url) == "/" + preUrl + url
  {
  }

  /** A path without a leading slash is fixed when the prefix is fine. */
  lemma SlashFixPath(preUrl: string, url: string)
    requires preUrl == "" || preUrl[0] == '/'
    requires url != "" && url[0] != '/'
    ensures Joined(preUrl, url) == preUrl + "/" + url
  {
  }

  /** Empty prefix and empty path give `/`. */
  lemma EmptyGivesRoot()
    ensures FinalUrl("", "") == "/"
  {
    assert Replace("/", "//", "/") == "/";
    SimplifyNoBraceUnchanged("/");
  }

  lemma UnquotedLiteral(v: string)
    requires '"' !in v
    ensures Unquoted(StringLit(v)) == v
  {
    var t := StringLit(v).Text();
    assert t == ['"'] + v + ['"'];
    RemoveCharAppend(['"'] + v, ['"'], '"');
    RemoveCharAppend(['"'], v, '"');
    RemoveCharFree(v, '"');
  }

  lemma {:induction false} RemoveCharAppend(a: string, b: string, c: char)
    ensures RemoveChar(a + b, c) == RemoveChar(a, c) + RemoveChar(b, c)
    decreases |a|
  {
    if a == [] {
      assert a + b == b;
    } else {
      var head := if a[0] == c then [] else [a[0]];
      AppendTail(a, b);
      assert RemoveChar(a + b, c) == head + RemoveChar(a[1..] + b, c);
      RemoveCharAppend(a[1..], b, c);
      Associative(head, RemoveChar(a[1..], c), RemoveChar(b, c));
    }
  }

  lemma {:induction false} RemoveCharFree(a: string, c: char)
    requires c !in a
    ensures RemoveChar(a, c) == a
    decreases |a|
  {
    if a != [] {
      RemoveCharFree(a[1..], c);
    }
  }

  /** A slash-free prefix followed by a bare `{name}` path: the prefix gets
      the slash, the group becomes `{?}`. */
  lemma PrefixThenGroup(p: string, g: string)
    requires p != [] && '/' !in p && NoBraces(p) && NoBraces(g) && '/' !in g
    ensures FinalUrl(p, "{" + g + "}") == "/" + p + "{?}"
  {
    var u := "{" + g + "}";
    var j := "/" + p + u;
    SlashFixOnlyPrefix(p, u);
    assert Joined(p, u) == j;
    forall i | 0 <= i < |j| - 1 ensures !(j[i] == '/' && j[i + 1] == '/') {
      if 0 < i <= |p| { assert j[i] == p[i - 1]; }
      else if i == 0 { assert j[1] == (p + u)[0] == p[0]; }
      else if i == |p| + 1 { assert j[i] == '{'; }
      else { assert j[i] == g[i - |p| - 2]; }
    }
    NoDoubleSlashNoOccurrence(j);
    ReplaceAbsent(j, "//", "/");
    assert j[|j| - 1] == '}';
    assert DropTrailingSlash(j) == j;
    assert NoBraces("/" + p) by {
      forall i | 0 <= i < |"/" + p| ensures !IsBrace(("/" + p)[i]) {
        if i > 0 { assert ("/" + p)[i] == p[i - 1]; }
      }
    }
    assert ("/" + p) + "{" + g + "}" + "" == j;
    SimplifyGroup("/" + p, g, "");
  }

  /** `@RequestMapping("p")` with `@GetMapping("{g}")`, for a slash-free
      prefix: only the prefix gets its slash, so the URL is `/p{?}` (for
      `users` and `id`, `/users{?}`). */
  lemma PrefixWithoutSlashExample(p: string, g: string)
    requires p != [] && '/' !in p && NoBraces(p) && NoBraces(g) && '/' !in g && '"' !in p && '"' !in g
    ensures Build(Some(SingleMember("RequestMapping", StringLit(p))), SingleMember("GetMapping", StringLit("{" + g + "}")))
      == Template(GET, "GetMapping", "/" + p + "{?}")
  {
    UnquotedLiteral(p);
    assert '"' !in "{" + g + "}";
    UnquotedLiteral("{" + g + "}");
    PrefixThenGroup(p, g);
  }

  /** No two adjacent slashes. */
  predicate NoDoubleSlash(s: string) {
    forall i :: 0 <= i < |s| - 1 ==> !(s[i] == '/' && s[i + 1] == '/')
  }

  lemma NoDoubleSlashNoOccurrence(s: string)
    requires NoDoubleSlash(s)
    ensures !Contains(s, "//")
  {
    forall i | 0 <= i <= |s| ensures !OccursAt(s, "//", i) {
      if i + 2 <= |s| {
        assert s[i..i + 2][0] == s[i] && s[i..i + 2][1] == s[i + 1];
      }
    }
  }

  /** A path segment as the mapping annotations are usually written: a
      leading slash, no doubled or trailing slash, no braces. */
  predicate CleanSegment(s: string) {
    |s| >= 2 && s[0] == '/' && s[|s| - 1] != '/' && NoDoubleSlash(s) && '{' !in s
  }

  lemma CleanConcatNoDoubleSlash(preUrl: string, url: string)
    requires CleanSegment(preUrl) && CleanSegment(url)
    ensures NoDoubleSlash(preUrl + url)
  {
    var s := preUrl + url;
    forall i | 0 <= i < |s| - 1 ensures !(s[i] == '/' && s[i + 1] == '/') {
      if i + 1 < |preUrl| {
        assert s[i] == preUrl[i] && s[i + 1] == preUrl[i + 1];
      } else if i + 1 == |preUrl| {
        assert s[i] == preUrl[|preUrl| - 1];
      } else {
        assert s[i] == url[i - |preUrl|] && s[i + 1] == url[i + 1 - |preUrl|];
      }
    }
  }

  lemma CleanConcatNoBrace(preUrl: string, url: string)
    requires CleanSegment(preUrl) && CleanSegment(url)
    ensures '{' !in preUrl + url
  {
    var s := preUrl + url;
    forall i | 0 <= i < |s| ensures s[i] != '{' {
      if i < |preUrl| { assert s[i] == preUrl[i]; } else { assert s[i] == url[i - |preUrl|]; }
    }
  }

  /** For clean prefix and path the URL is their plain concatenation. */
  lemma CleanSegmentsConcatenate(preUrl: string, url: string)
    requires CleanSegment(preUrl) && CleanSegment(url)
    ensures FinalUrl(preUrl, url) == preUrl + url
  {
    var s := preUrl + url;
    CleanJoined(preUrl, url);
    CleanConcatNoDoubleSlash(preUrl, url);
    NoDoubleSlashNoOccurrence(s);
    ReplaceAbsent(s, "//", "/");
    CleanKeepsLastSlash(preUrl, url);
    CleanConcatNoBrace(preUrl, url);
    SimplifyNoBraceUnchanged(s);
  }

  lemma CleanJoined(preUrl: string, url: string)
    requires CleanSegment(preUrl) && CleanSegment(url)
    ensures Joined(preUrl, url) == preUrl + url
  {
    assert StartsWith(preUrl, "/") by { assert preUrl[..1] == "/"; }
    assert StartsWith(url, "/") by { assert url[..1] == "/"; }
  }

  lemma CleanKeepsLastSlash(preUrl: string, url: string)
    requires CleanSegment(url)
    ensures DropTrailingSlash(preUrl + url) == preUrl + url
  {
    var s := preUrl + url;
    assert s[|s| - 1] == url[|url| - 1];
    assert s[|s| - 1..] != "/";
  }

  /** The stored URL is already simplified. */
  lemma FinalUrlSimplified(preUrl: string, url: string)
    ensures SimplifyEndpointURL(FinalUrl(preUrl, url)) == FinalUrl(preUrl, url)
  {
    SimplifyIdempotent(DropTrailingSlash(Replace(Joined(preUrl, url), "//", "/")));
  }

  /** One left-to-right pass: three slashes become two. */
  lemma CollapseIsOnePass()
    ensures Replace("///", "//", "/") == "//"
  {
    assert "///"[..2] == "//";
    assert "///"[2..] == "/";
  }

  /** The path of the first `path`/`value` pair, or None. */
  function FirstPathPair(pairs: seq<MemberValuePair>): Option<Expr> {
    if pairs == [] then None
    else if pairs[0].name == "path" || pairs[0].name == "value" then Some(pairs[0].value)
    else FirstPathPair(pairs[1..])
  }

  /** The text `getPathFromAnnotation` appends for an annotation value. */
  function PathText(e: Expr): string {
    SimplifyEndpointURL(RemoveOuterQuotations(e.Text()))
  }

  /** `getPathFromAnnotation`: the unquoted, simplified single member or first
      `path`/`value` pair, appended to `url`; otherwise `url` itself. Which
      text is appended is stated by `PathFromFirstPair` and `PathFromLiteral`. */
  function GetPathFromAnnotation(ae: AnnotationExpr, url: string): (r: string)
    ensures StartsWith(r, url)
    ensures SimplifyEndpointURL(r[|url|..]) == r[|url|..]
    ensures ae.Marker? ==> r == url
    ensures ae.Normal? && FirstPathPair(ae.pairs).None? ==> r == url
  {
    match ae
    case SingleMember(_, v) =>
      SimplifyIdempotent(RemoveOuterQuotations(v.Text()));
      assert (url + PathText(v))[|url|..] == PathText(v);
      url + PathText(v)
    case Normal(_, pairs) =>
      (match FirstPathPair(pairs)
       case None =>
         assert url[|url|..] == [];
         url
       case Some(e) =>
         SimplifyIdempotent(RemoveOuterQuotations(e.Text()));
         assert (url + PathText(e))[|url|..] == PathText(e);
         url + PathText(e))
    case Marker(_) =>
      assert url[|url|..] == [];
      url
  }

  /** A normal annotation appends the text of its first `path`/`value` pair,
      whatever follows it. */
  lemma PathFromFirstPair(name: string, pairs: seq<MemberValuePair>, k: nat, url: string)
    requires k < |pairs| && (pairs[k].name == "path" || pairs[k].name == "value")
    requires forall i :: 0 <= i < k ==> pairs[i].name != "path" && pairs[i].name != "value"
    ensures GetPathFromAnnotation(Normal(name, pairs), url) == url + PathText(pairs[k].value)
  {
    FirstPathPairIsFirst(pairs, k);
  }

  /** The first `path`/`value` pair is the one used, whatever follows it. */
  lemma {:induction false} FirstPathPairIsFirst(pairs: seq<MemberValuePair>, k: nat)
    requires k < |pairs| && (pairs[k].name == "path" || pairs[k].name == "value")
    requires forall i :: 0 <= i < k ==> pairs[i].name != "path" && pairs[i].name != "value"
    ensures FirstPathPair(pairs) == Some(pairs[k].value)
    decreases k
  {
    if k > 0 {
      FirstPathPairIsFirst(pairs[1..], k - 1);
    }
  }

  /** A quoted brace-free literal is appended as its bare text. */
  lemma PathFromLiteral(name: string, v: string, url: string)
    requires '"' !in v && '{' !in v
    ensures GetPathFromAnnotation(SingleMember(name, StringLit(v)), url) == url + v
  {
    RemoveQuoteRoundTrip(v);
    SimplifyNoBraceUnchanged(v);
  }
}
