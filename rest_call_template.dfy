/**
 * RestCallTemplate: the URL and verb of an outgoing REST call, read off a
 * method-call expression on a RestTemplate-like receiver.
 *
 * The regular expression of `backupParseURL` is written out as the match it
 * finds; the one of `replaceAll("%[sdif]", ...)` as a left-to-right scan.
 * `.` in the former is taken to match every character, line terminators
 * included.
 */
module RestCallTemplate {
  import opened Wrappers
  import opened Outcomes
  import opened JavaAst
  import opened Ir
  import opened JavaStrings
  import opened StringParserUtils

  const REST_OBJECTS: set<string> := {"RestTemplate", "OAuth2RestOperations", "OAuth2RestTemplate", "WebClient"}
  const REST_METHODS: set<string> :=
    {"getForObject", "postForObject", "patchForObject", "put", "delete", "exchange", "get", "post", "options", "patch"}
  const UNKNOWN_VALUE: string := "{?}"

  /** The template a REST call produces. */
  datatype Template = Template(url: string, httpMethod: HttpMethod)

  /** `getHttpMethodForExchange`: the first of POST, PUT, DELETE, PATCH whose
      `HttpMethod.X` occurs in the arguments, GET otherwise. */
  function GetHttpMethodForExchange(arguments: string): HttpMethod {
    if Contains(arguments, "HttpMethod.POST") then POST
    else if Contains(arguments, "HttpMethod.PUT") then PUT
    else if Contains(arguments, "HttpMethod.DELETE") then DELETE
    else if Contains(arguments, "HttpMethod.PATCH") then PATCH
    else GET
  }

  lemma ExchangeVerbOrder(arguments: string)
    ensures GetHttpMethodForExchange(arguments) == POST <==> Contains(arguments, "HttpMethod.POST")
    ensures GetHttpMethodForExchange(arguments) == PUT <==>
      !Contains(arguments, "HttpMethod.POST") && Contains(arguments, "HttpMethod.PUT")
    ensures GetHttpMethodForExchange(arguments) == DELETE <==>
      !Contains(arguments, "HttpMethod.POST") && !Contains(arguments, "HttpMethod.PUT") &&
      Contains(arguments, "HttpMethod.DELETE")
    ensures GetHttpMethodForExchange(arguments) == PATCH <==>
      !Contains(arguments, "HttpMethod.POST") && !Contains(arguments, "HttpMethod.PUT") &&
      !Contains(arguments, "HttpMethod.DELETE") && Contains(arguments, "HttpMethod.PATCH")
    ensures GetHttpMethodForExchange(arguments) == GET <==>
      !Contains(arguments, "HttpMethod.POST") && !Contains(arguments, "HttpMethod.PUT") &&
      !Contains(arguments, "HttpMethod.DELETE") && !Contains(arguments, "HttpMethod.PATCH")
    ensures GetHttpMethodForExchange(arguments) in {POST, PUT, DELETE, PATCH, GET}
  {
  }

  /** The argument texts joined with no separator. */
  function ArgumentsText(arguments: seq<Expr>): string {
    if arguments == [] then "" else arguments[0].Text() + ArgumentsText(arguments[1..])
  }

  /** `getHttpFromName`. */
  function GetHttpFromName(name: string, arguments: seq<Expr>): HttpMethod {
    if name == "getForObject" || name == "get" then GET
    else if name == "postForObject" || name == "post" then POST
    else if name == "patchForObject" || name == "patch" then PATCH
    else if name == "put" then PUT
    else if name == "delete" then DELETE
    else if name == "exchange" then GetHttpMethodForExchange(ArgumentsText(arguments))
    else NONE
  }

  /** The verb table: NONE exactly off the nine known names (so `options`,
      though a REST method, has no verb), and never ALL. */
  lemma HttpFromNameTable(name: string, arguments: seq<Expr>)
    ensures GetHttpFromName(name, arguments) == NONE <==>
      name !in {"getForObject", "get", "postForObject", "post", "patchForObject", "patch", "put", "delete", "exchange"}
    ensures GetHttpFromName("options", arguments) == NONE
    ensures GetHttpFromName(name, arguments) != ALL
    ensures name in {"getForObject", "get"} ==> GetHttpFromName(name, arguments) == GET
    ensures name in {"postForObject", "post"} ==> GetHttpFromName(name, arguments) == POST
    ensures name in {"patchForObject", "patch"} ==> GetHttpFromName(name, arguments) == PATCH
  {
    ExchangeVerbOrder(ArgumentsText(arguments));
  }

  /** The remaining known names: `put`, `delete`, and `exchange`, whose verb
      comes from the scan of its joined arguments. */
  lemma HttpFromNameOthers(arguments: seq<Expr>)
    ensures GetHttpFromName("put", arguments) == PUT
    ensures GetHttpFromName("delete", arguments) == DELETE
    ensures GetHttpFromName("exchange", arguments) == GetHttpMethodForExchange(ArgumentsText(arguments))
  {
  }


  /** The URL with every `http://`, then every `https://`, removed. */
  function Unschemed(str: string): string {
    Replace(Replace(str, "http://", ""), "https://", "")
  }

  /** The part of `cleanURL` that cuts everything before the first `/`,
      when that `/` is not at 0. */
  function FromFirstSlash(s: string): (r: string)
    ensures |r| <= |s|
  {
    var k := IndexOf(s, "/");
    if k > 0 then s[k..] else s
  }

  /** The part of `cleanURL` that drops one trailing `"`, then one trailing `/`. */
  function DropTrailing(s: string): (r: string)
    ensures |r| <= |s|
  {
    var t := if EndsWith(s, "\"") then s[..|s| - 1] else s;
    if EndsWith(t, "/") then t[..|t| - 1] else t
  }

  /** `cleanURL`: scheme prefixes removed everywhere, everything before the
      first `/` cut (when that `/` is not at 0), then one trailing `"` and one
      trailing `/` dropped. */
  function CleanURL(str: string): (r: string)
    ensures |r| <= |Unschemed(str)|
  {
    DropTrailing(FromFirstSlash(Unschemed(str)))
  }

  /** Dropping keeps a prefix and removes at most a trailing `"` preceded by
      at most a `/`. */
  lemma DropTrailingShape(s: string)
    ensures StartsWith(s, DropTrailing(s)) && s[|DropTrailing(s)|..] in {"", "\"", "/", "/\""}
  {
    var t := if EndsWith(s, "\"") then s[..|s| - 1] else s;
    var r := DropTrailing(s);
    assert s[..|r|] == r;
    if EndsWith(s, "\"") && EndsWith(t, "/") {
      assert t[|t| - 1] == s[|s| - 2] == '/' && s[|s| - 1] == '"';
      assert s[|r|..] == "/\"";
    } else if EndsWith(s, "\"") {
      assert s[|s| - 1] == '"';
      assert s[|r|..] == "\"";
    } else if EndsWith(t, "/") {
      assert s[|s| - 1] == '/';
      assert s[|r|..] == "/";
    } else {
      assert s[|r|..] == "";
    }
  }

  /** The cleaned URL is the unschemed URL from its first `/` on (from the
      start when that `/` is at 0 or absent), less at most a trailing `"`
      preceded by at most a `/`. */
  lemma CleanURLShape(str: string)
    ensures var cut := FromFirstSlash(Unschemed(str));
      StartsWith(cut, CleanURL(str)) && cut[|CleanURL(str)|..] in {"", "\"", "/", "/\""}
  {
    DropTrailingShape(FromFirstSlash(Unschemed(str)));
  }

  /** Once a `/` is present after the scheme removal, the cleaned URL is empty
      or starts at a `/`. */
  lemma CleanURLStartsAtSlash(str: string)
    requires Contains(Replace(Replace(str, "http://", ""), "https://", ""), "/")
    ensures var r := CleanURL(str); r == [] || r[0] == '/'
  {
    var s2 := Replace(Replace(str, "http://", ""), "https://", "");
    var idx := IndexOf(s2, "/");
    assert s2[idx..idx + 1] == "/";
    var s3 := if idx > 0 then s2[idx..] else s2;
    assert s3[0] == '/';
  }

  lemma IndexOfAfterHost(host: string, path: string)
    requires '/' !in host && path != [] && path[0] == '/'
    ensures IndexOf(host + path, "/") == |host|
  {
    var s := host + path;
    assert s[|host|..|host| + 1] == "/";
    assert OccursAt(s, "/", |host|);
    forall k | 0 <= k < |host| ensures !OccursAt(s, "/", k) {
      assert s[k..k + 1][0] == s[k] == host[k];
    }
  }

  /** `https://` followed by text free of `http://` contains no `http://`. */
  lemma HttpsHasNoHttp(u: string)
    requires !Contains(u, "http://")
    ensures !Contains("https://" + u, "http://")
  {
    var t := "https://" + u;
    forall i | 0 <= i <= |t| ensures !OccursAt(t, "http://", i) {
      if i + 7 <= |t| {
        if i == 0 {
          assert t[i..i + 7][4] == 's';
        } else if i < 8 {
          assert t[i..i + 7][0] == t[i];
          assert t[i] != 'h';
        } else {
          assert t[i..i + 7] == u[i - 8..i - 1];
          assert !OccursAt(u, "http://", i - 8);
        }
      }
    }
  }

  /** Removing both schemes from `scheme + u` leaves `u` when `u` has neither. */
  lemma StripSchemes(scheme: string, u: string)
    requires scheme == "http://" || scheme == "https://"
    requires !Contains(u, "http://") && !Contains(u, "https://")
    ensures Replace(Replace(scheme + u, "http://", ""), "https://", "") == u
  {
    ReplaceAbsent(u, "https://", "");
    if scheme == "http://" {
      ReplacePrefix("http://", u, "");
      ReplaceAbsent(u, "http://", "");
      assert Replace(scheme + u, "http://", "") == u;
    } else {
      HttpsHasNoHttp(u);
      ReplaceAbsent(scheme + u, "http://", "");
      ReplacePrefix("https://", u, "");
      assert Replace(scheme + u, "https://", "") == u;
    }
  }

  /** `http://host/path` (or `https://`) is cut to `/path`. */
  lemma CleanURLStripsHost(scheme: string, host: string, path: string)
    requires scheme == "http://" || scheme == "https://"
    requires '/' !in host && path != [] && path[0] == '/'
    requires path[|path| - 1] != '/' && path[|path| - 1] != '"'
    requires !Contains(host + path, "http://") && !Contains(host + path, "https://")
    ensures CleanURL(scheme + host + path) == path
  {
    var u := host + path;
    assert scheme + host + path == scheme + u;
    StripSchemes(scheme, u);
    assert Unschemed(scheme + host + path) == u;
    IndexOfAfterHost(host, path);
    assert u[|host|..] == path;
    assert FromFirstSlash(u) == path;
    DropTrailingNone(path);
  }

  /** A text ending in neither `"` nor `/` keeps its end. */
  lemma DropTrailingNone(s: string)
    requires s != [] && s[|s| - 1] != '/' && s[|s| - 1] != '"'
    ensures DropTrailing(s) == s
  {
  }

  /** A path that already starts at `/` and has no scheme, trailing `/` or
      trailing `"` is left as it is. */
  lemma CleanURLKeepsPath(path: string)
    requires path != [] && path[0] == '/'
    requires path[|path| - 1] != '/' && path[|path| - 1] != '"'
    requires !Contains(path, "http://") && !Contains(path, "https://")
    ensures CleanURL(path) == path
  {
    ReplaceAbsent(path, "http://", "");
    ReplaceAbsent(path, "https://", "");
    assert path[0..1] == "/";
    assert OccursAt(path, "/", 0);
  }

  /** A trailing `"`, a trailing `/`, or a `/` then a `"`, is dropped from a
      clean path. */
  lemma CleanURLDropsTrailing(path: string, tail: string)
    requires path != [] && path[0] == '/'
    requires path[|path| - 1] != '/' && path[|path| - 1] != '"'
    requires !Contains(path, "http://") && !Contains(path, "https://")
    requires tail in {"\"", "/", "/\""}
    ensures CleanURL(path + tail) == path
  {
    var u := path + tail;
    assert !Contains(u, "http://") by { NoSchemeAfter(path, tail, "http://"); }
    assert !Contains(u, "https://") by { NoSchemeAfter(path, tail, "https://"); }
    ReplaceAbsent(u, "http://", "");
    ReplaceAbsent(u, "https://", "");
    assert u[0..1] == "/";
    assert OccursAt(u, "/", 0);
    assert IndexOf(u, "/") == 0;
    if tail == "/\"" {
      assert u[..|u| - 1] == path + "/";
      assert (path + "/")[..|path|] == path;
    } else {
      assert u[..|u| - 1] == path;
    }
  }

  /** A trailing `"`, `/` or `/"` adds no scheme to a path free of it that
      does not end in `/`: a scheme ends in `//`. */
  lemma NoSchemeAfter(path: string, tail: string, scheme: string)
    requires scheme == "http://" || scheme == "https://"
    requires path != [] && path[|path| - 1] != '/'
    requires !Contains(path, scheme) && tail in {"\"", "/", "/\""}
    ensures !Contains(path + tail, scheme)
  {
    assert |scheme| >= 2 && scheme[|scheme| - 1] == '/' && scheme[|scheme| - 2] == '/';
    assert forall k :: 1 <= k < |tail| ==> tail[k] != '/';
    NoSlashSlashAfter(path, tail, scheme);
  }

  /** A pattern ending in `//` does not newly occur once a tail is appended
      whose characters after the first are not `/`, to a text not ending
      in `/`. */
  lemma NoSlashSlashAfter(path: string, tail: string, p: string)
    requires |p| >= 2 && p[|p| - 1] == '/' && p[|p| - 2] == '/'
    requires path != [] && path[|path| - 1] != '/'
    requires !Contains(path, p)
    requires forall k :: 1 <= k < |tail| ==> tail[k] != '/'
    ensures !Contains(path + tail, p)
  {
    var u := path + tail;
    forall i | 0 <= i <= |u| ensures !OccursAt(u, p, i) {
      assert !OccursAt(path, p, i);
      NoSlashSlashAt(path, tail, p, i);
    }
  }

  lemma NoSlashSlashAt(path: string, tail: string, p: string, i: nat)
    requires |p| >= 2 && p[|p| - 1] == '/' && p[|p| - 2] == '/'
    requires path != [] && path[|path| - 1] != '/'
    requires !OccursAt(path, p, i)
    requires forall k :: 1 <= k < |tail| ==> tail[k] != '/'
    ensures !OccursAt(path + tail, p, i)
  {
    var u := path + tail;
    var e := i + |p|;
    if e <= |path| {
      assert u[i..e] == path[i..e];
    } else if e <= |u| {
      if e - 1 == |path| {
        assert u[i..e][|p| - 2] == u[e - 2] == path[|path| - 1];
      } else {
        assert u[i..e][|p| - 1] == u[e - 1] == tail[e - 1 - |path|];
      }
    }
  }

  predicate IsFormatLetter(c: char) { c == 's' || c == 'd' || c == 'i' || c == 'f' }

  /** `replaceAll("%[sdif]", "{?}")`. */
  function FormattersToUnknown(s: string): string
    decreases |s|
  {
    if s == [] then []
    else if |s| >= 2 && s[0] == '%' && IsFormatLetter(s[1]) then UNKNOWN_VALUE + FormattersToUnknown(s[2..])
    else [s[0]] + FormattersToUnknown(s[1..])
  }

  lemma {:induction false} FormattersAbsent(s: string)
    requires '%' !in s
    ensures FormattersToUnknown(s) == s
    decreases |s|
  {
    if s != [] {
      FormattersAbsent(s[1..]);
    }
  }

  /** The largest index in [lo, hi) holding `c`, or -1. */
  function LastCharIn(s: string, c: char, lo: int, hi: int): (r: int)
    requires 0 <= lo && hi <= |s|
    ensures r == -1 || (lo <= r < hi && s[r] == c)
    ensures r == -1 ==> forall k :: lo <= k < hi ==> s[k] != c
    ensures r != -1 ==> forall k :: r < k < hi ==> s[k] != c
    decreases hi - lo
  {
    if hi <= lo then -1 else if s[hi - 1] == c then hi - 1 else LastCharIn(s, c, lo, hi - 1)
  }

  /** A `"`, later a `/`, and a `"` at least two places after the `/`: what
      `".*(/.+?)"` needs in order to match. */
  predicate QuoteSlashQuote(s: string) {
    exists a, b, c :: 0 <= a < b && b + 1 < c < |s| && s[a] == '"' && s[b] == '/' && s[c] == '"'
  }

  /** The first match of `".*(/.+?)"`, as (start, its group's `/`, index of
      its closing quote): it starts at the first `"`; the greedy `.*` puts the
      `/` as late as a later quote allows, and the lazy `.+?` closes at the
      first quote at least two places after the `/`. */
  function BackupMatch(s: string): (r: Option<(nat, nat, nat)>)
    ensures r.Some? ==> r.value.0 < r.value.1 && r.value.1 + 1 < r.value.2 < |s|
    ensures r.Some? ==> s[r.value.0] == '"' && s[r.value.1] == '/' && s[r.value.2] == '"'
    ensures r.Some? ==> forall a :: 0 <= a < r.value.0 ==> s[a] != '"'
    ensures r.Some? ==> forall k, c :: r.value.1 < k && k + 1 < c < |s| && s[k] == '/' ==> s[c] != '"'
    ensures r.Some? ==> forall c :: r.value.1 + 1 < c < r.value.2 ==> s[c] != '"'
    ensures r.None? <==> !QuoteSlashQuote(s)
  {
    QuotesOccur(s);
    var i := IndexOf(s, "\"");
    if i == -1 then None
    else
      assert s[i..i + 1] == "\"";
      assert s[i] == '"';
      var lq := LastCharIn(s, '"', 0, |s|);
      var p := if lq - 1 <= i + 1 then -1 else LastCharIn(s, '/', i + 1, lq - 1);
      if p == -1 then
        NoQuoteSlashQuote(s, i, lq);
        None
      else
        var q := IndexFrom(s, "\"", p + 2);
        MatchChoice(s, i, lq, p, q);
        Some((i as nat, p as nat, q as nat))
  }

  /** The facts the three searches of `BackupMatch` leave behind pin down
      the match the regular expression selects. */
  lemma MatchChoice(s: string, i: int, lq: int, p: int, q: int)
    requires 0 <= i < |s| && OccursAt(s, "\"", i) && forall a :: 0 <= a < i ==> !OccursAt(s, "\"", a)
    requires 0 <= lq < |s| && s[lq] == '"' && forall k :: lq < k < |s| ==> s[k] != '"'
    requires i + 1 <= p < lq - 1 && s[p] == '/' && forall k :: p < k < lq - 1 ==> s[k] != '/'
    requires q == IndexFrom(s, "\"", p + 2)
    ensures i < p && p + 1 < q < |s|
    ensures s[i] == '"' && s[p] == '/' && s[q] == '"'
    ensures forall a :: 0 <= a < i ==> s[a] != '"'
    ensures forall k, c :: p < k && k + 1 < c < |s| && s[k] == '/' ==> s[c] != '"'
    ensures forall c :: p + 1 < c < q ==> s[c] != '"'
  {
    QuotesOccur(s);
    assert OccursAt(s, "\"", lq);
    assert q != -1;
    assert s[q..q + 1] == "\"";
    assert s[i..i + 1] == "\"";
  }

  /** Every quote of `s` is an occurrence of the one-character pattern. */
  lemma QuotesOccur(s: string)
    ensures forall a :: 0 <= a < |s| && s[a] == '"' ==> OccursAt(s, "\"", a)
  {
    forall a | 0 <= a < |s| && s[a] == '"' ensures OccursAt(s, "\"", a) {
      assert s[a..a + 1] == "\"";
    }
  }

  /** No slash between the first quote and the one before the last quote
      leaves no quote-slash-quote pattern. */
  lemma NoQuoteSlashQuote(s: string, i: nat, lq: int)
    requires i < |s| && forall a :: 0 <= a < i ==> !OccursAt(s, "\"", a)
    requires 0 <= lq < |s| && forall k :: lq < k < |s| ==> s[k] != '"'
    requires forall k :: i + 1 <= k < lq - 1 ==> s[k] != '/'
    ensures !QuoteSlashQuote(s)
  {
    QuotesOccur(s);
  }

  /** What `backupParseURL` makes of the match from `i` to `q`: every `"`
      deleted, formatters turned into `{?}`, then cleaned. */
  function Extracted(text: string, i: nat, q: nat): string
    requires i <= q < |text|
  {
    CleanURL(FormattersToUnknown(RemoveChar(text[i..q + 1], '"')))
  }

  /** `backupParseURL` on an expression's text: the extraction of the first
      match; "" without a match. */
  function BackupParseURL(text: string): (r: string)
    ensures !QuoteSlashQuote(text) ==> r == ""
    ensures BackupMatch(text).Some? ==> r == Extracted(text, BackupMatch(text).value.0, BackupMatch(text).value.2)
  {
    match BackupMatch(text)
    case None => ""
    case Some((i, _, q)) => Extracted(text, i, q)
  }

  /** Where the quotes of `pre"path"post` are, when none of the three
      parts holds one. */
  lemma QuotedShape(pre: string, path: string, post: string)
    requires '"' !in pre && '"' !in path && '"' !in post
    ensures var text := pre + "\"" + path + "\"" + post;
      var i, q := |pre|, |pre| + 1 + |path|;
      q < |text| && text[i] == '"' && text[q] == '"' &&
      text[i + 1..q] == path && text[i..q + 1] == "\"" + path + "\"" &&
      forall a :: 0 <= a < |text| && a != i && a != q ==> text[a] != '"'
  {
    var text := pre + "\"" + path + "\"" + post;
    var i, q := |pre|, |pre| + 1 + |path|;
    forall a | 0 <= a < |text| && a != i && a != q ensures text[a] != '"' {
      if a < i {
        assert text[a] == pre[a];
      } else if a < q {
        assert text[a] == path[a - i - 1];
      } else {
        assert text[a] == post[a - q - 1];
      }
    }
    assert text[i + 1..q] == path;
    assert text[i..q + 1] == "\"" + path + "\"";
  }

  /** A call text holding exactly one quoted clean path, such as
      `getForObject("/users", User.class)`, gives that path. */
  lemma BackupParseURLQuotedPath(pre: string, path: string, post: string)
    requires '"' !in pre && '"' !in path && '"' !in post && '%' !in path
    requires path != [] && path[0] == '/'
    requires path[|path| - 1] != '/'
    requires !Contains(path, "http://") && !Contains(path, "https://")
    ensures BackupParseURL(pre + "\"" + path + "\"" + post) == path
  {
    QuotedShape(pre, path, post);
    BackupAtQuotes(pre + "\"" + path + "\"" + post, |pre|, |pre| + 1 + |path|, path);
  }

  /** The same, for a text whose only quotes are at `i` and `q`. */
  lemma BackupAtQuotes(text: string, i: nat, q: nat, path: string)
    requires i < q < |text| && text[i] == '"' && text[q] == '"'
    requires forall a :: 0 <= a < |text| && a != i && a != q ==> text[a] != '"'
    requires text[i + 1..q] == path && text[i..q + 1] == "\"" + path + "\""
    requires '"' !in path && '%' !in path
    requires path != [] && path[0] == '/' && path[|path| - 1] != '/'
    requires !Contains(path, "http://") && !Contains(path, "https://")
    ensures BackupParseURL(text) == path
  {
    MatchAtQuotes(text, i, q, path);
    assert text[i..q + 1] == [ '"' ] + path + [ '"' ];
    Unquote(path, '"');
    FormattersAbsent(path);
    CleanURLKeepsPath(path);
  }

  /** The match of such a text runs from its first quote to its second. */
  lemma MatchAtQuotes(text: string, i: nat, q: nat, path: string)
    requires i < q < |text| && text[i] == '"' && text[q] == '"'
    requires forall a :: 0 <= a < |text| && a != i && a != q ==> text[a] != '"'
    requires text[i + 1..q] == path && path != [] && path[0] == '/' && path[|path| - 1] != '/'
    ensures BackupMatch(text).Some? && BackupMatch(text).value.0 == i && BackupMatch(text).value.2 == q
  {
    assert |path| >= 2 by { assert path[0] != path[|path| - 1]; }
    assert text[i + 1] == path[0];
    assert QuoteSlashQuote(text) by {
      assert 0 <= i < i + 1 && i + 2 < q < |text|;
    }
  }

  /** Deleting the `c` around a `c`-free text leaves the text. */
  lemma Unquote(s: string, c: char)
    requires c !in s
    ensures RemoveChar([c] + s + [c], c) == s
  {
    RemoveCharLast(s, c);
    assert ([c] + s + [c])[1..] == s + [c];
  }

  /** The field-value lookup of `parseFieldValue`: the first declaration whose
      declarators' text contains the name and whose first declarator has an
      initializer gives that initializer, outer quotes removed. */
  function FieldValue(fields: seq<FieldDecl>, fieldName: string): string {
    if fields == [] then ""
    else if Contains(fields[0].VariablesText(), fieldName) && fields[0].first.init.Some? then
      RemoveOuterQuotations(fields[0].first.init.value.Text())
    else FieldValue(fields[1..], fieldName)
  }

  predicate FieldMatches(fd: FieldDecl, fieldName: string) {
    Contains(fd.VariablesText(), fieldName) && fd.first.init.Some?
  }

  /** `parseFieldValue`: the search loop over the field declarations. */
  method ParseFieldValue(fields: seq<FieldDecl>, fieldName: string) returns (value: string)
    ensures value == FieldValue(fields, fieldName)
  {
    var i := 0;
    while i < |fields|
      invariant 0 <= i <= |fields|
      invariant FieldValue(fields[i..], fieldName) == FieldValue(fields, fieldName)
    {
      assert fields[i..][1..] == fields[i + 1..];
      if Contains(fields[i].VariablesText(), fieldName) {
        var init := fields[i].first.init;
        if init.Some? {
          return RemoveOuterQuotations(init.value.Text());
        }
      }
      i := i + 1;
    }
    return "";
  }

  /** The lookup returns the first matching declaration's initializer, and ""
      when none matches. */
  lemma {:induction false} FieldValueFirst(fields: seq<FieldDecl>, fieldName: string, k: nat)
    requires k < |fields| && FieldMatches(fields[k], fieldName)
    requires forall j :: 0 <= j < k ==> !FieldMatches(fields[j], fieldName)
    ensures FieldValue(fields, fieldName) == RemoveOuterQuotations(fields[k].first.init.value.Text())
    decreases k
  {
    if k > 0 {
      FieldValueFirst(fields[1..], fieldName, k - 1);
    }
  }

  lemma {:induction false} FieldValueNone(fields: seq<FieldDecl>, fieldName: string)
    requires forall j :: 0 <= j < |fields| ==> !FieldMatches(fields[j], fieldName)
    ensures FieldValue(fields, fieldName) == ""
    decreases |fields|
  {
    if fields != [] {
      FieldValueNone(fields[1..], fieldName);
    }
  }

  /** `parseURL`; None where it never returns (a parenthesised expression
      re-enters `parseURL` on itself). */
  function ParseURL(e: Expr, fields: seq<FieldDecl>): Option<string> {
    match e
    case StringLit(v) => Some(v)
    case FieldAccess(_, name) => Some(FieldValue(fields, name))
    case Binary(l, _, r) =>
      (match (ParseURL(l, fields), ParseURL(r, fields))
       case (Some(a), Some(b)) => Some(a + b)
       case _ => None)
    case Enclosed(_) => None
    case CallText(_) =>
      var b := BackupParseURL(e.Text());
      Some(if b == "" then UNKNOWN_VALUE else b)
    case Name(n) => Some(if Contains(n, "uri") || Contains(n, "url") then "" else UNKNOWN_VALUE)
    case Other(_) => Some(BackupParseURL(e.Text()))
  }

  /** A parenthesised expression reached through `+` chains. */
  predicate HasEnclosed(e: Expr) {
    match e
    case Enclosed(_) => true
    case Binary(l, _, r) => HasEnclosed(l) || HasEnclosed(r)
    case _ => false
  }

  /** `parseURL` fails to return exactly when a parenthesised expression is
      reached; otherwise a `+` chain resolves to its parts' concatenation. */
  lemma {:induction false} ParseURLDivergesIff(e: Expr, fields: seq<FieldDecl>)
    ensures ParseURL(e, fields).None? <==> HasEnclosed(e)
  {
    match e
    case Binary(l, _, r) =>
      ParseURLDivergesIff(l, fields);
      ParseURLDivergesIff(r, fields);
    case _ =>
  }

  lemma ParseURLBinary(l: Expr, op: string, r: Expr, fields: seq<FieldDecl>)
    requires !HasEnclosed(l) && !HasEnclosed(r)
    ensures ParseURL(l, fields).Some? && ParseURL(r, fields).Some?
    ensures ParseURL(Binary(l, op, r), fields) == Some(ParseURL(l, fields).value + ParseURL(r, fields).value)
  {
    ParseURLDivergesIff(l, fields);
    ParseURLDivergesIff(r, fields);
  }

  /** Names: a `uri`/`url` variable gives "", any other `{?}`; a call whose
      text has no quoted path gives `{?}`. */
  lemma ParseURLLeaves(n: string, t: string, fields: seq<FieldDecl>)
    ensures ParseURL(Name(n), fields) == Some(if Contains(n, "uri") || Contains(n, "url") then "" else "{?}")
    ensures !QuoteSlashQuote(t) ==> ParseURL(CallText(t), fields) == Some("{?}")
  {
  }

  /** A first argument's URL: "" for empty text, the cleaned `parseURL`
      otherwise; `get(0)` on an empty argument list throws. */
  function FirstArgumentURL(arguments: seq<Expr>, fields: seq<FieldDecl>): Outcome<string> {
    if |arguments| == 0 then Throws("IndexOutOfBoundsException")
    else if arguments[0].Text() == "" then Done("")
    else match ParseURL(arguments[0], fields)
      case None => Diverges
      case Some(u) => Done(CleanURL(u))
  }

  /** An empty argument list throws, an empty first argument gives "", a
      parenthesised one never returns, and any other is cleaned. */
  lemma FirstArgumentURLSpec(arguments: seq<Expr>, fields: seq<FieldDecl>)
    ensures arguments == [] ==> FirstArgumentURL(arguments, fields).Throws?
    ensures arguments != [] && arguments[0].Text() == "" ==> FirstArgumentURL(arguments, fields) == Done("")
    ensures FirstArgumentURL(arguments, fields).Diverges? <==>
      arguments != [] && arguments[0].Text() != "" && HasEnclosed(arguments[0])
    ensures arguments != [] && arguments[0].Text() != "" && !HasEnclosed(arguments[0]) ==>
      ParseURL(arguments[0], fields).Some? &&
      FirstArgumentURL(arguments, fields) == Done(CleanURL(ParseURL(arguments[0], fields).value))
  {
    if arguments != [] {
      ParseURLDivergesIff(arguments[0], fields);
    }
  }

  /** `preParseURL`: for a WebClient the first argument of the enclosing call
      (none: ""), otherwise the call's own first argument. */
  function PreParseURL(call: CallExpr, objectType: string, fields: seq<FieldDecl>): (r: Outcome<string>)
    ensures objectType == "WebClient" && call.parentCallArguments.None? ==> r == Done("")
    ensures objectType != "WebClient" && call.arguments == [] ==> r.Throws?
  {
    if objectType == "WebClient" then
      match call.parentCallArguments
      case None => Done("")
      case Some(parentArguments) => FirstArgumentURL(parentArguments, fields)
    else FirstArgumentURL(call.arguments, fields)
  }

  /** `new RestCallTemplate(mce, mc, cu)`. */
  function NewTemplate(call: CallExpr, objectType: string, fields: seq<FieldDecl>): (r: Outcome<Template>)
    ensures r.Done? <==> PreParseURL(call, objectType, fields).Done?
    ensures r.Done? ==> r.value.url == SimplifyEndpointURL(PreParseURL(call, objectType, fields).value)
    ensures r.Done? ==> SimplifyEndpointURL(r.value.url) == r.value.url
    ensures r.Done? ==> r.value.httpMethod == GetHttpFromName(call.name, call.arguments)
  {
    match PreParseURL(call, objectType, fields)
    case Done(u) =>
      SimplifyIdempotent(u);
      Done(Template(SimplifyEndpointURL(u), GetHttpFromName(call.name, call.arguments)))
    case Diverges => Diverges
    case Throws(x) => Throws(x)
  }
}
