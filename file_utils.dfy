/**
 * FileUtils: path conventions of the repository clone and the file filters.
 * The platform's file separator (`System.getProperty("file.separator")`) is
 * a parameter `sep`; git paths always use `/`.
 */
module FileUtils {
  import opened JavaStrings

  const VALID_FILES: seq<string> := ["pom.xml", ".java", ".yml", "build.gradle"]
  const GIT_SEPARATOR: string := "/"
  const DEFAULT_CLONE_PATH: string := "clone"
  const DOT: string := "."

  function GetClonePath(sep: string): string {
    DOT + sep + DEFAULT_CLONE_PATH
  }

  /** `getRepositoryPath`: `./clone/<repoName>` with the platform separator. */
  function GetRepositoryPath(sep: string, repoName: string): (r: string)
    ensures r == "." + sep + "clone" + sep + repoName
  {
    GetClonePath(sep) + sep + repoName
  }

  /** `localPathToGitPath`: every occurrence of the repository path is deleted
      and every separator becomes `/`. */
  function LocalPathToGitPath(sep: string, localPath: string, repoName: string): string {
    Replace(Replace(localPath, GetRepositoryPath(sep, repoName), ""), sep, GIT_SEPARATOR)
  }

  /** `gitPathToLocalPath`: the repository path, then the git path with every
      `/` turned into the separator. */
  function GitPathToLocalPath(sep: string, gitPath: string, repoName: string): string {
    GetRepositoryPath(sep, repoName) + Replace(gitPath, GIT_SEPARATOR, sep)
  }

  /** `getGitPathNoFileName`: all but the last `/`-separated part, re-joined;
      `/` when the split gives at most one part. */
  function GetGitPathNoFileName(path: string): string {
    var split := Split(path, '/');
    if |split| > 1 then Join(split[..|split| - 1], GIT_SEPARATOR) else GIT_SEPARATOR
  }

  predicate EndsWithAny(path: string, suffixes: seq<string>) {
    exists k :: 0 <= k < |suffixes| && EndsWith(path, suffixes[k])
  }

  /** `isValidFile`: the early-return search over VALID_FILES. */
  function IsValidFile(path: string): (r: bool)
    ensures r <==> !Contains(path, ".github") && EndsWithAny(path, VALID_FILES)
  {
    if Contains(path, ".github") then false else FirstSuffix(path, VALID_FILES)
  }

  function FirstSuffix(path: string, suffixes: seq<string>): (r: bool)
    ensures r <==> EndsWithAny(path, suffixes)
  {
    if suffixes == [] then false
    else if EndsWith(path, suffixes[0]) then true
    else
      var r := FirstSuffix(path, suffixes[1..]);
      assert EndsWithAny(path, suffixes[1..]) ==> EndsWithAny(path, suffixes) by {
        if EndsWithAny(path, suffixes[1..]) {
          var k :| 0 <= k < |suffixes[1..]| && EndsWith(path, suffixes[1..][k]);
          assert EndsWith(path, suffixes[k + 1]);
        }
      }
      assert EndsWithAny(path, suffixes) ==> EndsWithAny(path, suffixes[1..]) by {
        if EndsWithAny(path, suffixes) {
          var k :| 0 <= k < |suffixes| && EndsWith(path, suffixes[k]);
          assert k != 0;
          assert EndsWith(path, suffixes[1..][k - 1]);
        }
      }
      r
  }

  /** `isConfigurationFile`. */
  function IsConfigurationFile(path: string): (r: bool)
    ensures r ==> IsValidFile(path)
    ensures EndsWith(path, ".java") ==> !r
  {
    IsValidFile(path) && !EndsWith(path, ".java")
  }

  lemma GithubNeverValid(path: string)
    requires Contains(path, ".github")
    ensures !IsValidFile(path) && !IsConfigurationFile(path)
  {
  }

  /** Outside `.github`, validity is exactly the four suffixes. */
  lemma ValidFileSuffixes(path: string)
    requires !Contains(path, ".github")
    ensures IsValidFile(path) <==>
      (EndsWith(path, "pom.xml") || EndsWith(path, ".java") || EndsWith(path, ".yml") || EndsWith(path, "build.gradle"))
  {
    if EndsWith(path, "pom.xml") { assert EndsWith(path, VALID_FILES[0]); }
    if EndsWith(path, ".java") { assert EndsWith(path, VALID_FILES[1]); }
    if EndsWith(path, ".yml") { assert EndsWith(path, VALID_FILES[2]); }
    if EndsWith(path, "build.gradle") { assert EndsWith(path, VALID_FILES[3]); }
  }

  /** A configuration file is a valid file that is not Java source. */
  lemma ConfigurationFileIff(path: string)
    ensures IsConfigurationFile(path) <==> IsValidFile(path) && !EndsWith(path, ".java")
  {
  }

  lemma {:induction false} MapCharBack(s: string, a: char, b: char)
    requires b !in s
    ensures MapChar(MapChar(s, a, b), b, a) == s
  {
    var m := MapChar(s, a, b);
    var back := MapChar(m, b, a);
    forall i | 0 <= i < |s| ensures back[i] == s[i] {
      assert s[i] != b;
    }
  }

  lemma MapCharSame(s: string, a: char)
    ensures MapChar(s, a, a) == s
  {
    var m := MapChar(s, a, a);
    assert forall i :: 0 <= i < |s| ==> m[i] == s[i];
  }

  /** With `/` as the separator, a git path that does not contain the
      repository path survives the trip to a local path and back. */
  lemma GitLocalRoundTrip(gitPath: string, repoName: string)
    requires !Contains(gitPath, GetRepositoryPath("/", repoName))
    ensures LocalPathToGitPath("/", GitPathToLocalPath("/", gitPath, repoName), repoName) == gitPath
  {
    var rp := GetRepositoryPath("/", repoName);
    ReplaceCharIsMap(gitPath, '/', '/');
    MapCharSame(gitPath, '/');
    assert GitPathToLocalPath("/", gitPath, repoName) == rp + gitPath;
    ReplacePrefix(rp, gitPath, "");
    ReplaceAbsent(gitPath, rp, "");
    assert Replace(rp + gitPath, rp, "") == gitPath;
  }

  /** With a one-character separator `c`, a git path free of `c` whose local
      form does not contain the repository path survives the round trip. */
  lemma GitLocalRoundTripSep(c: char, gitPath: string, repoName: string)
    requires c !in gitPath
    requires !Contains(MapChar(gitPath, '/', c), GetRepositoryPath([c], repoName))
    ensures LocalPathToGitPath([c], GitPathToLocalPath([c], gitPath, repoName), repoName) == gitPath
  {
    var rp := GetRepositoryPath([c], repoName);
    var local := MapChar(gitPath, '/', c);
    ReplaceCharIsMap(gitPath, '/', c);
    assert GitPathToLocalPath([c], gitPath, repoName) == rp + local;
    ReplacePrefix(rp, local, "");
    ReplaceAbsent(local, rp, "");
    assert Replace(rp + local, rp, "") == local;
    ReplaceCharIsMap(local, c, '/');
    assert GIT_SEPARATOR == ['/'];
    MapCharBack(gitPath, '/', c);
    assert Replace(local, [c], GIT_SEPARATOR) == gitPath;
  }

  lemma {:induction false} PiecesAppend(d: string, c: char, f: string)
    requires c !in f
    ensures Pieces(d + [c] + f, c) == Pieces(d, c) + [f]
    decreases |d|
  {
    var s := d + [c] + f;
    if c !in d {
      assert s[..|d|] == d;
      assert FirstChar(s, c) == |d|;
      assert s[..|d|] == d;
      assert s[|d| + 1..] == f;
    } else {
      var i := FirstChar(d, c);
      assert s[..i + 1] == d[..i + 1];
      assert FirstChar(s, c) == i;
      assert s[..i] == d[..i];
      assert s[i + 1..] == d[i + 1..] + [c] + f;
      assert Pieces(s, c) == [d[..i]] + Pieces(d[i + 1..] + [c] + f, c);
      PiecesAppend(d[i + 1..], c, f);
      assert Pieces(d, c) == [d[..i]] + Pieces(d[i + 1..], c);
      ConsSnoc(d[..i], Pieces(d[i + 1..], c), f);
    }
  }

  lemma ConsSnoc(x: string, p: seq<string>, f: string)
    ensures [x] + (p + [f]) == ([x] + p) + [f]
  {
  }

  /** A path `dir/file` with a non-empty last part loses exactly that part. */
  lemma GitPathNoFileNameDrops(dir: string, file: string)
    requires file != [] && '/' !in file
    ensures GetGitPathNoFileName(dir + "/" + file) == dir
  {
    var s := dir + "/" + file;
    PiecesAppend(dir, '/', file);
    assert s[|dir|] == '/';
    var p := Pieces(dir, '/') + [file];
    assert DropTrailingEmpty(p) == p;
    assert p[..|p| - 1] == Pieces(dir, '/');
    JoinPieces(dir, '/');
  }

  /** A path with no `/` gives the bare separator. */
  lemma GitPathNoFileNameShort(path: string)
    requires '/' !in path
    ensures GetGitPathNoFileName(path) == "/"
  {
  }
}
