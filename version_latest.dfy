/** `ether version latest` (`Sources/Ether/VersionLatest.swift`): every GitHub dependency
    entry of the manifest gets, as its version argument, `Version(a,b,c)` built from the
    version the package catalogue reports. The catalogue is a function parameter. */
module VersionLatest {
  import opened Wrappers
  import opened Strings
  import opened PackageText

  const GitHub: string := "https://github.com"

  /** The eight spaces the rewrite pattern demands right before `.Package`. */
  const Spaces: string := "        "

  /** The entry head both patterns spell out, case included. */
  const Head: string := ".Package(url:"

  /** The characters of the captured path: `\d`, `\w`, `:`, `/`, `.`, `@` and `-`. */
  predicate IsPathChar(c: char)
  {
    IsWordChar(c) || c == ':' || c == '/' || c == '.' || c == '@' || c == '-'
  }

  /** `https://github.com<path>.git` with a non-empty path. */
  predicate IsGitHubUrl(url: string)
  {
    |url| > |GitHub| + 4 && url[..|GitHub|] == GitHub && url[|url| - 4..] == ".git"
  }

  /** The path of a GitHub URL: what lies between the host and `.git`. */
  function PathOf(url: string): (p: string)
    requires IsGitHubUrl(url)
    ensures url == GitHub + p + ".git" && p != []
  {
    assert url == url[..|GitHub|] + url[|GitHub|..|url| - 4] + url[|url| - 4..];
    url[|GitHub|..|url| - 4]
  }

  /** A URL names exactly one path. */
  lemma PathOfUnique(p: string)
    requires p != []
    ensures IsGitHubUrl(GitHub + p + ".git") && PathOf(GitHub + p + ".git") == p
  {
    var url := GitHub + p + ".git";
    assert url[..|GitHub|] == GitHub;
    assert url[|url| - 4..] == ".git";
    assert url[|GitHub|..|url| - 4] == p;
  }

  /** The `$1` of the detection pattern, when it finds the entry. */
  function DetectedPath(e: Entry): (r: Option<string>)
    ensures r.Some? ==> e.url == GitHub + r.value + ".git" && r.value != []
    ensures r.Some? ==> forall k :: 0 <= k < |r.value| ==> IsPathChar(r.value[k])
  {
    if e.head == Head && IsGitHubUrl(e.url) && IsVersionArg(e.version)
       && forall k :: 0 <= k < |PathOf(e.url)| ==> IsPathChar(PathOf(e.url)[k])
    then Some(PathOf(e.url))
    else None
  }

  /** The paths of the entries the detection pattern finds, in text order. */
  function Detected(doc: seq<Chunk>): seq<string>
  {
    if doc == [] then [] else Found(doc[0]) + Detected(doc[1..])
  }

  /** The path one chunk contributes: that of an entry the pattern finds. */
  function Found(c: Chunk): seq<string>
  {
    if c.Dep? && DetectedPath(c.entry).Some? then [DetectedPath(c.entry).value] else []
  }

  /** At most one path per chunk, and each path listed is that of an entry found. */
  lemma {:induction false} DetectedOnlyFound(doc: seq<Chunk>)
    ensures |Detected(doc)| <= |doc|
    ensures forall p :: p in Detected(doc) ==>
              exists i :: 0 <= i < |doc| && doc[i].Dep? && DetectedPath(doc[i].entry) == Some(p)
  {
    if doc != [] {
      DetectedOnlyFound(doc[1..]);
      assert forall i :: 1 <= i < |doc| ==> doc[i] == doc[1..][i - 1];
    }
  }

  /** Detection splits over a concatenation of documents; with `DetectedOne` this fixes
      the order and the multiplicity of the paths: one per entry found, in text order. */
  lemma {:induction false} DetectedAppend(a: seq<Chunk>, b: seq<Chunk>)
    ensures Detected(a + b) == Detected(a) + Detected(b)
  {
    if a == [] {
      assert a + b == b;
    } else {
      assert (a + b)[0] == a[0] && (a + b)[1..] == a[1..] + b;
      DetectedAppend(a[1..], b);
    }
  }

  /** An entry lists its path exactly when the pattern finds one; text lists nothing. */
  lemma DetectedOne(c: Chunk, path: string)
    ensures c.Dep? && DetectedPath(c.entry) == Some(path) ==> Detected([c]) == [path]
    ensures c.Dep? && DetectedPath(c.entry).None? ==> Detected([c]) == []
    ensures c.Text? ==> Detected([c]) == []
  {
    assert Detected([c]) == Found(c) + Detected([]);
  }

  /** Every entry found is listed. */
  lemma {:induction false} DetectedListsAll(doc: seq<Chunk>, i: nat)
    requires i < |doc| && doc[i].Dep? && DetectedPath(doc[i].entry).Some?
    ensures DetectedPath(doc[i].entry).value in Detected(doc)
    decreases i
  {
    if i > 0 {
      DetectedListsAll(doc[1..], i - 1);
    }
  }

  /** `"a.b.c"` as `Version(a,b,c)`, from the first three pieces of the version split on
      dots (empty pieces dropped). With fewer pieces the source indexes out of range and
      traps: `None`. */
  function FormatVersion(v: string): Option<string>
  {
    var parts := Split(v, '.');
    if |parts| < 3 then None
    else Some("Version(" + parts[0] + "," + parts[1] + "," + parts[2] + ")")
  }

  /** A version written `a.b.c`, with any further parts, becomes `Version(a,b,c)`. */
  lemma FormatVersionParts(a: string, b: string, c: string, more: seq<string>)
    requires a != "" && b != "" && c != "" && '.' !in a && '.' !in b && '.' !in c
    requires forall m :: m in more ==> m != "" && '.' !in m
    ensures FormatVersion(JoinWith([a, b, c] + more, ".")) == Some("Version(" + a + "," + b + "," + c + ")")
  {
    var names := [a, b, c] + more;
    assert ['.'] + "" == ".";
    SplitJoined(names, '.', "", "");
    var parts := Split(JoinWith(names, "."), '.');
    assert parts[0] == "" + a == a;
    assert parts[1] == "" + b == b;
    assert parts[2] == "" + c == c;
  }

  /** An entry the rewrite pattern finds for some path: indented by eight spaces, spelled
      `.Package(url:`, on a GitHub URL, with a version argument. */
  predicate Rewritable(e: Entry)
  {
    EndsWith(e.lead, Spaces) && e.head == Head && IsGitHubUrl(e.url) && IsVersionArg(e.version)
  }

  predicate FindsFor(e: Entry, path: string)
  {
    Rewritable(e) && PathOf(e.url) == path
  }

  function Rewrite(c: Chunk, path: string, formatted: string): Chunk
  {
    if c.Dep? && FindsFor(c.entry, path) then Dep(c.entry.(version := formatted)) else c
  }

  /** `replaceMatches(..., withTemplate: "$1<formatted>$3")`: each entry found for `path`
      keeps its text up to the version argument and its closing parenthesis, and gets
      `formatted` as the argument; nothing else changes. */
  function RewriteAll(doc: seq<Chunk>, path: string, formatted: string): (r: seq<Chunk>)
    ensures |r| == |doc|
    ensures forall i :: 0 <= i < |doc| ==> r[i] == Rewrite(doc[i], path, formatted)
  {
    seq(|doc|, i requires 0 <= i < |doc| => Rewrite(doc[i], path, formatted))
  }

  /** What the catalogue answers for a path. */
  datatype Lookup = RequestError | Json(version: Option<string>)

  datatype LatestError =
    | NoDependencies
    | RequestFailed(path: string)
    | BadVersionKey(path: string)
    | TooFewParts(path: string)
    | PatternNotFound(path: string)

  /** The manifest after the run and the error that ended it, if any. The manifest is
      written after each entry, so edits made before a failure stay. */
  datatype Outcome = Outcome(doc: seq<Chunk>, error: Option<LatestError>)

  /** One pass of the `for` loop. */
  function Update(doc: seq<Chunk>, path: string, lookup: string -> Lookup): Result<seq<Chunk>, LatestError>
  {
    match lookup(path)
    case RequestError => Err(RequestFailed(path))
    case Json(None) => Err(BadVersionKey(path))
    case Json(Some(v)) =>
      match FormatVersion(v)
      case None => Err(TooFewParts(path))
      case Some(formatted) =>
        if exists e :: e in Entries(doc) && FindsFor(e, path) then Ok(RewriteAll(doc, path, formatted))
        else Err(PatternNotFound(path))
  }

  function UpdateAll(doc: seq<Chunk>, paths: seq<string>, lookup: string -> Lookup): Outcome
    decreases |paths|
  {
    if paths == [] then Outcome(doc, None)
    else match Update(doc, paths[0], lookup)
      case Err(e) => Outcome(doc, Some(e))
      case Ok(next) => UpdateAll(next, paths[1..], lookup)
  }

  /** `run(arguments:)` on the manifest text. */
  function RunLatest(doc: seq<Chunk>, lookup: string -> Lookup): Outcome
  {
    if Detected(doc) == [] then Outcome(doc, Some(NoDependencies)) else UpdateAll(doc, Detected(doc), lookup)
  }

  /** The version argument the catalogue's answer for `path` yields. */
  function NewVersion(path: string, lookup: string -> Lookup): string
  {
    match lookup(path)
    case Json(Some(v)) => (match FormatVersion(v) case Some(f) => f case None => "")
    case _ => ""
  }

  /** What a run that ends without error does to one chunk. */
  function Expected(c: Chunk, paths: seq<string>, lookup: string -> Lookup): Chunk
  {
    if c.Dep? && Rewritable(c.entry) && PathOf(c.entry.url) in paths
    then Dep(c.entry.(version := NewVersion(PathOf(c.entry.url), lookup)))
    else c
  }

  lemma {:induction false} UpdateAllEffect(doc: seq<Chunk>, paths: seq<string>, lookup: string -> Lookup)
    requires UpdateAll(doc, paths, lookup).error.None?
    ensures var r := UpdateAll(doc, paths, lookup).doc;
            |r| == |doc| && forall i :: 0 <= i < |doc| ==>
              if doc[i].Dep? && Rewritable(doc[i].entry) && PathOf(doc[i].entry.url) in paths
              then r[i].Dep? && r[i].entry == doc[i].entry.(version := NewVersion(PathOf(doc[i].entry.url), lookup))
              else r[i] == doc[i]
    decreases |paths|
  {
    if paths != [] {
      var p := paths[0];
      var next := Update(doc, p, lookup).value;
      var f := NewVersion(p, lookup);
      assert next == RewriteAll(doc, p, f);
      UpdateAllEffect(next, paths[1..], lookup);
      var r := UpdateAll(doc, paths, lookup).doc;
      forall i | 0 <= i < |doc|
        ensures if doc[i].Dep? && Rewritable(doc[i].entry) && PathOf(doc[i].entry.url) in paths
                then r[i].Dep? && r[i].entry == doc[i].entry.(version := NewVersion(PathOf(doc[i].entry.url), lookup))
                else r[i] == doc[i]
      {
        if doc[i].Dep? && Rewritable(doc[i].entry) && PathOf(doc[i].entry.url) == p {
          assert next[i] == Dep(doc[i].entry.(version := f));
        } else {
          assert next[i] == doc[i];
          if doc[i].Dep? && Rewritable(doc[i].entry) && PathOf(doc[i].entry.url) in paths {
            assert PathOf(doc[i].entry.url) in paths[1..];
          }
        }
      }
    }
  }

  /** After a run without error, every entry the rewrite pattern finds for a detected
      path carries `Version(a,b,c)` from the catalogue's answer for that path; every other
      chunk, and everything of those entries but the version argument, is as before. */
  lemma LatestEffect(doc: seq<Chunk>, lookup: string -> Lookup)
    requires RunLatest(doc, lookup).error.None?
    ensures |RunLatest(doc, lookup).doc| == |doc|
    ensures forall i :: 0 <= i < |doc| ==> RunLatest(doc, lookup).doc[i] == Expected(doc[i], Detected(doc), lookup)
    ensures forall i :: 0 <= i < |doc| && doc[i].Dep? && Rewritable(doc[i].entry) && DetectedPath(doc[i].entry).Some? ==>
              RunLatest(doc, lookup).doc[i] == Dep(doc[i].entry.(version := NewVersion(DetectedPath(doc[i].entry).value, lookup)))
  {
    UpdateAllEffect(doc, Detected(doc), lookup);
    forall i | 0 <= i < |doc| && doc[i].Dep? && Rewritable(doc[i].entry) && DetectedPath(doc[i].entry).Some?
      ensures PathOf(doc[i].entry.url) in Detected(doc)
    {
      DetectedListsAll(doc, i);
    }
  }

  /** A manifest with no GitHub entry is left alone and the command fails. */
  lemma NothingDetected(doc: seq<Chunk>, lookup: string -> Lookup)
    requires forall e :: e in Entries(doc) ==> DetectedPath(e).None?
    ensures RunLatest(doc, lookup) == Outcome(doc, Some(NoDependencies))
  {
    NothingDetectedEmpty(doc);
  }

  lemma {:induction false} NothingDetectedEmpty(doc: seq<Chunk>)
    requires forall e :: e in Entries(doc) ==> DetectedPath(e).None?
    ensures Detected(doc) == []
  {
    if doc != [] {
      assert doc == [doc[0]] + doc[1..];
      EntriesCons(doc[0], doc[1..]);
      NothingDetectedEmpty(doc[1..]);
    }
  }

  /** The manifest file `version latest` rewrites. */
  class ManifestFile {
    var chunks: seq<Chunk>

    constructor (chunks: seq<Chunk>)
      ensures this.chunks == chunks
    {
      this.chunks := chunks;
    }

    /** `run(arguments:)`: the entries are visited in text order, one catalogue lookup and
        one rewrite each, the file written after every rewrite. */
    method Latest(lookup: string -> Lookup) returns (error: Option<LatestError>)
      modifies this
      ensures Outcome(chunks, error) == RunLatest(old(chunks), lookup)
    {
      var paths := Detected(chunks);
      if |paths| == 0 {
        return Some(NoDependencies);
      }
      for k := 0 to |paths|
        invariant UpdateAll(chunks, paths[k..], lookup) == RunLatest(old(chunks), lookup)
      {
        var path := paths[k];
        assert paths[k..][0] == path && paths[k..][1..] == paths[k + 1..];
        var answer := lookup(path);
        if answer.RequestError? {
          return Some(RequestFailed(path));
        }
        if answer.version.None? {
          return Some(BadVersionKey(path));
        }
        var formatted := FormatVersion(answer.version.value);
        if formatted.None? {
          return Some(TooFewParts(path));
        }
        if !exists e :: e in Entries(chunks) && FindsFor(e, path) {
          return Some(PatternNotFound(path));
        }
        chunks := RewriteAll(chunks, path, formatted.value);
      }
      return None;
    }
  }
}
