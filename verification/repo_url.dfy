/** Validation of the repository URL done when the analyzer is constructed
    (`GitHubAPIAnalyzer.__init__`). The URL parser itself is not modelled:
    the input is the path component of the parsed URL. */
module RepoUrl {
  import opened Wrappers
  import opened Strings

  /** The owner and repository name taken from the URL path. */
  datatype Repo = Repo(owner: string, name: string)

  /** Strips the slashes around the path, splits it on '/', and takes the
      first two segments as owner and repository; fewer than two segments
      is the one fatal input error of a run. */
  function ParseRepoPath(path: string): (r: Result<Repo>)
    ensures r.Err? <==> '/' !in Strip(path, '/')
    ensures r.Err? ==> r.message == "Invalid GitHub repository URL"
    ensures r.Ok? ==> '/' !in r.value.owner && '/' !in r.value.name
    ensures r.Ok? ==>
      var t := Strip(path, '/');
      var n := |r.value.owner| + 1 + |r.value.name|;
      && IsPrefix(r.value.owner + "/" + r.value.name, t)
      && (n == |t| || t[n] == '/')
  {
    var t := Strip(path, '/');
    var parts := Split(t, '/');
    if |parts| < 2 then Err("Invalid GitHub repository URL")
    else
      FirstTwoPieces(parts, '/');
      Ok(Repo(parts[0], parts[1]))
  }

  /** A join of two or more pieces starts with the first two, joined, and
      continues with the separator if at all. */
  lemma FirstTwoPieces(parts: seq<string>, sep: char)
    requires |parts| >= 2
    ensures var t := Join(parts, sep);
            var n := |parts[0]| + 1 + |parts[1]|;
            && IsPrefix(parts[0] + [sep] + parts[1], t)
            && (n == |t| || t[n] == sep)
  {
    var rest := Join(parts[1..], sep);
    JoinHead(parts[1..], sep);
    assert Join(parts, sep) == parts[0] + [sep] + rest;
    assert parts[1..][0] == parts[1];
    var t := Join(parts, sep);
    var n := |parts[0]| + 1 + |parts[1]|;
    assert t[..n] == parts[0] + [sep] + rest[..|parts[1]|];
    assert |parts[1..]| >= 2 ==> t[n] == rest[|parts[1]|];
  }

  /** The path of a repository's own URL parses back to that repository,
      whatever follows it after a further '/', trailing slashes included. */
  lemma ParseRepoUrlPath(owner: string, name: string, rest: string)
    requires owner != [] && name != []
    requires '/' !in owner && '/' !in name
    requires rest == [] || rest[0] == '/'
    ensures ParseRepoPath("/" + owner + "/" + name + rest) == Ok(Repo(owner, name))
  {
    var a := owner + ['/'] + name;
    var tail := StripRight(rest, '/');
    PathShape(owner, name, rest);
    OwnerNameEnds(owner, name);
    StripUrlPath(a, rest);
    TailShape(rest, tail);
    SplitOwnerName(owner, name, tail);
    ParseStripped("/" + owner + "/" + name + rest, a + tail);
  }

  lemma PathShape(owner: string, name: string, rest: string)
    ensures "/" + owner + "/" + name + rest == ['/'] + (owner + ['/'] + name + rest)
  {
  }

  lemma TailShape(rest: string, tail: string)
    requires rest == [] || rest[0] == '/'
    requires tail == StripRight(rest, '/')
    ensures tail == [] || tail[0] == '/'
  {
    if tail != [] {
      assert tail[0] == rest[..|tail|][0];
    }
  }

  /** `ParseRepoPath` takes the first two pieces of the stripped path. */
  lemma ParseStripped(path: string, t: string)
    requires Strip(path, '/') == t && |Split(t, '/')| >= 2
    ensures ParseRepoPath(path) == Ok(Repo(Split(t, '/')[0], Split(t, '/')[1]))
  {
  }

  lemma OwnerNameEnds(owner: string, name: string)
    requires owner != [] && name != []
    requires '/' !in owner && '/' !in name
    ensures var a := owner + ['/'] + name; a[0] != '/' && a[|a| - 1] != '/'
  {
    assert owner[0] in owner && name[|name| - 1] in name;
  }

  /** Stripping `/a` followed by a '/'-led tail, where `a` neither starts
      nor ends with '/', drops the leading '/' and only the tail's
      trailing slashes. */
  lemma StripUrlPath(a: string, rest: string)
    requires |a| > 0 && a[0] != '/' && a[|a| - 1] != '/'
    ensures Strip(['/'] + (a + rest), '/') == a + StripRight(rest, '/')
  {
    LeadingSlashOnly(a + rest);
    StripRightAfter(a, rest, '/');
  }

  lemma LeadingSlashOnly(s: string)
    requires |s| > 0 && s[0] != '/'
    ensures StripLeft(['/'] + s, '/') == s
  {
    var p := ['/'] + s;
    assert p[1..] == s;
    StripLeftCons(p, '/');
  }

  /** Splitting `owner/name` followed by a '/'-led tail starts with the
      owner and the name. */
  lemma SplitOwnerName(owner: string, name: string, tail: string)
    requires '/' !in owner && '/' !in name
    requires tail == [] || tail[0] == '/'
    ensures var parts := Split(owner + ['/'] + name + tail, '/');
            |parts| >= 2 && parts[0] == owner && parts[1] == name
  {
    assert owner + ['/'] + name + tail == owner + ['/'] + (name + tail);
    assert Split(owner + ['/'] + (name + tail), '/') == [owner] + Split(name + tail, '/') by {
      SplitAfterPiece(owner, '/', name + tail);
    }
    SplitHead(name, tail);
  }

  lemma SplitHead(name: string, tail: string)
    requires '/' !in name
    requires tail == [] || tail[0] == '/'
    ensures Split(name + tail, '/')[0] == name
  {
    if tail != [] {
      assert tail == ['/'] + tail[1..];
      assert name + tail == name + ['/'] + tail[1..];
      SplitAfterPiece(name, '/', tail[1..]);
    } else {
      assert name + tail == name;
    }
  }
}
