/** The recursive directory walk `fetch_directory_contents` with the file
    selection of `_is_code_file` and `_analyze_file_content`.

    The remote repository is given as a finite `Listing`: what the contents
    request returned for one directory, with each sub-directory's own
    listing inside its entry, and for each file what downloading it gave.
    The pattern matching of the extractors is the parameter `scan`. */
module Walker {
  import opened Wrappers
  import opened Strings
  import opened RepoTree
  import opened Extractors

  /** The answer to the contents request for one directory. */
  datatype Listing =
    | Unavailable          // the request failed (reported as `None`)
    | NotAList             // the body was not a list of entries
    | Entries(items: seq<Item>)

  /** One entry of a listing. `download` is the text obtained from
      `download_url`, absent when that request failed. */
  datatype Item = Item(
    name: string,
    path: string,
    kind: ItemKind,
    size: Option<int>,
    downloadUrl: Option<string>,
    download: Option<string>)

  /** Entries whose type is `dir` carry their own listing; every other type
      (file, symlink, submodule) is treated as a file. */
  datatype ItemKind = Dir(listing: Listing) | NonDir

  /** The run-wide state the walk updates: `file_count` and the collections. */
  datatype Run = Run(fileCount: nat, collected: Collected)

  /** The result of walking one directory. */
  datatype Walked = Walked(node: Node, run: Run)

  type Scanner = (Language, string) -> Scan

  const MaxAnalysedSize: int := 500000

  /** The recognised code-file extensions, in the analyzer's order. */
  const CodeExtensions: seq<string> :=
    [".py", ".js", ".java", ".cpp", ".c", ".go", ".rb", ".php", ".ts", ".jsx", ".tsx", ".kt", ".kts"]

  /** Hidden entries and the two noise directories are never walked. */
  predicate IsSkipped(name: string) {
    IsPrefix(".", name) || name == "node_modules" || name == "__pycache__"
  }

  /** Index of the last `c` in `s`, or -1. */
  function LastIndex(s: string, c: char): (r: int)
    ensures -1 <= r < |s|
    ensures r >= 0 ==> s[r] == c
    ensures forall j :: r < j < |s| ==> s[j] != c
  {
    if |s| == 0 then -1
    else if s[|s| - 1] == c then |s| - 1
    else LastIndex(s[..|s| - 1], c)
  }

  /** `os.path.splitext` splits `name` at the dot `d`: the last dot, with
      no '/' after it, and some character of its path component before it
      that is not a dot. */
  predicate SplitsAt(name: string, d: int) {
    && 0 <= d < |name| && name[d] == '.'
    && (forall m :: d < m < |name| ==> name[m] != '.' && name[m] != '/')
    && exists k :: 0 <= k < d && name[k] != '.' && name[k] != '/'
         && forall m :: k < m < d ==> name[m] != '/'
  }

  /** The extension part of `os.path.splitext(name)`: from the last dot of
      the last path component, provided that dot is preceded in the
      component by something other than dots; otherwise "". */
  function Extension(name: string): (ext: string)
    ensures ext == [] || (ext[0] == '.' && forall j :: 1 <= j < |ext| ==> ext[j] != '.' && ext[j] != '/')
    ensures ext != [] ==> |ext| < |name| && name[|name| - |ext|..] == ext
    ensures ext != [] <==> exists d :: SplitsAt(name, d)
    ensures forall d :: SplitsAt(name, d) ==> ext == name[d..]
  {
    var sepIndex := LastIndex(name, '/');
    var dotIndex := LastIndex(name, '.');
    SplitsAtLastDot(name, sepIndex, dotIndex);
    if dotIndex > sepIndex && exists k :: sepIndex < k < dotIndex && name[k] != '.' then
      name[dotIndex..]
    else ""
  }

  /** The only dot `splitext` can split at is the last one, and it does
      exactly when the condition `Extension` tests holds. */
  lemma SplitsAtLastDot(name: string, sepIndex: int, dotIndex: int)
    requires sepIndex == LastIndex(name, '/') && dotIndex == LastIndex(name, '.')
    ensures forall d :: SplitsAt(name, d) ==> d == dotIndex
    ensures (exists d :: SplitsAt(name, d)) <==>
      dotIndex > sepIndex && exists k :: sepIndex < k < dotIndex && name[k] != '.'
  {
    if (exists d :: SplitsAt(name, d)) {
      var d :| SplitsAt(name, d);
      var k :| 0 <= k < d && name[k] != '.' && name[k] != '/' && forall m :: k < m < d ==> name[m] != '/';
      assert sepIndex < k < dotIndex && name[k] != '.';
    }
    if dotIndex > sepIndex && exists k :: sepIndex < k < dotIndex && name[k] != '.' {
      var k :| sepIndex < k < dotIndex && name[k] != '.';
      assert name[k] != '/';
      assert SplitsAt(name, dotIndex);
    }
  }

  /** A name whose only dot is its first character has no extension. */
  lemma DotFileHasNoExtension(name: string)
    requires |name| > 0 && name[0] == '.' && '.' !in name[1..]
    ensures Extension(name) == ""
  {
    forall m | 1 <= m < |name| ensures name[m] != '.' {
      assert name[m] == name[1..][m - 1];
    }
  }

  /** A dot in a directory name does not make an extension. */
  lemma DotOnlyInDirectory(name: string, sep: nat)
    requires sep < |name| && name[sep] == '/' && '.' !in name[sep + 1..]
    ensures Extension(name) == ""
  {
    forall m | sep < m < |name| ensures name[m] != '.' {
      assert name[m] == name[sep + 1..][m - sep - 1];
    }
  }

  /** `splitext` on typical names: a code file and a compound extension. */
  lemma ExtensionExamples()
    ensures Extension("main.py") == ".py"
    ensures Extension("app.test.js") == ".js"
  {
    assert SplitsAt("main.py", 4) by {
      assert "main.py"[0] != '.' && "main.py"[0] != '/';
    }
    assert SplitsAt("app.test.js", 8) by {
      assert "app.test.js"[0] != '.' && "app.test.js"[0] != '/';
    }
    assert "main.py"[4..] == ".py";
    assert "app.test.js"[8..] == ".js";
  }

  /** A dot file and a dot in a directory name give no extension. */
  lemma NoExtensionExamples()
    ensures Extension(".bashrc") == ""
    ensures Extension("v1.2/Makefile") == ""
  {
    assert ".bashrc"[1..] == "bashrc";
    DotFileHasNoExtension(".bashrc");
    assert "v1.2/Makefile"[5..] == "Makefile";
    DotOnlyInDirectory("v1.2/Makefile", 4);
  }

  /** `_is_code_file`: the lower-cased extension is in the allow-list. */
  predicate IsCodeFile(name: string) {
    Extension(Lower(name)) in CodeExtensions
  }

  /** The extractor an extension is sent to, if any. */
  function ExtractorFor(ext: string): Option<Language> {
    if ext == ".py" then Some(Python)
    else if ext in [".js", ".jsx", ".ts", ".tsx"] then Some(JavaScript)
    else if ext == ".java" then Some(Java)
    else if ext in [".kt", ".kts"] then Some(Kotlin)
    else None
  }

  /** Only allow-listed extensions reach an extractor, and five of them
      (C, C++, Go, Ruby, PHP) are downloaded but reach none. */
  lemma ExtractorsCoverPartOfAllowList(ext: string)
    ensures ExtractorFor(ext).Some? ==> ext in CodeExtensions
    ensures ext in [".cpp", ".c", ".go", ".rb", ".php"] ==> ext in CodeExtensions && ExtractorFor(ext) == None
    ensures |CodeExtensions| == 13
  {
  }

  /** Whether `_analyze_file_content` gets as far as an extractor for `it`:
      size within the ceiling (a missing size counts as 0), a download URL,
      a successful download and an extension with an extractor. */
  predicate ReachesExtractor(it: Item) {
    && it.size.GetOr(0) <= MaxAnalysedSize
    && it.downloadUrl.Some? && it.downloadUrl.value != ""
    && it.download.Some?
    && ExtractorFor(Extension(Lower(it.name))).Some?
  }

  /** `_analyze_file_content`: skips files over the size ceiling, files
      without a download URL and failed downloads, then dispatches the
      text to the extractor for the extension. */
  function AnalyseFileContent(it: Item, acc: Collected, scan: Scanner): (r: Collected)
    ensures !ReachesExtractor(it) ==> r == acc
    ensures it.size.GetOr(0) > MaxAnalysedSize ==> r == acc
    ensures ReachesExtractor(it) ==>
      var lang := ExtractorFor(Extension(Lower(it.name))).value;
      r == Extract(lang, acc, scan(lang, it.download.value), it.path)
  {
    if it.size.GetOr(0) > MaxAnalysedSize then acc
    else if it.downloadUrl.None? || it.downloadUrl.value == "" then acc
    else
      match it.download
      case None => acc
      case Some(text) =>
        match ExtractorFor(Extension(Lower(it.name)))
        case None => acc
        case Some(lang) => Extract(lang, acc, scan(lang, text), it.path)
  }

  /** What the walk does with a kept file: count it and, for a code file,
      analyse it. */
  function VisitFile(it: Item, run: Run, scan: Scanner): Run {
    Run(run.fileCount + 1,
        if IsCodeFile(it.name) then AnalyseFileContent(it, run.collected, scan) else run.collected)
  }

  /** `fetch_directory_contents` for one directory. */
  function WalkListing(l: Listing, run: Run, scan: Scanner): Walked
    decreases l
  {
    match l
    case Entries(items) => WalkItems(items, EmptyNode, run, scan)
    case _ => Walked(EmptyNode, run)
  }

  /** The loop over the entries of one listing, `node` being the
      dictionary built so far. */
  function WalkItems(items: seq<Item>, node: Node, run: Run, scan: Scanner): Walked
    decreases items
  {
    if |items| == 0 then Walked(node, run)
    else
      var it := items[0];
      if IsSkipped(it.name) then WalkItems(items[1..], node, run, scan)
      else
        match it.kind
        case Dir(sub) =>
          var w := WalkListing(sub, run, scan);
          WalkItems(items[1..], PutDir(node, it.name, w.node), w.run, scan)
        case NonDir =>
          WalkItems(items[1..], AddFile(node, it.name), VisitFile(it, run, scan), scan)
  }
}
