/** Properties of the directory walk: what ends up in the tree, what the
    file counter counts, and which files feed the extractors. */
module WalkerProperties {
  import opened Wrappers
  import opened Strings
  import opened RepoTree
  import opened Extractors
  import opened Walker

  /** No hidden or noise name anywhere in the tree, as a directory or a file. */
  predicate Clean(n: Node) {
    && (forall f :: f in n.files ==> !IsSkipped(f))
    && (forall c :: c in n.dirs ==> !IsSkipped(c.name) && Clean(c.node))
  }

  /** Every kept non-directory entry reachable through kept directories,
      in the order the walk meets them. */
  function ReachableFiles(l: Listing): seq<Item>
    decreases l
  {
    match l
    case Entries(items) => ItemsFiles(items)
    case _ => []
  }

  function ItemsFiles(items: seq<Item>): seq<Item>
    decreases items
  {
    if |items| == 0 then []
    else
      var it := items[0];
      var here :=
        if IsSkipped(it.name) then []
        else match it.kind
          case Dir(sub) => ReachableFiles(sub)
          case NonDir => [it];
      here + ItemsFiles(items[1..])
  }

  /** The names of the kept non-directory entries of one listing, in order. */
  function KeptFileNames(items: seq<Item>): seq<string> {
    if |items| == 0 then []
    else if !IsSkipped(items[0].name) && items[0].kind.NonDir? then
      [items[0].name] + KeptFileNames(items[1..])
    else KeptFileNames(items[1..])
  }

  /** The names of the kept directory entries of one listing. */
  function KeptDirNames(items: seq<Item>): set<string> {
    set it | it in items && !IsSkipped(it.name) && it.kind.Dir? :: it.name
  }

  function ItemNames(items: seq<Item>): set<string> {
    set it | it in items :: it.name
  }

  /** Entry names are unique within each listing, at every depth (as they
      are in a real repository). */
  predicate DistinctNames(l: Listing)
    decreases l
  {
    match l
    case Entries(items) => DistinctItems(items)
    case _ => true
  }

  predicate DistinctItems(items: seq<Item>)
    decreases items
  {
    && (forall i, j :: 0 <= i < j < |items| ==> items[i].name != items[j].name)
    && (forall it :: it in items && it.kind.Dir? ==> DistinctNames(it.kind.listing))
  }

  /** Visiting files one after the other: the file counter and the
      collections after all of `files`. */
  function VisitAll(files: seq<Item>, run: Run, scan: Scanner): Run {
    if |files| == 0 then run else VisitAll(files[1..], VisitFile(files[0], run, scan), scan)
  }

  lemma {:induction false} VisitAllAppend(a: seq<Item>, b: seq<Item>, run: Run, scan: Scanner)
    ensures VisitAll(a + b, run, scan) == VisitAll(b, VisitAll(a, run, scan), scan)
  {
    if |a| > 0 {
      assert (a + b)[1..] == a[1..] + b;
      VisitAllAppend(a[1..], b, VisitFile(a[0], run, scan), scan);
    } else {
      assert a + b == b;
    }
  }

  /** A failed contents request, or a body that is not a list, gives an
      empty directory and leaves the file counter and collections as they
      were. */
  lemma FailedListingIsEmpty(l: Listing, run: Run, scan: Scanner)
    requires l.Unavailable? || l.NotAList? || l == Entries([])
    ensures WalkListing(l, run, scan) == Walked(EmptyNode, run)
  {
  }

  /** The walk's effect on the run state is that of visiting its reachable
      files in order. */
  lemma {:induction false} WalkVisitsReachableFiles(l: Listing, run: Run, scan: Scanner)
    ensures WalkListing(l, run, scan).run == VisitAll(ReachableFiles(l), run, scan)
    decreases l
  {
    match l
    case Entries(items) => WalkItemsVisits(items, EmptyNode, run, scan);
    case _ =>
  }

  lemma {:induction false} WalkItemsVisits(items: seq<Item>, node: Node, run: Run, scan: Scanner)
    ensures WalkItems(items, node, run, scan).run == VisitAll(ItemsFiles(items), run, scan)
    decreases items
  {
    if |items| > 0 {
      var it := items[0];
      if IsSkipped(it.name) {
        assert WalkItems(items, node, run, scan) == WalkItems(items[1..], node, run, scan);
        WalkItemsVisits(items[1..], node, run, scan);
        assert ItemsFiles(items) == [] + ItemsFiles(items[1..]);
        assert ItemsFiles(items) == ItemsFiles(items[1..]);
        assert WalkItems(items, node, run, scan).run == VisitAll(ItemsFiles(items[1..]), run, scan);
      } else {
        match it.kind
        case Dir(sub) =>
          var w := WalkListing(sub, run, scan);
          assert WalkItems(items, node, run, scan) ==
            WalkItems(items[1..], PutDir(node, it.name, w.node), w.run, scan);
          assert ItemsFiles(items) == ReachableFiles(sub) + ItemsFiles(items[1..]);
          WalkVisitsReachableFiles(sub, run, scan);
          WalkItemsVisits(items[1..], PutDir(node, it.name, w.node), w.run, scan);
          VisitAllAppend(ReachableFiles(sub), ItemsFiles(items[1..]), run, scan);
        case NonDir =>
          assert WalkItems(items, node, run, scan) ==
            WalkItems(items[1..], AddFile(node, it.name), VisitFile(it, run, scan), scan);
          assert ItemsFiles(items) == [it] + ItemsFiles(items[1..]);
          WalkItemsVisits(items[1..], AddFile(node, it.name), VisitFile(it, run, scan), scan);
          VisitAllAppend([it], ItemsFiles(items[1..]), run, scan);
          assert VisitAll([it], run, scan) == VisitAll([], VisitFile(it, run, scan), scan);
      }
    }
  }

  /** `file` is the path of one of `files` that is a code file and got past
      the size, URL and download checks to an extractor. */
  predicate AnalysedFrom(file: string, files: seq<Item>) {
    exists it :: it in files && it.path == file && IsCodeFile(it.name) && ReachesExtractor(it)
  }

  /** Visiting one file counts it and appends only records naming its path,
      and only when it is a code file that reaches an extractor. */
  lemma VisitFileEffect(it: Item, run: Run, scan: Scanner)
    ensures var r := VisitFile(it, run, scan);
      && r.fileCount == run.fileCount + 1
      && run.collected.functions <= r.collected.functions
      && run.collected.classes <= r.collected.classes
      && (forall f :: f in r.collected.functions[|run.collected.functions|..] ==>
            f.file == it.path && IsCodeFile(it.name) && ReachesExtractor(it))
      && (forall c :: c in r.collected.classes[|run.collected.classes|..] ==>
            c.file == it.path && IsCodeFile(it.name) && ReachesExtractor(it))
  {
  }

  /** An element appended across two steps was appended in one of them. */
  lemma SuffixSplit<T>(a: seq<T>, b: seq<T>, c: seq<T>, x: T)
    requires a <= b <= c && x in c[|a|..]
    ensures x in b[|a|..] || x in c[|b|..]
  {
    var k :| |a| <= k < |c| && c[k] == x;
    if k < |b| {
      assert b[k] == x;
      assert b[|a|..][k - |a|] == x;
    } else {
      assert c[|b|..][k - |b|] == x;
    }
  }

  /** Visiting files counts each one once and only appends to the
      collections, and everything appended comes from a visited code file
      that got past the size, URL and download checks to an extractor. */
  lemma {:induction false} VisitAllEffect(files: seq<Item>, run: Run, scan: Scanner)
    ensures var r := VisitAll(files, run, scan);
      && r.fileCount == run.fileCount + |files|
      && run.collected.functions <= r.collected.functions
      && run.collected.classes <= r.collected.classes
      && (forall f :: f in r.collected.functions[|run.collected.functions|..] ==> AnalysedFrom(f.file, files))
      && (forall c :: c in r.collected.classes[|run.collected.classes|..] ==> AnalysedFrom(c.file, files))
  {
    if |files| > 0 {
      var it := files[0];
      var mid := VisitFile(it, run, scan);
      VisitFileEffect(it, run, scan);
      VisitAllEffect(files[1..], mid, scan);
      var r := VisitAll(files, run, scan);
      assert r == VisitAll(files[1..], mid, scan);
      var a, b, c := run.collected, mid.collected, r.collected;
      assert it in files;
      forall f | f in c.functions[|a.functions|..] ensures AnalysedFrom(f.file, files) {
        SuffixSplit(a.functions, b.functions, c.functions, f);
        if f !in b.functions[|a.functions|..] {
          var it' :| it' in files[1..] && it'.path == f.file && IsCodeFile(it'.name) && ReachesExtractor(it');
          assert it' in files;
        }
      }
      forall cl | cl in c.classes[|a.classes|..] ensures AnalysedFrom(cl.file, files) {
        SuffixSplit(a.classes, b.classes, c.classes, cl);
        if cl !in b.classes[|a.classes|..] {
          var it' :| it' in files[1..] && it'.path == cl.file && IsCodeFile(it'.name) && ReachesExtractor(it');
          assert it' in files;
        }
      }
    }
  }

  /** The walk's run-wide effect: `file_count` grows by exactly the number
      of kept files reachable through kept directories, the collections are
      only appended to, and every record appended names the path of one of
      those files that is a code file and got to an extractor. */
  lemma WalkRun(l: Listing, run: Run, scan: Scanner)
    ensures var r := WalkListing(l, run, scan).run;
      && r.fileCount == run.fileCount + |ReachableFiles(l)|
      && run.collected.functions <= r.collected.functions
      && run.collected.classes <= r.collected.classes
      && (forall f :: f in r.collected.functions[|run.collected.functions|..] ==> AnalysedFrom(f.file, ReachableFiles(l)))
      && (forall c :: c in r.collected.classes[|run.collected.classes|..] ==> AnalysedFrom(c.file, ReachableFiles(l)))
  {
    WalkVisitsReachableFiles(l, run, scan);
    VisitAllEffect(ReachableFiles(l), run, scan);
  }

  /** No hidden or noise entry appears anywhere in the walked tree. */
  lemma {:induction false} WalkIsClean(l: Listing, run: Run, scan: Scanner)
    ensures Clean(WalkListing(l, run, scan).node)
    decreases l
  {
    match l
    case Entries(items) => WalkItemsClean(items, EmptyNode, run, scan);
    case _ =>
  }

  lemma {:induction false} WalkItemsClean(items: seq<Item>, node: Node, run: Run, scan: Scanner)
    requires Clean(node)
    ensures Clean(WalkItems(items, node, run, scan).node)
    decreases items
  {
    if |items| > 0 {
      var it := items[0];
      if IsSkipped(it.name) {
        WalkItemsClean(items[1..], node, run, scan);
      } else {
        match it.kind
        case Dir(sub) =>
          var w := WalkListing(sub, run, scan);
          WalkIsClean(sub, run, scan);
          var node' := PutDir(node, it.name, w.node);
          assert Clean(node') by {
            forall c | c in node'.dirs ensures !IsSkipped(c.name) && Clean(c.node) {
              assert c in node.dirs || c == Child(it.name, w.node);
            }
          }
          WalkItemsClean(items[1..], node', w.run, scan);
        case NonDir =>
          WalkItemsClean(items[1..], AddFile(node, it.name), VisitFile(it, run, scan), scan);
      }
    }
  }

  /** One step of the loop over a listing: the first entry is handled
      and the file names still to come are unchanged. */
  lemma WalkFilesStep(items: seq<Item>, node: Node, run: Run, scan: Scanner) returns (node': Node, run': Run)
    requires |items| > 0
    ensures WalkItems(items, node, run, scan) == WalkItems(items[1..], node', run', scan)
    ensures node'.files + KeptFileNames(items[1..]) == node.files + KeptFileNames(items)
  {
    var it := items[0];
    if IsSkipped(it.name) {
      node', run' := node, run;
    } else {
      match it.kind
      case Dir(sub) =>
        var w := WalkListing(sub, run, scan);
        node', run' := PutDir(node, it.name, w.node), w.run;
      case NonDir =>
        node', run' := AddFile(node, it.name), VisitFile(it, run, scan);
        assert node.files + [it.name] + KeptFileNames(items[1..]) ==
          node.files + ([it.name] + KeptFileNames(items[1..]));
    }
  }

  /** Each kept non-directory entry of a listing puts its name in the file
      list exactly once, in listing order, and nothing else does. */
  lemma {:induction false} WalkItemsFiles(items: seq<Item>, node: Node, run: Run, scan: Scanner)
    ensures WalkItems(items, node, run, scan).node.files == node.files + KeptFileNames(items)
    decreases items
  {
    if |items| > 0 {
      var node', run' := WalkFilesStep(items, node, run, scan);
      WalkItemsFiles(items[1..], node', run', scan);
    } else {
      assert node.files + [] == node.files;
    }
  }

  lemma {:induction false} KeptFileNamesEmpty(items: seq<Item>)
    ensures |KeptFileNames(items)| == 0 <==>
      forall i :: 0 <= i < |items| ==> IsSkipped(items[i].name) || items[i].kind.Dir?
  {
    if |items| > 0 {
      KeptFileNamesEmpty(items[1..]);
      assert forall i :: 1 <= i < |items| ==> items[i] == items[1..][i - 1];
    }
  }

  /** The top level of a walked listing: its file list holds the kept
      non-directory names in order (so the file list is non-empty exactly
      when some file was kept), and its directories are the kept directory
      entries. */
  lemma WalkLevel(items: seq<Item>, run: Run, scan: Scanner)
    ensures var n := WalkListing(Entries(items), run, scan).node;
      && n.files == KeptFileNames(items)
      && (|n.files| > 0 <==> exists i :: 0 <= i < |items| && !IsSkipped(items[i].name) && items[i].kind.NonDir?)
      && DirNames(n.dirs) == KeptDirNames(items)
  {
    WalkItemsFiles(items, EmptyNode, run, scan);
    KeptFileNamesEmpty(items);
    WalkItemsDirNames(items, EmptyNode, run, scan);
    assert DirNames(EmptyNode.dirs) == {};
  }

  lemma {:induction false} WalkItemsDirNames(items: seq<Item>, node: Node, run: Run, scan: Scanner)
    ensures DirNames(WalkItems(items, node, run, scan).node.dirs) == DirNames(node.dirs) + KeptDirNames(items)
    decreases items
  {
    if |items| > 0 {
      var it := items[0];
      assert items == [it] + items[1..];
      assert KeptDirNames(items) ==
        (if !IsSkipped(it.name) && it.kind.Dir? then {it.name} else {}) + KeptDirNames(items[1..]);
      if IsSkipped(it.name) {
        WalkItemsDirNames(items[1..], node, run, scan);
      } else {
        match it.kind
        case Dir(sub) =>
          var w := WalkListing(sub, run, scan);
          WalkItemsDirNames(items[1..], PutDir(node, it.name, w.node), w.run, scan);
        case NonDir =>
          WalkItemsDirNames(items[1..], AddFile(node, it.name), VisitFile(it, run, scan), scan);
      }
    } else {
      assert KeptDirNames(items) == {};
    }
  }

  /** With unique names per directory, the tree holds one file name per
      kept reachable file. */
  lemma {:induction false} WalkFileTotal(l: Listing, run: Run, scan: Scanner)
    requires DistinctNames(l)
    ensures FileTotal(WalkListing(l, run, scan).node) == |ReachableFiles(l)|
    decreases l
  {
    match l
    case Entries(items) =>
      assert DirNames(EmptyNode.dirs) == {};
      WalkItemsFileTotal(items, EmptyNode, run, scan);
    case _ =>
  }

  lemma {:induction false} WalkItemsFileTotal(items: seq<Item>, node: Node, run: Run, scan: Scanner)
    requires DistinctItems(items)
    requires DirNames(node.dirs) !! ItemNames(items)
    ensures FileTotal(WalkItems(items, node, run, scan).node) == FileTotal(node) + |ItemsFiles(items)|
    decreases items
  {
    if |items| > 0 {
      var it := items[0];
      var rest := items[1..];
      assert DistinctItems(rest) by {
        forall i, j | 0 <= i < j < |rest| ensures rest[i].name != rest[j].name {
          assert rest[i] == items[i + 1] && rest[j] == items[j + 1];
        }
      }
      assert it.name !in ItemNames(rest);
      assert ItemNames(rest) <= ItemNames(items) by {
        forall x | x in ItemNames(rest) ensures x in ItemNames(items) {
          var o :| o in rest && o.name == x;
          assert o in items;
        }
      }
      if IsSkipped(it.name) {
        WalkItemsFileTotal(rest, node, run, scan);
        assert ItemsFiles(items) == [] + ItemsFiles(rest);
      } else {
        match it.kind
        case Dir(sub) =>
          var w := WalkListing(sub, run, scan);
          assert it in items;
          WalkFileTotal(sub, run, scan);
          assert it.name in ItemNames(items);
          var node' := PutDir(node, it.name, w.node);
          assert node'.dirs == node.dirs + [Child(it.name, w.node)];
          FilesInDirsAppend(node.dirs, Child(it.name, w.node));
          assert FileTotal(node') == FileTotal(node) + |ReachableFiles(sub)|;
          WalkItemsFileTotal(rest, node', w.run, scan);
          assert ItemsFiles(items) == ReachableFiles(sub) + ItemsFiles(rest);
        case NonDir =>
          WalkItemsFileTotal(rest, AddFile(node, it.name), VisitFile(it, run, scan), scan);
          assert ItemsFiles(items) == [it] + ItemsFiles(rest);
      }
    }
  }

  /** With unique names per directory, `file_count` grows by exactly the
      number of file names the walked tree holds. */
  lemma WalkCountMatchesTree(l: Listing, run: Run, scan: Scanner)
    requires DistinctNames(l)
    ensures var w := WalkListing(l, run, scan);
      w.run.fileCount == run.fileCount + FileTotal(w.node)
  {
    WalkRun(l, run, scan);
    WalkFileTotal(l, run, scan);
  }
}
