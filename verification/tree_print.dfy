/** `print_structure`: the text drawing of the repository structure used in
    the generated README and in the downloadable documentation. Each level
    lists its files, sorted, then its sub-directories, sorted, each on one
    line behind the level's prefix and a connector; a directory line is
    followed by the drawing of its contents under a longer prefix. The
    drawing is returned as its list of lines (the source ends each line
    with a newline and concatenates them).

    The source sorts each level as it draws it. The model does the same in
    two steps that give the same lines: `SortTree` puts every level in
    order, and `Draw` renders a tree in the order it is given. */
module TreePrint {
  import opened Strings
  import opened Sorting
  import opened RepoTree

  /** Connector of the last entry of a level. */
  const LastTee: string := "└── "
  /** Connector of every other entry. */
  const Tee: string := "├── "
  /** Prefix extension below the last directory of a level. */
  const Blank: string := "    "
  /** Prefix extension below every other directory. */
  const Bar: string := "│   "

  function Connector(isLast: bool): string {
    if isLast then LastTee else Tee
  }

  function ChildPrefix(prefix: string, isLast: bool): string {
    prefix + (if isLast then Blank else Bar)
  }

  /** Directories are ordered by their dictionary key. */
  predicate ChildLe(a: Child, b: Child) {
    StrLe(a.name, b.name)
  }

  /** The tree with every level's files sorted and its directories sorted
      by name, at every depth. */
  function SortTree(n: Node): Node {
    Node(Sort(SortChildren(n.dirs), ChildLe), Sort(n.files, StrLe))
  }

  function SortChildren(cs: seq<Child>): (r: seq<Child>)
    ensures |r| == |cs|
  {
    if |cs| == 0 then []
    else [Child(cs[0].name, SortTree(cs[0].node))] + SortChildren(cs[1..])
  }

  /** The line of the `i`-th of `files`; a file is the last entry of its
      level only when no directory follows it. */
  function FileLine(files: seq<string>, i: nat, prefix: string, noDirs: bool): string
    requires i < |files|
  {
    prefix + Connector(i == |files| - 1 && noDirs) + files[i]
  }

  /** The lines of the level's files, in the given order. */
  function FileLines(files: seq<string>, prefix: string, noDirs: bool): (r: seq<string>)
    ensures |r| == |files|
  {
    if |files| == 0 then []
    else [prefix + Connector(|files| == 1 && noDirs) + files[0]] + FileLines(files[1..], prefix, noDirs)
  }

  function DirLine(prefix: string, name: string, isLast: bool): string {
    prefix + Connector(isLast) + name + "/"
  }

  /** The drawing of `t` behind `prefix`, each level in the order given. */
  function Draw(t: Node, prefix: string): seq<string>
    decreases EntryTotal(t), 1
  {
    FileLines(t.files, prefix, |t.dirs| == 0) + DrawDirs(t.dirs, prefix)
  }

  /** The lines of the directories `ds` of one level, the last of which
      closes the level. */
  function DrawDirs(ds: seq<Child>, prefix: string): seq<string>
    decreases EntriesInDirs(ds), 0
  {
    if |ds| == 0 then []
    else
      var isLast := |ds| == 1;
      [DirLine(prefix, ds[0].name, isLast)]
      + Draw(ds[0].node, ChildPrefix(prefix, isLast))
      + DrawDirs(ds[1..], prefix)
  }

  /** `print_structure(structure, prefix)`. */
  function Print(n: Node, prefix: string): seq<string> {
    Draw(SortTree(n), prefix)
  }

  lemma StrLeTotalPreorder()
    ensures TotalPreorder(StrLe)
  {
    forall a, b ensures StrLe(a, b) || StrLe(b, a) {
      StrLeTotal(a, b);
    }
    forall a, b, c | StrLe(a, b) && StrLe(b, c) ensures StrLe(a, c) {
      StrLeTransitive(a, b, c);
    }
  }

  lemma ChildLeTotalPreorder()
    ensures TotalPreorder(ChildLe)
  {
    forall a, b ensures ChildLe(a, b) || ChildLe(b, a) {
      StrLeTotal(a.name, b.name);
    }
    forall a, b, c | ChildLe(a, b) && ChildLe(b, c) ensures ChildLe(a, c) {
      StrLeTransitive(a.name, b.name, c.name);
    }
  }

  lemma {:induction false} SortChildrenAt(cs: seq<Child>, i: nat)
    requires i < |cs|
    ensures SortChildren(cs)[i] == Child(cs[i].name, SortTree(cs[i].node))
    decreases i
  {
    if i > 0 {
      SortChildrenAt(cs[1..], i - 1);
    }
  }

  /** Each level lists its files in ascending order and its directories
      in ascending order of name; each group is a rearrangement of the
      level's own entries, and every directory keeps its own sub-tree. */
  lemma LevelOrder(n: Node)
    ensures SortedBy(SortTree(n).files, StrLe)
    ensures multiset(SortTree(n).files) == multiset(n.files)
    ensures SortedBy(SortTree(n).dirs, ChildLe)
    ensures multiset(SortTree(n).dirs) == multiset(SortChildren(n.dirs))
  {
    StrLeTotalPreorder();
    ChildLeTotalPreorder();
    SortSorted(n.files, StrLe);
    SortSorted(SortChildren(n.dirs), ChildLe);
    SortPermutation(n.files, StrLe);
    SortPermutation(SortChildren(n.dirs), ChildLe);
  }

  /** The `j`-th sorted directory is one of the level's directories, with
      its own contents sorted. */
  lemma SortedDirFrom(n: Node, j: nat)
    requires j < |n.dirs|
    ensures j < |SortTree(n).dirs|
    ensures exists k :: 0 <= k < |n.dirs|
              && SortTree(n).dirs[j] == Child(n.dirs[k].name, SortTree(n.dirs[k].node))
  {
    var cs := SortChildren(n.dirs);
    var ds := SortTree(n).dirs;
    SortPermutation(cs, ChildLe);
    assert ds[j] in multiset(ds);
    assert ds[j] in multiset(cs);
    var k :| 0 <= k < |cs| && cs[k] == ds[j];
    SortChildrenAt(n.dirs, k);
  }

  /** Sorting keeps the number of entries at every depth. */
  lemma {:induction false} SortTreeEntries(n: Node)
    ensures |SortTree(n).files| == |n.files| && |SortTree(n).dirs| == |n.dirs|
    ensures EntryTotal(SortTree(n)) == EntryTotal(n)
    decreases n, 1
  {
    SortChildrenEntries(n.dirs);
    SortPermutation(SortChildren(n.dirs), ChildLe);
    EntriesInDirsPermutation(SortTree(n).dirs, SortChildren(n.dirs));
  }

  lemma {:induction false} SortChildrenEntries(cs: seq<Child>)
    ensures EntriesInDirs(SortChildren(cs)) == EntriesInDirs(cs)
    decreases cs, 0
  {
    if |cs| > 0 {
      SortTreeEntries(cs[0].node);
      SortChildrenEntries(cs[1..]);
      assert SortChildren(cs)[1..] == SortChildren(cs[1..]);
    }
  }

  /** One line per file and per directory, at every depth. */
  lemma {:induction false} DrawLength(t: Node, prefix: string)
    ensures |Draw(t, prefix)| == EntryTotal(t)
    decreases EntryTotal(t), 1
  {
    DrawDirsLength(t.dirs, prefix);
  }

  lemma {:induction false} DrawDirsLength(ds: seq<Child>, prefix: string)
    ensures |DrawDirs(ds, prefix)| == EntriesInDirs(ds)
    decreases EntriesInDirs(ds), 0
  {
    if |ds| > 0 {
      DrawLength(ds[0].node, ChildPrefix(prefix, |ds| == 1));
      DrawDirsLength(ds[1..], prefix);
    }
  }

  lemma PrintLength(n: Node, prefix: string)
    ensures |Print(n, prefix)| == |n.files| + EntriesInDirs(n.dirs)
    ensures |Print(n, prefix)| == EntryTotal(n)
  {
    DrawLength(SortTree(n), prefix);
    SortTreeEntries(n);
  }

  lemma FileLinesPrefix(files: seq<string>, prefix: string, noDirs: bool)
    ensures forall k :: 0 <= k < |files| ==> IsPrefix(prefix, FileLines(files, prefix, noDirs)[k])
  {
    forall k | 0 <= k < |files| ensures IsPrefix(prefix, FileLines(files, prefix, noDirs)[k]) {
      FileLinesAt(files, prefix, noDirs, k);
      var line := FileLine(files, k, prefix, noDirs);
      assert line[..|prefix|] == prefix;
    }
  }

  /** Every line of a drawing starts with the prefix it was drawn behind. */
  lemma {:induction false} DrawPrefix(t: Node, prefix: string)
    ensures forall k :: 0 <= k < |Draw(t, prefix)| ==> IsPrefix(prefix, Draw(t, prefix)[k])
    decreases EntryTotal(t), 1
  {
    var fl := FileLines(t.files, prefix, |t.dirs| == 0);
    var dl := DrawDirs(t.dirs, prefix);
    FileLinesPrefix(t.files, prefix, |t.dirs| == 0);
    DrawDirsPrefix(t.dirs, prefix);
    forall k | 0 <= k < |fl + dl| ensures IsPrefix(prefix, (fl + dl)[k]) {
      if k >= |fl| {
        assert (fl + dl)[k] == dl[k - |fl|];
      }
    }
  }

  lemma {:induction false} DrawDirsPrefix(ds: seq<Child>, prefix: string)
    ensures forall k :: 0 <= k < |DrawDirs(ds, prefix)| ==> IsPrefix(prefix, DrawDirs(ds, prefix)[k])
    decreases EntriesInDirs(ds), 0
  {
    if |ds| > 0 {
      var cp := ChildPrefix(prefix, |ds| == 1);
      DrawPrefix(ds[0].node, cp);
      DrawDirsPrefix(ds[1..], prefix);
      var sub := Draw(ds[0].node, cp);
      forall k | 0 <= k < |sub| ensures IsPrefix(prefix, sub[k]) {
        assert IsPrefix(cp, sub[k]);
        assert sub[k][..|prefix|] == cp[..|prefix|];
      }
    }
  }

  lemma PrintPrefix(n: Node, prefix: string)
    ensures forall k :: 0 <= k < |Print(n, prefix)| ==> IsPrefix(prefix, Print(n, prefix)[k])
  {
    DrawPrefix(SortTree(n), prefix);
  }

  /** `lines` holds the header `h` at `at`, directly followed by `block`. */
  predicate BlockAt(lines: seq<string>, at: nat, h: string, block: seq<string>) {
    && at + 1 + |block| <= |lines|
    && lines[at] == h
    && lines[at + 1..at + 1 + |block|] == block
  }

  lemma DropHeaderAndBlock(all: seq<string>, at: nat, h: string, sub: seq<string>, next: seq<string>)
    requires at <= |all| && all[at..] == [h] + sub + next
    ensures BlockAt(all, at, h, sub)
  {
    assert all[at..][0] == h;
    assert all[at..][1..1 + |sub|] == sub;
  }

  lemma DropBlock<T>(all: seq<T>, h: T, sub: seq<T>, rest: seq<T>, k: nat)
    requires all == [h] + sub + rest && k <= |rest|
    ensures all[1 + |sub| + k..] == rest[k..]
  {
  }

  /** The lines of the directories from the `j`-th on start right after the
      lines of the directories before it. */
  lemma {:induction false} DrawDirsOffset(ds: seq<Child>, prefix: string, j: nat)
    requires j <= |ds|
    ensures EntriesInDirs(ds[..j]) <= |DrawDirs(ds, prefix)|
    ensures DrawDirs(ds, prefix)[EntriesInDirs(ds[..j])..] == DrawDirs(ds[j..], prefix)
    decreases j
  {
    if j == 0 {
      assert ds[..0] == [] && ds[0..] == ds;
    } else {
      var isLast := |ds| == 1;
      var tl := ds[1..];
      var sub := Draw(ds[0].node, ChildPrefix(prefix, isLast));
      var rest := DrawDirs(tl, prefix);
      assert DrawDirs(ds, prefix) == [DirLine(prefix, ds[0].name, isLast)] + sub + rest;
      DrawLength(ds[0].node, ChildPrefix(prefix, isLast));
      DrawDirsOffset(tl, prefix, j - 1);
      var k := EntriesInDirs(tl[..j - 1]);
      assert ds[..j][1..] == tl[..j - 1];
      assert EntriesInDirs(ds[..j]) == 1 + |sub| + k;
      DrawDirsLength(tl, prefix);
      DropBlock(DrawDirs(ds, prefix), DirLine(prefix, ds[0].name, isLast), sub, rest, k);
      assert tl[j - 1..] == ds[j..];
    }
  }

  lemma {:induction false} FileLinesAt(files: seq<string>, prefix: string, noDirs: bool, i: nat)
    requires i < |files|
    ensures FileLines(files, prefix, noDirs)[i] == FileLine(files, i, prefix, noDirs)
    decreases i
  {
    if i > 0 {
      FileLinesAt(files[1..], prefix, noDirs, i - 1);
      assert files[1..][i - 1] == files[i];
    }
  }

  /** Files come first: the `i`-th line is the `i`-th file, marked last
      only when it ends a level without directories. */
  lemma DrawFileLine(t: Node, prefix: string, i: nat)
    requires i < |t.files|
    ensures i < |Draw(t, prefix)|
    ensures Draw(t, prefix)[i] == prefix + Connector(i == |t.files| - 1 && |t.dirs| == 0) + t.files[i]
  {
    var fl := FileLines(t.files, prefix, |t.dirs| == 0);
    assert Draw(t, prefix)[i] == fl[i];
    FileLinesAt(t.files, prefix, |t.dirs| == 0, i);
  }

  /** In the drawing, the `i`-th line is the `i`-th file in sorted order. */
  lemma PrintFileLine(n: Node, prefix: string, i: nat)
    requires i < |n.files|
    ensures i < |SortTree(n).files| && i < |Print(n, prefix)|
    ensures Print(n, prefix)[i]
         == prefix + Connector(i == |n.files| - 1 && |n.dirs| == 0) + SortTree(n).files[i]
  {
    SortTreeEntries(n);
    DrawFileLine(SortTree(n), prefix, i);
  }

  /** Within the directory lines, the `j`-th directory's header sits after
      the lines of the directories before it and is followed by its block. */
  lemma DrawDirsBlock(ds: seq<Child>, prefix: string, j: nat)
    requires j < |ds|
    ensures BlockAt(DrawDirs(ds, prefix), EntriesInDirs(ds[..j]),
                    DirLine(prefix, ds[j].name, j == |ds| - 1),
                    Draw(ds[j].node, ChildPrefix(prefix, j == |ds| - 1)))
  {
    DrawDirsOffset(ds, prefix, j);
    var tail := ds[j..];
    assert tail[0] == ds[j] && (|tail| == 1 <==> j == |ds| - 1);
    var isLast := j == |ds| - 1;
    var h := DirLine(prefix, ds[j].name, isLast);
    var sub := Draw(ds[j].node, ChildPrefix(prefix, isLast));
    var next := DrawDirs(tail[1..], prefix);
    assert DrawDirs(tail, prefix) == [h] + sub + next;
    DropHeaderAndBlock(DrawDirs(ds, prefix), EntriesInDirs(ds[..j]), h, sub, next);
  }

  lemma ShiftBlock(all: seq<string>, a: seq<string>, b: seq<string>, off: nat, at: nat, h: string, sub: seq<string>)
    requires all == a + b && off == |a|
    requires BlockAt(b, at, h, sub)
    ensures BlockAt(all, off + at, h, sub)
  {
    assert all[off + at + 1..off + at + 1 + |sub|] == b[at + 1..at + 1 + |sub|];
  }

  /** After the files, the `j`-th directory has its header line, marked
      last only for the final directory, directly followed by its own
      drawing behind the extended prefix. */
  lemma DrawDirBlock(t: Node, prefix: string, j: nat)
    requires j < |t.dirs|
    ensures BlockAt(Draw(t, prefix), |t.files| + EntriesInDirs(t.dirs[..j]),
                    DirLine(prefix, t.dirs[j].name, j == |t.dirs| - 1),
                    Draw(t.dirs[j].node, ChildPrefix(prefix, j == |t.dirs| - 1)))
  {
    var isLast := j == |t.dirs| - 1;
    var fl := FileLines(t.files, prefix, |t.dirs| == 0);
    DrawDirsBlock(t.dirs, prefix, j);
    ShiftBlock(Draw(t, prefix), fl, DrawDirs(t.dirs, prefix), |t.files|, EntriesInDirs(t.dirs[..j]),
      DirLine(prefix, t.dirs[j].name, isLast), Draw(t.dirs[j].node, ChildPrefix(prefix, isLast)));
  }

  /** The block of the `j`-th directory of the sorted tree `t` of `n`. */
  lemma SortedDirBlock(n: Node, t: Node, prefix: string, j: nat, name: string, st: Node)
    requires t == SortTree(n) && j < |n.dirs|
    requires j < |t.dirs| && t.dirs[j] == Child(name, st)
    ensures BlockAt(Draw(t, prefix), |n.files| + EntriesInDirs(t.dirs[..j]),
                    DirLine(prefix, name, j == |n.dirs| - 1),
                    Draw(st, ChildPrefix(prefix, j == |n.dirs| - 1)))
  {
    SortTreeEntries(n);
    DrawDirBlock(t, prefix, j);
  }

  /** In the drawing of `n`, the `j`-th directory in name order is the
      level's `k`-th directory: after the files and the lines of the
      directories before it comes its header line, marked last only for the
      final directory, directly followed by the drawing of that directory's
      own contents behind the extended prefix. */
  predicate DirBlockFrom(n: Node, prefix: string, j: nat, k: nat) {
    var ds := SortTree(n).dirs;
    var isLast := j == |n.dirs| - 1;
    && j < |ds| && k < |n.dirs|
    && ds[j].name == n.dirs[k].name
    && BlockAt(Print(n, prefix), |n.files| + EntriesInDirs(ds[..j]),
               DirLine(prefix, n.dirs[k].name, isLast),
               Print(n.dirs[k].node, ChildPrefix(prefix, isLast)))
  }

  lemma PrintBlockOf(n: Node, prefix: string, at: nat, h: string, c: Node, cp: string)
    requires BlockAt(Draw(SortTree(n), prefix), at, h, Draw(SortTree(c), cp))
    ensures BlockAt(Print(n, prefix), at, h, Print(c, cp))
  {
  }

  lemma PrintDirBlockAt(n: Node, prefix: string, j: nat, k: nat)
    requires j < |n.dirs| && k < |n.dirs| && j < |SortTree(n).dirs|
    requires SortTree(n).dirs[j] == Child(n.dirs[k].name, SortTree(n.dirs[k].node))
    ensures DirBlockFrom(n, prefix, j, k)
  {
    var t := SortTree(n);
    var c := n.dirs[k];
    var isLast := j == |n.dirs| - 1;
    var cp := ChildPrefix(prefix, isLast);
    var at := |n.files| + EntriesInDirs(t.dirs[..j]);
    var h := DirLine(prefix, c.name, isLast);
    SortedDirBlock(n, t, prefix, j, c.name, SortTree(c.node));
    PrintBlockOf(n, prefix, at, h, c.node, cp);
  }

  /** Every directory of a level has its block in the drawing. */
  lemma PrintDirBlock(n: Node, prefix: string, j: nat)
    requires j < |n.dirs|
    ensures exists k :: DirBlockFrom(n, prefix, j, k)
  {
    SortedDirFrom(n, j);
    var k :| 0 <= k < |n.dirs| && SortTree(n).dirs[j] == Child(n.dirs[k].name, SortTree(n.dirs[k].node));
    PrintDirBlockAt(n, prefix, j, k);
  }

  /** Only the final entry of a level carries the closing connector; files
      never do when the level has directories. */
  lemma LastConnectorOnlyAtEnd(n: Node, prefix: string, i: nat)
    requires i < |n.files|
    ensures Print(n, prefix)[i] == prefix + LastTee + SortTree(n).files[i]
        <==> i == |n.files| - 1 && |n.dirs| == 0
  {
    PrintFileLine(n, prefix, i);
    var f := SortTree(n).files[i];
    if !(i == |n.files| - 1 && |n.dirs| == 0) {
      assert (prefix + Tee + f)[|prefix|] != (prefix + LastTee + f)[|prefix|];
    }
  }
}
