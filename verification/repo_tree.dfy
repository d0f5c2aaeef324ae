/** The repository structure built by the directory walk: one node per
    directory, holding its sub-directories by name and the names of the
    files directly inside it. The analyzer stores this as nested
    dictionaries whose reserved key `__files` holds the file list; the
    model keeps the two apart (see the findings in the README). */
module RepoTree {
  import opened Sorting

  datatype Node = Node(dirs: seq<Child>, files: seq<string>)

  /** A named sub-directory of a node. */
  datatype Child = Child(name: string, node: Node)

  /** The empty dictionary `{}`. */
  const EmptyNode: Node := Node([], [])

  predicate IsEmpty(n: Node) {
    |n.dirs| == 0 && |n.files| == 0
  }

  function DirNames(cs: seq<Child>): set<string> {
    set c | c in cs :: c.name
  }

  /** `d[name] = child` on a dictionary keyed by directory name: an existing
      entry keeps its place and gets the new sub-tree, otherwise the entry
      is appended. */
  function PutChild(cs: seq<Child>, name: string, child: Node): (r: seq<Child>)
    ensures DirNames(r) == DirNames(cs) + {name}
    ensures Child(name, child) in r
    ensures forall c :: c in r ==> c in cs || c == Child(name, child)
    ensures name !in DirNames(cs) ==> r == cs + [Child(name, child)]
    ensures |r| == |cs| || |r| == |cs| + 1
  {
    if |cs| == 0 then [Child(name, child)]
    else
      SplitChildren(cs);
      if cs[0].name == name then
        ConsChildren(Child(name, child), cs[1..]);
        [Child(name, child)] + cs[1..]
      else
        var rest := PutChild(cs[1..], name, child);
        ConsChildren(cs[0], rest);
        assert name !in DirNames(cs) ==> [cs[0]] + rest == cs + [Child(name, child)];
        [cs[0]] + rest
  }

  /** A non-empty sequence of children is its head followed by its tail. */
  lemma SplitChildren(cs: seq<Child>)
    requires |cs| > 0
    ensures DirNames(cs) == {cs[0].name} + DirNames(cs[1..])
    ensures forall x :: x in cs <==> x == cs[0] || x in cs[1..]
  {
    assert cs == [cs[0]] + cs[1..];
    ConsChildren(cs[0], cs[1..]);
  }

  lemma ConsChildren(c: Child, rest: seq<Child>)
    ensures DirNames([c] + rest) == {c.name} + DirNames(rest)
    ensures forall x :: x in [c] + rest <==> x == c || x in rest
  {
  }

  /** No two children share a name, as for the keys of a dictionary. */
  predicate UniqueNames(cs: seq<Child>) {
    forall i, j :: 0 <= i < j < |cs| ==> cs[i].name != cs[j].name
  }

  /** `result[name] = child` replaces: every other child stays, and on a
      dictionary (unique names) the entry for `name` is the new one only,
      the names stay unique, and an existing name keeps the size. */
  lemma {:induction false} PutChildReplaces(cs: seq<Child>, name: string, child: Node)
    ensures forall c :: c in cs && c.name != name ==> c in PutChild(cs, name, child)
    ensures UniqueNames(cs) ==> UniqueNames(PutChild(cs, name, child))
    ensures UniqueNames(cs) ==>
      forall c :: c in PutChild(cs, name, child) && c.name == name ==> c == Child(name, child)
    ensures UniqueNames(cs) && name in DirNames(cs) ==> |PutChild(cs, name, child)| == |cs|
  {
    PutChildKeeps(cs, name, child);
    if UniqueNames(cs) {
      PutChildUnique(cs, name, child);
    }
  }

  lemma {:induction false} PutChildKeeps(cs: seq<Child>, name: string, child: Node)
    ensures forall c :: c in cs && c.name != name ==> c in PutChild(cs, name, child)
    decreases |cs|
  {
    if |cs| > 0 {
      SplitChildren(cs);
      if cs[0].name == name {
        ConsChildren(Child(name, child), cs[1..]);
      } else {
        var rest := PutChild(cs[1..], name, child);
        PutChildKeeps(cs[1..], name, child);
        ConsChildren(cs[0], rest);
      }
    }
  }

  lemma {:induction false} PutChildUnique(cs: seq<Child>, name: string, child: Node)
    requires UniqueNames(cs)
    ensures UniqueNames(PutChild(cs, name, child))
    ensures forall c :: c in PutChild(cs, name, child) && c.name == name ==> c == Child(name, child)
    ensures name in DirNames(cs) ==> |PutChild(cs, name, child)| == |cs|
    decreases |cs|
  {
    if |cs| > 0 {
      SplitChildren(cs);
      UniqueCons(cs[0], cs[1..]);
      var put := Child(name, child);
      if cs[0].name == name {
        ConsChildren(put, cs[1..]);
        UniqueCons(put, cs[1..]);
      } else {
        var rest := PutChild(cs[1..], name, child);
        PutChildUnique(cs[1..], name, child);
        ConsChildren(cs[0], rest);
        assert forall c :: c in rest ==> c.name != cs[0].name;
        UniqueCons(cs[0], rest);
      }
    }
  }

  /** Names are unique in `[x] + t` iff they are in `t` and `x`'s is new. */
  lemma UniqueCons(x: Child, t: seq<Child>)
    ensures UniqueNames([x] + t) <==> (forall c :: c in t ==> c.name != x.name) && UniqueNames(t)
  {
    var s := [x] + t;
    if UniqueNames(s) {
      forall c | c in t ensures c.name != x.name {
        var j :| 0 <= j < |t| && t[j] == c;
        assert s[0] == x && s[j + 1] == c;
      }
      forall i, j | 0 <= i < j < |t| ensures t[i].name != t[j].name {
        assert s[i + 1] == t[i] && s[j + 1] == t[j];
      }
    }
    if (forall c :: c in t ==> c.name != x.name) && UniqueNames(t) {
      forall i, j | 0 <= i < j < |s| ensures s[i].name != s[j].name {
        assert s[j] == t[j - 1] && s[j] in t;
        if i > 0 {
          assert s[i] == t[i - 1];
        }
      }
    }
  }

  function PutDir(n: Node, name: string, child: Node): Node {
    n.(dirs := PutChild(n.dirs, name, child))
  }

  /** `d['__files'].append(name)`, creating the list when absent. */
  function AddFile(n: Node, name: string): Node {
    n.(files := n.files + [name])
  }

  /** Number of file names in the tree, at every depth. */
  function FileTotal(n: Node): nat {
    |n.files| + FilesInDirs(n.dirs)
  }

  function FilesInDirs(cs: seq<Child>): nat {
    if |cs| == 0 then 0 else FileTotal(cs[0].node) + FilesInDirs(cs[1..])
  }

  lemma {:induction false} FilesInDirsAppend(cs: seq<Child>, c: Child)
    ensures FilesInDirs(cs + [c]) == FilesInDirs(cs) + FileTotal(c.node)
  {
    if |cs| == 0 {
      assert cs + [c] == [c];
    } else {
      assert (cs + [c])[1..] == cs[1..] + [c];
      FilesInDirsAppend(cs[1..], c);
    }
  }

  /** Number of entries (files and directories) in the tree, at every depth. */
  function EntryTotal(n: Node): nat {
    |n.files| + EntriesInDirs(n.dirs)
  }

  function EntriesInDirs(cs: seq<Child>): nat {
    if |cs| == 0 then 0 else 1 + EntryTotal(cs[0].node) + EntriesInDirs(cs[1..])
  }

  lemma {:induction false} EntriesInDirsAppend(a: seq<Child>, b: seq<Child>)
    ensures EntriesInDirs(a + b) == EntriesInDirs(a) + EntriesInDirs(b)
  {
    if |a| == 0 {
      assert a + b == b;
    } else {
      assert (a + b)[1..] == a[1..] + b;
      EntriesInDirsAppend(a[1..], b);
    }
  }

  lemma EntriesInDirsRemove(b: seq<Child>, k: nat)
    requires k < |b|
    ensures EntriesInDirs(b) == 1 + EntryTotal(b[k].node) + EntriesInDirs(b[..k] + b[k + 1..])
  {
    var x, y := b[..k], b[k + 1..];
    assert EntriesInDirs(b) == EntriesInDirs(x) + EntriesInDirs(b[k..]) by {
      assert b == x + b[k..];
      EntriesInDirsAppend(x, b[k..]);
    }
    assert EntriesInDirs(b[k..]) == 1 + EntryTotal(b[k].node) + EntriesInDirs(y) by {
      assert b[k..][1..] == y;
    }
    EntriesInDirsAppend(x, y);
  }

  /** The entry count of a list of sub-directories does not depend on
      their order. */
  lemma {:induction false} EntriesInDirsPermutation(a: seq<Child>, b: seq<Child>)
    requires multiset(a) == multiset(b)
    ensures EntriesInDirs(a) == EntriesInDirs(b)
    decreases |a|
  {
    if |a| > 0 {
      assert a[0] in multiset(a);
      var k := PositionOf(a[0], b);
      MultisetTail(a, b, k);
      EntriesInDirsPermutation(a[1..], b[..k] + b[k + 1..]);
      EntriesInDirsRemove(b, k);
    } else {
      assert |b| == 0;
    }
  }
}
