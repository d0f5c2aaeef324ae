/** The directory dictionary as the analyzer actually builds it: one
    dictionary per directory, in which each sub-directory is stored under
    its own name and the file names under the reserved key `__files`. A
    sub-directory that is itself called `__files` collides with that key.
    This module models one level of the walk on that representation and
    exhibits the collision; the rest of the model uses `RepoTree.Node`,
    which keeps directories and files apart. */
module FilesKey {
  import opened Wrappers
  import opened Strings
  import Walker

  const FilesKeyName: string := "__files"

  /** A dictionary, as its entries in insertion order. */
  datatype Dict = Dict(entries: seq<Entry>)
  datatype Entry = Entry(key: string, value: Value)
  /** A value is a sub-directory dictionary or the list of file names. */
  datatype Value = SubDict(dict: Dict) | FileList(names: seq<string>)

  /** One entry of a listing, with the sub-directory's dictionary already
      built by the recursive call. */
  datatype LevelItem = DirItem(name: string, sub: Dict) | FileItem(name: string)

  /** `d.get(k)`. */
  function Lookup(es: seq<Entry>, k: string): (r: Option<Value>)
    ensures r.Some? <==> exists i :: 0 <= i < |es| && es[i].key == k
  {
    if |es| == 0 then None
    else if es[0].key == k then Some(es[0].value)
    else Lookup(es[1..], k)
  }

  /** `d[k] = v`: an existing key keeps its place, a new one is appended. */
  function Store(es: seq<Entry>, k: string, v: Value): (r: seq<Entry>)
    ensures Lookup(r, k) == Some(v)
    ensures forall k' :: k' != k ==> Lookup(r, k') == Lookup(es, k')
  {
    if |es| == 0 then [Entry(k, v)]
    else if es[0].key == k then [Entry(k, v)] + es[1..]
    else
      var rest := Store(es[1..], k, v);
      assert ([es[0]] + rest)[1..] == rest;
      [es[0]] + rest
  }

  /** The loop body of `fetch_directory_contents` on the dictionary, as
      written: a file is appended to whatever `__files` holds, which fails
      when a sub-directory of that name put a dictionary there. */
  function LevelAsWritten(items: seq<LevelItem>, es: seq<Entry>): Result<seq<Entry>>
    decreases |items|
  {
    if |items| == 0 then Ok(es)
    else
      var it := items[0];
      if Walker.IsSkipped(it.name) then LevelAsWritten(items[1..], es)
      else
        match it
        case DirItem(name, sub) => LevelAsWritten(items[1..], Store(es, name, SubDict(sub)))
        case FileItem(name) =>
          var current := Lookup(es, FilesKeyName).GetOr(FileList([]));
          match current
          case FileList(names) => LevelAsWritten(items[1..], Store(es, FilesKeyName, FileList(names + [name])))
          case SubDict(_) => Err("AttributeError: 'dict' object has no attribute 'append'")
  }

  /** The names of the files a level keeps, in listing order. */
  function KeptFiles(items: seq<LevelItem>): seq<string> {
    if |items| == 0 then []
    else if items[0].FileItem? && !Walker.IsSkipped(items[0].name) then [items[0].name] + KeptFiles(items[1..])
    else KeptFiles(items[1..])
  }

  predicate NoFilesKeyDir(items: seq<LevelItem>) {
    forall i :: 0 <= i < |items| && items[i].DirItem? ==> items[i].name != FilesKeyName
  }

  lemma NoFilesKeyDirTail(items: seq<LevelItem>)
    requires |items| > 0 && NoFilesKeyDir(items)
    ensures NoFilesKeyDir(items[1..])
  {
    forall i | 0 <= i < |items[1..]| && items[1..][i].DirItem? ensures items[1..][i].name != FilesKeyName {
      assert items[1..][i] == items[i + 1];
    }
  }

  /** What `__files` holds after a level, given what it held before. */
  function FilesAfter(before: Option<Value>, kept: seq<string>): Option<Value>
    requires before.None? || before.value.FileList?
  {
    if before.None? && |kept| == 0 then None
    else Some(FileList(before.GetOr(FileList([])).names + kept))
  }

  /** `__files` holds nothing or a file list. */
  predicate FilesKeyHoldsFiles(es: seq<Entry>) {
    Lookup(es, FilesKeyName).None? || Lookup(es, FilesKeyName).value.FileList?
  }

  /** One step of the level: the first item is handled and what `__files`
      will end up holding is unchanged. */
  lemma LevelStep(items: seq<LevelItem>, es: seq<Entry>) returns (es': seq<Entry>)
    requires |items| > 0 && NoFilesKeyDir(items) && FilesKeyHoldsFiles(es)
    ensures LevelAsWritten(items, es) == LevelAsWritten(items[1..], es')
    ensures FilesKeyHoldsFiles(es')
    ensures FilesAfter(Lookup(es', FilesKeyName), KeptFiles(items[1..]))
         == FilesAfter(Lookup(es, FilesKeyName), KeptFiles(items))
  {
    var it := items[0];
    if Walker.IsSkipped(it.name) {
      es' := es;
    } else if it.DirItem? {
      assert it.name != FilesKeyName;
      es' := Store(es, it.name, SubDict(it.sub));
    } else {
      var before := Lookup(es, FilesKeyName);
      var names := before.GetOr(FileList([])).names;
      es' := Store(es, FilesKeyName, FileList(names + [it.name]));
      var rest := KeptFiles(items[1..]);
      assert KeptFiles(items) == [it.name] + rest;
      assert names + [it.name] + rest == names + ([it.name] + rest);
    }
  }

  /** Without a sub-directory called `__files`, the key holds exactly the
      kept file names, appended to what it held before, and exists only
      once a file was kept. */
  lemma {:induction false} LevelFilesWithoutCollision(items: seq<LevelItem>, es: seq<Entry>)
    requires NoFilesKeyDir(items)
    requires Lookup(es, FilesKeyName).None? || Lookup(es, FilesKeyName).value.FileList?
    ensures LevelAsWritten(items, es).Ok?
    ensures Lookup(LevelAsWritten(items, es).value, FilesKeyName)
         == FilesAfter(Lookup(es, FilesKeyName), KeptFiles(items))
    decreases |items|
  {
    if |items| == 0 {
      var before := Lookup(es, FilesKeyName);
      assert KeptFiles(items) == [];
      assert before.Some? ==> before.value.names + [] == before.value.names;
    } else {
      var es' := LevelStep(items, es);
      NoFilesKeyDirTail(items);
      LevelFilesWithoutCollision(items[1..], es');
    }
  }

  lemma NotSkipped(name: string)
    requires |name| > 0 && name[0] != '.' && |name| != |"node_modules"| && |name| != |"__pycache__"|
    ensures !Walker.IsSkipped(name)
  {
    assert name[..1][0] != '.';
  }

  /** A sub-directory named `__files` listed before a file: the append hits
      the sub-directory's dictionary and the walk fails. */
  lemma DirectoryThenFileFails()
    ensures LevelAsWritten([DirItem(FilesKeyName, Dict([])), FileItem("main.py")], []).Err?
  {
    NotSkipped(FilesKeyName);
    NotSkipped("main.py");
  }

  /** A file listed before a sub-directory named `__files`: the directory
      overwrites the file list and the file disappears from the structure,
      though it was counted. */
  lemma FileThenDirectoryLosesFile()
    ensures var r := LevelAsWritten([FileItem("main.py"), DirItem(FilesKeyName, Dict([]))], []);
            r.Ok? && Lookup(r.value, FilesKeyName) == Some(SubDict(Dict([])))
  {
    NotSkipped(FilesKeyName);
    NotSkipped("main.py");
    var items := [FileItem("main.py"), DirItem(FilesKeyName, Dict([]))];
    var es1 := Store([], FilesKeyName, FileList([] + ["main.py"]));
    assert LevelAsWritten(items, []) == LevelAsWritten(items[1..], es1);
    var es2 := Store(es1, FilesKeyName, SubDict(Dict([])));
    assert items[1..][1..] == [];
    assert LevelAsWritten(items[1..], es1) == LevelAsWritten([], es2);
  }
}
