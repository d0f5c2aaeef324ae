/** Pieces of the documentation page of the web front end: the `hash_code`
    template filter, and the function and class tables of the downloadable
    documentation, which list the records sorted by (file, name) and stop
    after 30 rows with a note of how many were left out. */
module DocTables {
  import opened Wrappers
  import opened Strings
  import opened Sorting
  import opened Extractors

  /** The sum of the code points of the string. */
  function HashCode(s: string): (r: nat)
    ensures r <= |s| * 0x10FFFF
  {
    if |s| == 0 then 0 else s[0] as nat + HashCode(s[1..])
  }

  lemma {:induction false} HashCodeAppend(a: string, b: string)
    ensures HashCode(a + b) == HashCode(a) + HashCode(b)
  {
    if |a| > 0 {
      assert (a + b)[1..] == a[1..] + b;
      HashCodeAppend(a[1..], b);
    } else {
      assert a + b == b;
    }
  }

  lemma HashCodeRemove(s: string, k: nat)
    requires k < |s|
    ensures HashCode(s) == s[k] as nat + HashCode(s[..k] + s[k + 1..])
  {
    var x, y := s[..k], s[k + 1..];
    assert HashCode(s) == HashCode(x) + HashCode(s[k..]) by {
      assert s == x + s[k..];
      HashCodeAppend(x, s[k..]);
    }
    assert HashCode(s[k..]) == s[k] as nat + HashCode(y) by {
      assert s[k..][1..] == y;
    }
    HashCodeAppend(x, y);
  }

  /** The hash depends only on which characters occur how often, so
      anagrams share their colour. */
  lemma {:induction false} HashCodePermutation(a: string, b: string)
    requires multiset(a) == multiset(b)
    ensures HashCode(a) == HashCode(b)
    decreases |a|
  {
    if |a| > 0 {
      assert a[0] in multiset(a);
      var k := PositionOf(a[0], b);
      MultisetTail(a, b, k);
      HashCodePermutation(a[1..], b[..k] + b[k + 1..]);
      HashCodeRemove(b, k);
    } else {
      assert |b| == 0;
    }
  }

  /** Python's ordering of the key tuples `(file, name)`. */
  predicate KeyLe(a: (string, string), b: (string, string)) {
    (StrLe(a.0, b.0) && a.0 != b.0) || (a.0 == b.0 && StrLe(a.1, b.1))
  }

  lemma KeyLeTotal(a: (string, string), b: (string, string))
    ensures KeyLe(a, b) || KeyLe(b, a)
  {
    StrLeTotal(a.0, b.0);
    StrLeTotal(a.1, b.1);
  }

  lemma KeyLeTransitive(a: (string, string), b: (string, string), c: (string, string))
    requires KeyLe(a, b) && KeyLe(b, c)
    ensures KeyLe(a, c)
  {
    if a.0 == b.0 && b.0 == c.0 {
      StrLeTransitive(a.1, b.1, c.1);
    } else if a.0 != b.0 && b.0 != c.0 {
      StrLeTransitive(a.0, b.0, c.0);
      if a.0 == c.0 {
        StrLeAntisymmetric(a.0, b.0);
      }
    }
  }

  predicate FunctionLe(a: FunctionInfo, b: FunctionInfo) {
    KeyLe((a.file, a.name), (b.file, b.name))
  }

  predicate ClassLe(a: ClassInfo, b: ClassInfo) {
    KeyLe((a.file, a.name), (b.file, b.name))
  }

  lemma FunctionLeTotalPreorder()
    ensures TotalPreorder(FunctionLe)
  {
    forall a, b ensures FunctionLe(a, b) || FunctionLe(b, a) {
      KeyLeTotal((a.file, a.name), (b.file, b.name));
    }
    forall a, b, c | FunctionLe(a, b) && FunctionLe(b, c) ensures FunctionLe(a, c) {
      KeyLeTransitive((a.file, a.name), (b.file, b.name), (c.file, c.name));
    }
  }

  lemma ClassLeTotalPreorder()
    ensures TotalPreorder(ClassLe)
  {
    forall a, b ensures ClassLe(a, b) || ClassLe(b, a) {
      KeyLeTotal((a.file, a.name), (b.file, b.name));
    }
    forall a, b, c | ClassLe(a, b) && ClassLe(b, c) ensures ClassLe(a, c) {
      KeyLeTransitive((a.file, a.name), (b.file, b.name), (c.file, c.name));
    }
  }

  /** Rows shown before the overflow note. */
  const MaxRows: nat := 30

  /** A table as rendered: its rows, and the count in the
      "... and N more" note when there is one. */
  datatype Table<T> = Table(rows: seq<T>, more: Option<nat>)

  function Truncate<T>(s: seq<T>, le: (T, T) -> bool): Table<T> {
    var sorted := Sort(s, le);
    if |sorted| > MaxRows then Table(sorted[..MaxRows], Some(|sorted| - MaxRows))
    else Table(sorted, None)
  }

  /** The section is present only for a non-empty list. */
  function FunctionsTable(fs: seq<FunctionInfo>): Option<Table<FunctionInfo>> {
    if |fs| == 0 then None else Some(Truncate(fs, FunctionLe))
  }

  function ClassesTable(cs: seq<ClassInfo>): Option<Table<ClassInfo>> {
    if |cs| == 0 then None else Some(Truncate(cs, ClassLe))
  }

  /** What a truncated table shows: at most `MaxRows` rows, in order,
      taken from the input; the note appears exactly when rows were
      dropped and counts them; and no dropped record sorts before a shown
      one. */
  predicate ShowsSmallest<T(!new,==)>(s: seq<T>, le: (T, T) -> bool, t: Table<T>) {
    TableSize(s, t) && TableContent(s, le, t)
  }

  predicate TableSize<T>(s: seq<T>, t: Table<T>) {
    && |t.rows| == (if |s| > MaxRows then MaxRows else |s|)
    && (t.more.Some? <==> |s| > MaxRows)
    && (t.more.Some? ==> t.more.value == |s| - MaxRows)
  }

  predicate TableContent<T(!new,==)>(s: seq<T>, le: (T, T) -> bool, t: Table<T>) {
    && SortedBy(t.rows, le)
    && multiset(t.rows) <= multiset(s)
    && (forall i, x :: 0 <= i < |t.rows| && x in multiset(s) - multiset(t.rows) ==> le(t.rows[i], x))
  }

  /** In a sorted sequence, every element of a prefix is `le` every
      element of the rest. */
  lemma SortedSplit<T>(sorted: seq<T>, k: nat, le: (T, T) -> bool)
    requires SortedBy(sorted, le) && k <= |sorted|
    ensures forall i, x :: 0 <= i < k && x in multiset(sorted[k..]) ==> le(sorted[i], x)
  {
    forall i, x | 0 <= i < k && x in multiset(sorted[k..]) ensures le(sorted[i], x) {
      var m :| 0 <= m < |sorted[k..]| && sorted[k..][m] == x;
      assert sorted[k + m] == x;
    }
  }

  /** A prefix of a sorted rearrangement of `s` shows the smallest
      records of `s`. */
  lemma PrefixContent<T(!new)>(s: seq<T>, le: (T, T) -> bool, sorted: seq<T>, k: nat)
    requires SortedBy(sorted, le) && multiset(sorted) == multiset(s) && k <= |sorted|
    ensures TableContent(s, le, Table(sorted[..k], None))
  {
    var rows := sorted[..k];
    assert sorted == rows + sorted[k..];
    assert multiset(s) - multiset(rows) == multiset(sorted[k..]);
    SortedSplit(sorted, k, le);
  }

  lemma TruncateShowsSmallest<T(!new)>(s: seq<T>, le: (T, T) -> bool)
    requires TotalPreorder(le)
    ensures ShowsSmallest(s, le, Truncate(s, le))
  {
    var sorted := Sort(s, le);
    SortSorted(s, le);
    SortPermutation(s, le);
    var k := if |s| > MaxRows then MaxRows else |s|;
    PrefixContent(s, le, sorted, k);
    assert Truncate(s, le).rows == sorted[..k];
  }

  /** The functions section: absent for no functions, else the records by
      (file, name), at most 30, with the overflow count. */
  lemma FunctionsTableShape(fs: seq<FunctionInfo>)
    ensures FunctionsTable(fs).None? <==> |fs| == 0
    ensures FunctionsTable(fs).Some? ==> ShowsSmallest(fs, FunctionLe, FunctionsTable(fs).value)
  {
    FunctionLeTotalPreorder();
    TruncateShowsSmallest(fs, FunctionLe);
  }

  lemma ClassesTableShape(cs: seq<ClassInfo>)
    ensures ClassesTable(cs).None? <==> |cs| == 0
    ensures ClassesTable(cs).Some? ==> ShowsSmallest(cs, ClassLe, ClassesTable(cs).value)
  {
    ClassLeTotalPreorder();
    TruncateShowsSmallest(cs, ClassLe);
  }
}
