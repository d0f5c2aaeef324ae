/** Text helpers shared by the model: prefixes, substring search, ASCII
    lower-casing, Python's `str.strip(c)`, `str.split(c)` and `c.join(xs)`,
    and the code-point order Python uses to sort strings. */
module Strings {

  /** `s.startswith(p)`. */
  predicate IsPrefix(p: string, s: string) {
    |p| <= |s| && s[..|p|] == p
  }

  /** `needle in s` (substring containment). */
  predicate Contains(s: string, needle: string) {
    exists i :: 0 <= i <= |s| && IsPrefix(needle, s[i..])
  }

  /** Lower-cases the ASCII letters and leaves every other character alone. */
  function LowerChar(c: char): (d: char)
    ensures 'A' <= c <= 'Z' ==> 'a' <= d <= 'z' && d as int - c as int == 32
    ensures !('A' <= c <= 'Z') ==> d == c
  {
    if 'A' <= c <= 'Z' then (c as int + 32) as char else c
  }

  /** `s.lower()`, restricted to ASCII letters. */
  function Lower(s: string): (r: string)
    ensures |r| == |s|
    ensures forall i :: 0 <= i < |s| ==> r[i] == LowerChar(s[i])
  {
    seq(|s|, i requires 0 <= i < |s| => LowerChar(s[i]))
  }

  /** `s.lstrip(c)`: drops every leading `c`. */
  function StripLeft(s: string, c: char): (r: string)
    ensures |r| <= |s| && r == s[|s| - |r|..]
    ensures |r| == 0 || r[0] != c
    ensures forall i :: 0 <= i < |s| - |r| ==> s[i] == c
  {
    if |s| > 0 && s[0] == c then StripLeft(s[1..], c) else s
  }

  /** `s.rstrip(c)`: drops every trailing `c`. */
  function StripRight(s: string, c: char): (r: string)
    ensures |r| <= |s| && r == s[..|r|]
    ensures |r| == 0 || r[|r| - 1] != c
    ensures forall i :: |r| <= i < |s| ==> s[i] == c
  {
    if |s| > 0 && s[|s| - 1] == c then StripRight(s[..|s| - 1], c) else s
  }

  /** `rstrip` only reaches into the part after a prefix that does not
      end with `c`. */
  lemma {:induction false} StripRightAfter(a: string, b: string, c: char)
    requires |a| > 0 && a[|a| - 1] != c
    ensures StripRight(a + b, c) == a + StripRight(b, c)
    decreases |b|
  {
    var ab := a + b;
    if |b| == 0 {
      assert ab == a;
    } else if b[|b| - 1] == c {
      assert ab[|ab| - 1] == c && ab[..|ab| - 1] == a + b[..|b| - 1];
      StripRightAfter(a, b[..|b| - 1], c);
    } else {
      assert ab[|ab| - 1] != c;
    }
  }

  /** Stripping a string that neither starts nor ends with `c` changes
      nothing, and a leading `c` is dropped. */
  lemma StripLeftCons(s: string, c: char)
    requires |s| > 0 && s[0] == c
    ensures StripLeft(s, c) == StripLeft(s[1..], c)
  {
  }

  /** `r` is `s[i..j]`, and everything of `s` outside it is `c`. */
  predicate TrimmedTo(s: string, c: char, r: string, i: nat, j: nat) {
    && i <= j <= |s| && r == s[i..j]
    && (forall k :: 0 <= k < i ==> s[k] == c)
    && (forall k :: j <= k < |s| ==> s[k] == c)
  }

  /** `s.strip(c)`: `s` with its leading and trailing runs of `c` removed. */
  function Strip(s: string, c: char): (r: string)
    ensures |r| == 0 || (r[0] != c && r[|r| - 1] != c)
    ensures |r| <= |s|
    ensures (|s| == 0 || (s[0] != c && s[|s| - 1] != c)) ==> r == s
    ensures exists i, j :: TrimmedTo(s, c, r, i, j)
  {
    var l := StripLeft(s, c);
    var r := StripRight(l, c);
    StripTrims(s, c, l, r);
    r
  }

  lemma StripTrims(s: string, c: char, l: string, r: string)
    requires l == StripLeft(s, c) && r == StripRight(l, c)
    ensures TrimmedTo(s, c, r, |s| - |l|, |s| - |l| + |r|)
  {
    TrimCompose(s, c, l, r);
  }

  /** Dropping a run of `c` from the front and then one from the back. */
  lemma TrimCompose(s: string, c: char, l: string, r: string)
    requires |l| <= |s| && l == s[|s| - |l|..]
    requires forall i :: 0 <= i < |s| - |l| ==> s[i] == c
    requires |r| <= |l| && r == l[..|r|]
    requires forall i :: |r| <= i < |l| ==> l[i] == c
    ensures TrimmedTo(s, c, r, |s| - |l|, |s| - |l| + |r|)
  {
    var i := |s| - |l|;
    assert s[i..i + |r|] == r;
    forall k | i + |r| <= k < |s| ensures s[k] == c {
      assert s[k] == l[k - i];
    }
  }

  /** Index of the first occurrence of `c` in `s`. */
  function IndexOf(s: string, c: char): (i: nat)
    requires c in s
    ensures i < |s| && s[i] == c && c !in s[..i]
  {
    if s[0] == c then 0 else 1 + IndexOf(s[1..], c)
  }

  /** The first occurrence is the only index holding `c` with no `c` before it. */
  lemma IndexOfUnique(s: string, c: char, j: nat)
    requires j < |s| && s[j] == c && c !in s[..j]
    ensures IndexOf(s, c) == j
  {
    if s[0] != c {
      assert s[1..][..j - 1] == s[1..j];
      IndexOfUnique(s[1..], c, j - 1);
    }
  }

  /** `sep.join(xs)`, with a one-character separator. */
  function Join(xs: seq<string>, sep: char): string {
    if |xs| == 0 then ""
    else if |xs| == 1 then xs[0]
    else xs[0] + [sep] + Join(xs[1..], sep)
  }

  /** A join starts with its first piece, followed by the separator when
      more pieces come. */
  lemma {:induction false} JoinHead(xs: seq<string>, sep: char)
    requires |xs| >= 1
    ensures IsPrefix(xs[0], Join(xs, sep))
    ensures |xs| >= 2 ==> |Join(xs, sep)| > |xs[0]| && Join(xs, sep)[|xs[0]|] == sep
  {
    if |xs| >= 2 {
      assert Join(xs, sep) == xs[0] + [sep] + Join(xs[1..], sep);
    }
  }

  /** `s.split(sep)`, with a one-character separator: the maximal pieces of
      `s` that do not contain `sep`, so that joining them back gives `s`. */
  function Split(s: string, sep: char): (r: seq<string>)
    ensures |r| >= 1
    ensures forall i :: 0 <= i < |r| ==> sep !in r[i]
    ensures Join(r, sep) == s
    ensures |r| == 1 <==> sep !in s
    decreases |s|
  {
    if sep !in s then [s]
    else
      var i := IndexOf(s, sep);
      var rest := Split(s[i + 1..], sep);
      assert s == s[..i] + [sep] + s[i + 1..];
      assert ([s[..i]] + rest)[1..] == rest;
      [s[..i]] + rest
  }

  /** A piece free of the separator, followed by the separator, splits off
      as the first segment. */
  lemma SplitAfterPiece(a: string, sep: char, b: string)
    requires sep !in a
    ensures Split(a + [sep] + b, sep) == [a] + Split(b, sep)
  {
    var s := a + [sep] + b;
    assert s[..|a|] == a;
    IndexOfUnique(s, sep, |a|);
    assert s[|a| + 1..] == b;
  }

  /** Splitting a join gives back the pieces, provided there is at least one
      piece and none of them contains the separator. */
  lemma {:induction false} SplitJoin(xs: seq<string>, sep: char)
    requires |xs| >= 1
    requires forall i :: 0 <= i < |xs| ==> sep !in xs[i]
    ensures Split(Join(xs, sep), sep) == xs
    decreases |xs|
  {
    if |xs| == 1 {
    } else {
      var s := Join(xs, sep);
      var tail := Join(xs[1..], sep);
      assert s == xs[0] + [sep] + tail;
      assert s[|xs[0]|] == sep;
      assert s[..|xs[0]|] == xs[0];
      assert sep !in s[..|xs[0]|];
      var i := IndexOf(s, sep);
      assert i == |xs[0]|;
      assert s[i + 1..] == tail;
      SplitJoin(xs[1..], sep);
    }
  }

  /** Python's `<=` on strings: lexicographic by code point, a proper
      prefix coming first. */
  predicate StrLe(a: string, b: string) {
    |a| == 0 || (|b| > 0 && (a[0] < b[0] || (a[0] == b[0] && StrLe(a[1..], b[1..]))))
  }

  lemma {:induction false} StrLeTotal(a: string, b: string)
    ensures StrLe(a, b) || StrLe(b, a)
  {
    if |a| > 0 && |b| > 0 && a[0] == b[0] {
      StrLeTotal(a[1..], b[1..]);
    }
  }

  lemma {:induction false} StrLeTransitive(a: string, b: string, c: string)
    requires StrLe(a, b) && StrLe(b, c)
    ensures StrLe(a, c)
  {
    if |a| > 0 && a[0] == b[0] && b[0] == c[0] {
      StrLeTransitive(a[1..], b[1..], c[1..]);
    }
  }

  lemma StrLeAntisymmetric(a: string, b: string)
    requires StrLe(a, b) && StrLe(b, a)
    ensures a == b
  {
    if |a| > 0 && |b| > 0 {
      StrLeAntisymmetric(a[1..], b[1..]);
      assert a == [a[0]] + a[1..] && b == [b[0]] + b[1..];
    }
  }
}
