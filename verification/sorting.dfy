/** Python's `sorted`: an insertion sort under a total preorder. Each
    element is inserted before the first element it is `<=` to; since
    elements are inserted from the back of the input, equal elements keep
    their input order. */
module Sorting {

  /** `le` is total and transitive. */
  ghost predicate TotalPreorder<T(!new)>(le: (T, T) -> bool) {
    && (forall x, y :: le(x, y) || le(y, x))
    && (forall x, y, z :: le(x, y) && le(y, z) ==> le(x, z))
  }

  predicate SortedBy<T>(s: seq<T>, le: (T, T) -> bool) {
    forall i, j :: 0 <= i < j < |s| ==> le(s[i], s[j])
  }

  function Insert<T>(x: T, s: seq<T>, le: (T, T) -> bool): (r: seq<T>)
    ensures |r| == |s| + 1
  {
    if |s| == 0 || le(x, s[0]) then [x] + s
    else [s[0]] + Insert(x, s[1..], le)
  }

  /** `sorted(s, key=...)`, with `le` comparing keys. */
  function Sort<T>(s: seq<T>, le: (T, T) -> bool): (r: seq<T>)
    ensures |r| == |s|
  {
    if |s| == 0 then []
    else Insert(s[0], Sort(s[1..], le), le)
  }

  /** Inserting adds exactly one occurrence of `x`. */
  lemma {:induction false} InsertPermutation<T>(x: T, s: seq<T>, le: (T, T) -> bool)
    ensures multiset(Insert(x, s, le)) == multiset(s) + multiset{x}
  {
    if |s| == 0 || le(x, s[0]) {
    } else {
      InsertPermutation(x, s[1..], le);
      assert s == [s[0]] + s[1..];
    }
  }

  /** The result of `Sort` is a rearrangement of its input. */
  lemma {:induction false} SortPermutation<T>(s: seq<T>, le: (T, T) -> bool)
    ensures multiset(Sort(s, le)) == multiset(s)
  {
    if |s| > 0 {
      SortPermutation(s[1..], le);
      InsertPermutation(s[0], Sort(s[1..], le), le);
      assert s == [s[0]] + s[1..];
    }
  }

  lemma {:induction false} InsertSorted<T(!new)>(x: T, s: seq<T>, le: (T, T) -> bool)
    requires TotalPreorder(le)
    requires SortedBy(s, le)
    ensures SortedBy(Insert(x, s, le), le)
  {
    if |s| == 0 || le(x, s[0]) {
    } else {
      var rest := Insert(x, s[1..], le);
      InsertSorted(x, s[1..], le);
      InsertPermutation(x, s[1..], le);
      forall k | 0 <= k < |rest| ensures le(s[0], rest[k]) {
        assert rest[k] in multiset(rest);
        if rest[k] != x {
          assert rest[k] in multiset(s[1..]);
          var m :| 0 <= m < |s[1..]| && s[1..][m] == rest[k];
          assert s[m + 1] == rest[k];
        }
      }
    }
  }

  /** The result of `Sort` is ordered by `le`. */
  lemma {:induction false} SortSorted<T(!new)>(s: seq<T>, le: (T, T) -> bool)
    requires TotalPreorder(le)
    ensures SortedBy(Sort(s, le), le)
  {
    if |s| > 0 {
      SortSorted(s[1..], le);
      InsertSorted(s[0], Sort(s[1..], le), le);
    }
  }

  lemma InSorted<T>(x: T, s: seq<T>, le: (T, T) -> bool)
    ensures x in Sort(s, le) <==> x in s
  {
    var r := Sort(s, le);
    SortPermutation(s, le);
    assert x in r <==> x in multiset(r);
    assert x in s <==> x in multiset(s);
  }

  /** The elements of `s` that `le` ranks equal to `k`, in input order. */
  function SameKey<T>(s: seq<T>, k: T, le: (T, T) -> bool): (r: seq<T>)
    ensures |r| <= |s|
    ensures forall x :: x in r ==> x in s && le(x, k) && le(k, x)
  {
    if |s| == 0 then []
    else (if le(s[0], k) && le(k, s[0]) then [s[0]] else []) + SameKey(s[1..], k, le)
  }

  /** Inserting `x` places it before every element ranked equal to it, and
      keeps the order of those elements among themselves. */
  lemma {:induction false} InsertStable<T(!new)>(x: T, s: seq<T>, k: T, le: (T, T) -> bool)
    requires TotalPreorder(le)
    ensures SameKey(Insert(x, s, le), k, le) ==
      (if le(x, k) && le(k, x) then [x] else []) + SameKey(s, k, le)
  {
    if le(x, k) && le(k, x) {
      BelowKey(x, k, le);
      InsertSameKey(x, s, k, le);
    } else {
      InsertOtherKey(x, s, k, le);
    }
  }

  lemma {:induction false} InsertOtherKey<T>(x: T, s: seq<T>, k: T, le: (T, T) -> bool)
    requires !(le(x, k) && le(k, x))
    ensures SameKey(Insert(x, s, le), k, le) == SameKey(s, k, le)
  {
    if |s| == 0 || le(x, s[0]) {
      assert ([x] + s)[1..] == s;
    } else {
      var rest := Insert(x, s[1..], le);
      assert ([s[0]] + rest)[1..] == rest;
      InsertOtherKey(x, s[1..], k, le);
    }
  }

  lemma {:induction false} InsertSameKey<T>(x: T, s: seq<T>, k: T, le: (T, T) -> bool)
    requires le(x, k) && le(k, x)
    requires forall y :: le(k, y) ==> le(x, y)
    ensures SameKey(Insert(x, s, le), k, le) == [x] + SameKey(s, k, le)
  {
    if |s| == 0 || le(x, s[0]) {
      assert ([x] + s)[1..] == s;
    } else {
      var rest := Insert(x, s[1..], le);
      assert !le(k, s[0]);
      assert SameKey([s[0]] + rest, k, le) == SameKey(rest, k, le) by {
        assert ([s[0]] + rest)[1..] == rest;
      }
      assert SameKey(s, k, le) == SameKey(s[1..], k, le);
      InsertSameKey(x, s[1..], k, le);
    }
  }

  /** Whatever `k` is `<=` to, so is anything `<=` to `k`. */
  lemma BelowKey<T(!new)>(x: T, k: T, le: (T, T) -> bool)
    requires TotalPreorder(le)
    requires le(x, k)
    ensures forall y :: le(k, y) ==> le(x, y)
  {
  }

  /** `sorted` is stable: for every key, the elements ranked equal to it
      appear in the result in their input order. */
  lemma {:induction false} SortStable<T(!new)>(s: seq<T>, k: T, le: (T, T) -> bool)
    requires TotalPreorder(le)
    ensures SameKey(Sort(s, le), k, le) == SameKey(s, k, le)
  {
    if |s| > 0 {
      SortStable(s[1..], k, le);
      InsertStable(s[0], Sort(s[1..], le), k, le);
    }
  }

  /** Removing the element at `k` removes one occurrence of it. */
  lemma MultisetRemove<T>(s: seq<T>, k: nat)
    requires k < |s|
    ensures multiset(s[..k] + s[k + 1..]) == multiset(s) - multiset{s[k]}
  {
    assert s == s[..k] + [s[k]] + s[k + 1..];
  }

  /** Two rearrangements of each other, less their first element and one
      matching occurrence, are still rearrangements of each other. */
  lemma MultisetTail<T>(a: seq<T>, b: seq<T>, k: nat)
    requires |a| > 0 && k < |b| && b[k] == a[0] && multiset(a) == multiset(b)
    ensures multiset(a[1..]) == multiset(b[..k] + b[k + 1..])
  {
    MultisetRemove(b, k);
    assert a == [a[0]] + a[1..];
  }

  /** A position of an element of `b`. */
  lemma PositionOf<T>(x: T, b: seq<T>) returns (k: nat)
    requires x in multiset(b)
    ensures k < |b| && b[k] == x
  {
    assert x in b;
    k :| 0 <= k < |b| && b[k] == x;
  }
}
