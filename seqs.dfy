/** Sequence helpers shared by the queries: selection (a Mongo `find` filter),
    a stable sort on an integer key (`.sort(...)`) and a prefix (`.limit(n)`). */
module Seqs {

  /** The elements of `s` that satisfy `p`, in their original order. */
  function Filter<T(!new)>(s: seq<T>, p: T -> bool): (r: seq<T>)
    ensures |r| <= |s|
    ensures forall x :: x in r <==> x in s && p(x)
  {
    if s == [] then []
    else if p(s[0]) then [s[0]] + Filter(s[1..], p)
    else Filter(s[1..], p)
  }

  /** Filtering keeps every selected element as often as it occurs and drops the rest. */
  lemma {:induction false} FilterMultiset<T(!new)>(s: seq<T>, p: T -> bool)
    ensures forall x :: multiset(Filter(s, p))[x] == if p(x) then multiset(s)[x] else 0
  {
    if s != [] {
      FilterMultiset(s[1..], p);
      assert s == [s[0]] + s[1..];
    }
  }

  /** A filter every element passes keeps the whole sequence. */
  lemma {:induction false} FilterAll<T(!new)>(s: seq<T>, p: T -> bool)
    requires forall x :: x in s ==> p(x)
    ensures Filter(s, p) == s
  {
    if s != [] {
      assert s[0] in s;
      assert forall x :: x in s[1..] ==> x in s;
      FilterAll(s[1..], p);
    }
  }

  /** Filtering commutes with concatenation. */
  lemma {:induction false} FilterAppend<T(!new)>(a: seq<T>, b: seq<T>, p: T -> bool)
    ensures Filter(a + b, p) == Filter(a, p) + Filter(b, p)
  {
    if a == [] {
      assert a + b == b;
    } else {
      assert (a + b)[1..] == a[1..] + b;
      FilterAppend(a[1..], b, p);
    }
  }

  /** `s` is ordered by `key`, smallest key first. */
  ghost predicate SortedBy<T>(s: seq<T>, key: T -> int) {
    forall i, j :: 0 <= i < j < |s| ==> key(s[i]) <= key(s[j])
  }

  /** Inserts `x` in front of the first element whose key is not smaller. */
  function InsertBy<T>(x: T, s: seq<T>, key: T -> int): (r: seq<T>)
    ensures multiset(r) == multiset(s) + multiset{x}
    ensures |r| == |s| + 1
    ensures forall k :: 0 <= k < |r| ==> r[k] == x || r[k] in s
  {
    if s == [] || key(x) <= key(s[0]) then [x] + s
    else
      assert s == [s[0]] + s[1..];
      [s[0]] + InsertBy(x, s[1..], key)
  }

  lemma {:induction false} InsertBySorted<T>(x: T, s: seq<T>, key: T -> int)
    requires SortedBy(s, key)
    ensures SortedBy(InsertBy(x, s, key), key)
  {
    var r := InsertBy(x, s, key);
    if s == [] || key(x) <= key(s[0]) {
      assert r == [x] + s;
      forall i, j | 0 <= i < j < |r| ensures key(r[i]) <= key(r[j]) {
        assert r[j] == s[j - 1];
        if i == 0 {
          assert key(s[0]) <= key(s[j - 1]);
        } else {
          assert r[i] == s[i - 1];
        }
      }
    } else {
      var rest := InsertBy(x, s[1..], key);
      assert SortedBy(s[1..], key);
      InsertBySorted(x, s[1..], key);
      assert r == [s[0]] + rest;
      forall i, j | 0 <= i < j < |r| ensures key(r[i]) <= key(r[j]) {
        assert r[j] == rest[j - 1];
        if i == 0 {
          assert rest[j - 1] == x || rest[j - 1] in s[1..];
        } else {
          assert r[i] == rest[i - 1];
        }
      }
    }
  }

  /** A stable insertion sort by ascending `key`: elements with equal keys keep
      their relative order. */
  function SortBy<T>(s: seq<T>, key: T -> int): (r: seq<T>)
    ensures multiset(r) == multiset(s)
    ensures |r| == |s|
    ensures SortedBy(r, key)
  {
    if s == [] then []
    else
      var rest := SortBy(s[1..], key);
      assert s == [s[0]] + s[1..];
      InsertBySorted(s[0], rest, key);
      InsertBy(s[0], rest, key)
  }

  /** `find(filter).sort(...)`: the elements that satisfy `p`, each as often
      as it occurs, smallest key first. */
  function SelectSorted<T(!new)>(s: seq<T>, p: T -> bool, key: T -> int): (r: seq<T>)
    ensures forall x :: x in r <==> x in s && p(x)
    ensures forall x :: multiset(r)[x] == if p(x) then multiset(s)[x] else 0
    ensures multiset(r) == multiset(Filter(s, p)) && |r| == |Filter(s, p)|
    ensures SortedBy(r, key)
  {
    var found := Filter(s, p);
    FilterMultiset(s, p);
    var r := SortBy(found, key);
    assert forall x :: x in r <==> x in multiset(found);
    r
  }

  /** Sorting an already ordered sequence leaves it as it is (the sort is stable). */
  lemma {:induction false} SortBySortedIsIdentity<T>(s: seq<T>, key: T -> int)
    requires SortedBy(s, key)
    ensures SortBy(s, key) == s
  {
    if s != [] {
      assert SortedBy(s[1..], key);
      SortBySortedIsIdentity(s[1..], key);
      assert SortBy(s[1..], key) == s[1..];
      if |s| > 1 {
        assert key(s[0]) <= key(s[1..][0]);
      }
    }
  }

  function Min(a: nat, b: nat): nat {
    if a <= b then a else b
  }

  /** The first `n` elements of `s` (all of them when there are fewer). */
  function Take<T>(s: seq<T>, n: nat): (r: seq<T>)
    ensures |r| == Min(n, |s|)
    ensures r == s[..|r|]
  {
    if |s| <= n then s else s[..n]
  }

  /** A prefix holds no element more often than the whole sequence. */
  lemma TakeMultiset<T>(s: seq<T>, n: nat)
    ensures multiset(Take(s, n)) <= multiset(s)
  {
    var t := Take(s, n);
    assert s == t + s[|t|..];
    assert multiset(s) == multiset(t) + multiset(s[|t|..]);
  }

  /** The first `n` elements of a sorted sequence are sorted, each of them is
      in the sequence, and none of the elements left out has a smaller key
      than one that is kept; when fewer than `n` elements are kept, none is
      left out. */
  lemma TakeSorted<T>(s: seq<T>, key: T -> int, n: nat)
    requires SortedBy(s, key)
    ensures SortedBy(Take(s, n), key)
    ensures forall x :: x in Take(s, n) ==> x in s
    ensures forall x, y :: x in Take(s, n) && y in s && y !in Take(s, n) ==> key(x) <= key(y)
    ensures |Take(s, n)| < n ==> Take(s, n) == s
  {
    var t := Take(s, n);
    forall x, y | x in t && y in s && y !in t ensures key(x) <= key(y) {
      var i :| 0 <= i < |t| && t[i] == x;
      var j :| 0 <= j < |s| && s[j] == y;
    }
  }

  /** `r` holds `n` of the elements of `s` that satisfy `p` (all of them when
      fewer do), none more often than it occurs in `s`; when fewer than `n`
      are held, every such element is held as often as it occurs. */
  ghost predicate KeepsCounts<T(!new)>(r: seq<T>, s: seq<T>, p: T -> bool, n: nat) {
    && multiset(r) <= multiset(Filter(s, p))
    && |r| == Min(n, |Filter(s, p)|)
    && (|r| < n ==> multiset(r) == multiset(Filter(s, p)))
  }

  /** `find(filter).sort(...).limit(n)`: `n` of the elements that satisfy
      `p` (all of them when there are fewer), each kept no more often than
      it occurs, smallest key first, and no element that satisfies `p` and
      is left out has a smaller key than one that is kept; when fewer than
      `n` are kept, every selected element is kept as often as it occurs. */
  function SelectTop<T(!new)>(s: seq<T>, p: T -> bool, key: T -> int, n: nat): (r: seq<T>)
    ensures forall x :: x in r ==> x in s && p(x)
    ensures KeepsCounts(r, s, p, n) && |r| <= n
    ensures SortedBy(r, key)
    ensures forall x, y :: x in r && y in s && p(y) && y !in r ==> key(x) <= key(y)
    ensures |r| < n ==> forall y :: y in s && p(y) ==> y in r
  {
    var sorted := SelectSorted(s, p, key);
    TakeSorted(sorted, key, n);
    TakeMultiset(sorted, n);
    Take(sorted, n)
  }
}
