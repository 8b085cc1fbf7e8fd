/**
 * A stable sort by an integer key, the semantics of LINQ's `OrderBy`:
 * the result is a permutation of the input, ascending by key, and
 * elements with equal keys keep their input order.
 */
module StableSort {

  predicate SortedBy<T>(s: seq<T>, key: T -> int) {
    forall i, j :: 0 <= i < j < |s| ==> key(s[i]) <= key(s[j])
  }

  /** In a sorted sequence an element with a smaller key comes first. */
  lemma SortedKeyOrder<T>(s: seq<T>, key: T -> int, i: int, j: int)
    requires SortedBy(s, key) && 0 <= i < |s| && 0 <= j < |s|
    requires key(s[j]) < key(s[i])
    ensures j < i
  {
  }

  predicate Distinct<T(==)>(s: seq<T>) {
    forall i, j :: 0 <= i < j < |s| ==> s[i] != s[j]
  }

  /** The elements of `s` whose key is `k`, in their order in `s`. */
  function WithKey<T>(s: seq<T>, key: T -> int, k: int): seq<T> {
    if s == [] then [] else (if key(s[0]) == k then [s[0]] else []) + WithKey(s[1..], key, k)
  }

  /** Puts `x` in front of the first element whose key is not below its own. */
  function Insert<T>(x: T, s: seq<T>, key: T -> int): (r: seq<T>)
    ensures multiset(r) == multiset(s) + multiset{x}
    ensures |r| > 0 && (r[0] == x || (|s| > 0 && r[0] == s[0]))
    ensures SortedBy(s, key) ==> SortedBy(r, key)
  {
    if s == [] || key(x) <= key(s[0]) then
      ConsSorted(x, s, key);
      [x] + s
    else
      assert s == [s[0]] + s[1..];
      var t := Insert(x, s[1..], key);
      assert SortedBy(s, key) ==> SortedBy(s[1..], key) && (|s| > 1 ==> key(s[0]) <= key(s[1]));
      ConsSorted(s[0], t, key);
      [s[0]] + t
  }

  /** An element no greater than the head of a sorted sequence can go in front of it. */
  lemma ConsSorted<T>(a: T, t: seq<T>, key: T -> int)
    ensures SortedBy(t, key) && (t != [] ==> key(a) <= key(t[0])) ==> SortedBy([a] + t, key)
  {
    if SortedBy(t, key) && (t != [] ==> key(a) <= key(t[0])) {
      forall i, j | 0 <= i < j < |[a] + t| ensures key(([a] + t)[i]) <= key(([a] + t)[j]) {
        if i > 0 {
          assert ([a] + t)[i] == t[i - 1];
        } else if j > 1 {
          assert key(t[0]) <= key(t[j - 1]);
        }
      }
    }
  }

  function SortBy<T>(s: seq<T>, key: T -> int): (r: seq<T>)
    ensures multiset(r) == multiset(s)
    ensures SortedBy(r, key)
  {
    if s == [] then []
    else
      assert s == [s[0]] + s[1..];
      Insert(s[0], SortBy(s[1..], key), key)
  }

  /** Inserting `x` adds it at the front of its own key class and leaves the others alone. */
  lemma {:induction false} InsertWithKey<T>(x: T, s: seq<T>, key: T -> int, k: int)
    ensures WithKey(Insert(x, s, key), key, k) == (if key(x) == k then [x] else []) + WithKey(s, key, k)
  {
    if s == [] || key(x) <= key(s[0]) {
      WithKeyCons(x, s, key, k);
    } else {
      var t := Insert(x, s[1..], key);
      assert Insert(x, s, key) == [s[0]] + t;
      InsertWithKey(x, s[1..], key, k);
      WithKeyCons(s[0], t, key, k);
      var w := WithKey(s[1..], key, k);
      assert WithKey(s, key, k) == (if key(s[0]) == k then [s[0]] else []) + w;
      SwapKeyClasses(s[0], x, w, key, k);
    }
  }

  /** Elements with different keys never both land in one key class, so their order there is moot. */
  lemma SwapKeyClasses<T>(a: T, x: T, w: seq<T>, key: T -> int, k: int)
    requires key(a) < key(x)
    ensures (if key(a) == k then [a] else []) + ((if key(x) == k then [x] else []) + w) ==
            (if key(x) == k then [x] else []) + ((if key(a) == k then [a] else []) + w)
  {
    if key(x) == k {
      assert key(a) != k;
    }
  }

  lemma WithKeyCons<T>(a: T, t: seq<T>, key: T -> int, k: int)
    ensures WithKey([a] + t, key, k) == (if key(a) == k then [a] else []) + WithKey(t, key, k)
  {
    assert ([a] + t)[1..] == t;
  }

  /** Stability: for every key, the elements with that key appear in input order. */
  lemma {:induction false} SortByStable<T>(s: seq<T>, key: T -> int, k: int)
    ensures WithKey(SortBy(s, key), key, k) == WithKey(s, key, k)
  {
    if s != [] {
      SortByStable(s[1..], key, k);
      InsertWithKey(s[0], SortBy(s[1..], key), key, k);
    }
  }

  lemma {:induction false} InsertDistinct<T>(x: T, s: seq<T>, key: T -> int)
    requires Distinct(s) && x !in s
    ensures Distinct(Insert(x, s, key))
  {
    if s == [] || key(x) <= key(s[0]) {
    } else {
      InsertDistinct(x, s[1..], key);
      var t := Insert(x, s[1..], key);
      assert s[0] !in s[1..];
      assert s[0] !in multiset(t);
    }
  }

  /** Sorting neither introduces nor removes duplicates. */
  lemma {:induction false} SortByDistinct<T>(s: seq<T>, key: T -> int)
    requires Distinct(s)
    ensures Distinct(SortBy(s, key))
  {
    if s != [] {
      SortByDistinct(s[1..], key);
      assert s[0] !in s[1..];
      assert s[0] !in multiset(SortBy(s[1..], key));
      InsertDistinct(s[0], SortBy(s[1..], key), key);
    }
  }

  function MapSeq<T, U>(s: seq<T>, f: T -> U): (r: seq<U>)
    ensures |r| == |s|
    ensures forall i :: 0 <= i < |s| ==> r[i] == f(s[i])
  {
    if s == [] then [] else [f(s[0])] + MapSeq(s[1..], f)
  }

  lemma {:induction false} InsertMap<T, U>(x: T, s: seq<T>, f: T -> U, key: T -> int, key': U -> int)
    requires key'(f(x)) == key(x)
    requires forall i :: 0 <= i < |s| ==> key'(f(s[i])) == key(s[i])
    ensures Insert(f(x), MapSeq(s, f), key') == MapSeq(Insert(x, s, key), f)
  {
    if s == [] || key(x) <= key(s[0]) {
      assert MapSeq([x] + s, f) == [f(x)] + MapSeq(s, f);
    } else {
      InsertMap(x, s[1..], f, key, key');
      assert MapSeq(s, f)[1..] == MapSeq(s[1..], f);
      var t := Insert(x, s[1..], key);
      assert MapSeq([s[0]] + t, f) == [f(s[0])] + MapSeq(t, f);
    }
  }

  /** Sorting commutes with a map that carries each key over unchanged. */
  lemma {:induction false} SortByMap<T, U>(s: seq<T>, f: T -> U, key: T -> int, key': U -> int)
    requires forall i :: 0 <= i < |s| ==> key'(f(s[i])) == key(s[i])
    ensures SortBy(MapSeq(s, f), key') == MapSeq(SortBy(s, key), f)
  {
    if s != [] {
      SortByMap(s[1..], f, key, key');
      assert MapSeq(s, f)[1..] == MapSeq(s[1..], f);
      var t := SortBy(s[1..], key);
      assert multiset(t) == multiset(s[1..]);
      forall i | 0 <= i < |t| ensures key'(f(t[i])) == key(t[i]) {
        assert t[i] in multiset(s[1..]);
      }
      InsertMap(s[0], t, f, key, key');
    }
  }
}
