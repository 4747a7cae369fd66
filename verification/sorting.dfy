/** A stable sort by an integer key, as JavaScript's `Array.prototype.sort`
    does with a numeric comparator `(a, b) => key(a) - key(b)`. */
module StableSort {

  predicate Sorted<T>(s: seq<T>, key: T -> int) {
    forall i, j :: 0 <= i < j < |s| ==> key(s[i]) <= key(s[j])
  }

  /** The elements of `s` whose key is `k`, in their order in `s`. */
  function WithKey<T>(s: seq<T>, key: T -> int, k: int): seq<T> {
    if |s| == 0 then []
    else (if key(s[0]) == k then [s[0]] else []) + WithKey(s[1..], key, k)
  }

  /** Insert `x` into a sorted sequence after every element whose key is not
      greater than its own. */
  function Insert<T>(x: T, s: seq<T>, key: T -> int): (r: seq<T>)
    requires Sorted(s, key)
    ensures |r| == |s| + 1
    ensures r[0] == x || (|s| > 0 && r[0] == s[0])
    ensures Sorted(r, key)
    ensures multiset(r) == multiset(s) + multiset{x}
  {
    if |s| == 0 || key(x) < key(s[0]) then
      ConsSorted(x, s, key);
      [x] + s
    else
      var rest := Insert(x, s[1..], key);
      ConsSorted(s[0], rest, key);
      assert s == [s[0]] + s[1..];
      assert multiset(s) == multiset{s[0]} + multiset(s[1..]);
      assert multiset([s[0]] + rest) == multiset{s[0]} + multiset(rest);
      [s[0]] + rest
  }

  lemma ConsSorted<T>(a: T, t: seq<T>, key: T -> int)
    requires Sorted(t, key) && (|t| == 0 || key(a) <= key(t[0]))
    ensures Sorted([a] + t, key)
  {
    var r := [a] + t;
    forall i, j | 0 <= i < j < |r|
      ensures key(r[i]) <= key(r[j])
    {
      if i == 0 {
        assert key(t[0]) <= key(t[j - 1]);
      }
    }
  }

  /** Insertion sort: each element in turn goes in after the ones before it. */
  function SortBy<T>(s: seq<T>, key: T -> int): (r: seq<T>)
    ensures |r| == |s|
    ensures Sorted(r, key)
    ensures multiset(r) == multiset(s)
  {
    if |s| == 0 then []
    else
      assert s == s[..|s| - 1] + [s[|s| - 1]];
      Insert(s[|s| - 1], SortBy(s[..|s| - 1], key), key)
  }

  lemma {:induction false} WithKeyAppend<T>(s: seq<T>, t: seq<T>, key: T -> int, k: int)
    ensures WithKey(s + t, key, k) == WithKey(s, key, k) + WithKey(t, key, k)
  {
    if |s| > 0 {
      WithKeyAppend(s[1..], t, key, k);
      assert (s + t)[1..] == s[1..] + t;
    } else {
      assert s + t == t;
    }
  }

  lemma {:induction false} NoneWithKey<T>(s: seq<T>, key: T -> int, k: int)
    requires forall i :: 0 <= i < |s| ==> key(s[i]) > k
    ensures WithKey(s, key, k) == []
  {
    if |s| > 0 {
      NoneWithKey(s[1..], key, k);
    }
  }

  lemma InsertInFront<T>(x: T, s: seq<T>, key: T -> int, k: int)
    requires Sorted(s, key) && (|s| == 0 || key(x) < key(s[0]))
    ensures WithKey(Insert(x, s, key), key, k) == WithKey(s, key, k) + WithKey([x], key, k)
  {
    InsertGoesFirst(x, s, key);
    WithKeyAppend([x], s, key, k);
    if key(x) == k {
      assert forall i :: 0 <= i < |s| ==> key(s[0]) <= key(s[i]);
      NoneWithKey(s, key, k);
    }
  }

  /** An element with a key below the first one's goes in front. */
  lemma InsertGoesFirst<T>(x: T, s: seq<T>, key: T -> int)
    requires Sorted(s, key) && (|s| == 0 || key(x) < key(s[0]))
    ensures Insert(x, s, key) == [x] + s
  {
  }

  /** Past the first element, insertion goes on in the rest. */
  lemma InsertBehind<T>(x: T, s: seq<T>, key: T -> int)
    requires Sorted(s, key) && |s| > 0 && key(x) >= key(s[0])
    ensures Sorted(s[1..], key)
    ensures Insert(x, s, key) == [s[0]] + Insert(x, s[1..], key)
  {
  }

  lemma SplitFirst<T>(s: seq<T>, key: T -> int, k: int)
    requires |s| > 0
    ensures WithKey(s, key, k) == WithKey([s[0]], key, k) + WithKey(s[1..], key, k)
  {
    WithKeyAppend([s[0]], s[1..], key, k);
    assert s == [s[0]] + s[1..];
  }

  /** Inserting keeps every key's elements in order, `x` last among its own. */
  lemma {:induction false} InsertKeepsKeyOrder<T>(x: T, s: seq<T>, key: T -> int, k: int)
    requires Sorted(s, key)
    ensures WithKey(Insert(x, s, key), key, k) == WithKey(s, key, k) + WithKey([x], key, k)
  {
    if |s| == 0 || key(x) < key(s[0]) {
      InsertInFront(x, s, key, k);
    } else {
      InsertBehind(x, s, key);
      var rest := Insert(x, s[1..], key);
      InsertKeepsKeyOrder(x, s[1..], key, k);
      WithKeyAppend([s[0]], rest, key, k);
      SplitFirst(s, key, k);
    }
  }

  /** The sort is stable: for every key, the elements with that key come out in
      the order they went in. */
  lemma {:induction false} SortIsStable<T>(s: seq<T>, key: T -> int, k: int)
    ensures WithKey(SortBy(s, key), key, k) == WithKey(s, key, k)
  {
    if |s| > 0 {
      var init, last := s[..|s| - 1], s[|s| - 1];
      var sorted := SortBy(init, key);
      SortByLast(s, key);
      SortIsStable(init, key, k);
      InsertKeepsKeyOrder(last, sorted, key, k);
      SplitLast(s, key, k);
    }
  }

  lemma SortByLast<T>(s: seq<T>, key: T -> int)
    requires |s| > 0
    ensures SortBy(s, key) == Insert(s[|s| - 1], SortBy(s[..|s| - 1], key), key)
  {
  }

  lemma SplitLast<T>(s: seq<T>, key: T -> int, k: int)
    requires |s| > 0
    ensures WithKey(s, key, k) == WithKey(s[..|s| - 1], key, k) + WithKey([s[|s| - 1]], key, k)
  {
    WithKeyAppend(s[..|s| - 1], [s[|s| - 1]], key, k);
    assert s == s[..|s| - 1] + [s[|s| - 1]];
  }
}
