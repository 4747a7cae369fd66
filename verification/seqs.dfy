/** Sequence helpers used across the model: the list operations the source
    performs through Python lists, JavaScript arrays and Redis lists, and the
    decimal rendering of integers that string interpolation performs. */
module Seqs {

  /** The decimal digits of `n`, most significant first, without leading zeros. */
  function Decimal(n: nat): (r: string)
    ensures |r| >= 1 && (|r| > 1 ==> r[0] != '0')
    ensures forall i :: 0 <= i < |r| ==> '0' <= r[i] <= '9'
    decreases n
  {
    var d := ['0', '1', '2', '3', '4', '5', '6', '7', '8', '9'][n % 10];
    if n < 10 then [d] else Decimal(n / 10) + [d]
  }

  /** An integer as `String(n)` renders it: a minus sign before negative ones. */
  function IntText(n: int): (r: string)
    ensures |r| >= 1 && (r[0] == '-' <==> n < 0)
  {
    if n < 0 then "-" + Decimal(-n) else Decimal(n)
  }

  /** The last `n` elements of `s` (all of `s` when it is shorter). */
  function LastN<T>(s: seq<T>, n: nat): (r: seq<T>)
    ensures |r| == if n < |s| then n else |s|
    ensures forall i :: 0 <= i < |r| ==> r[i] == s[|s| - |r| + i]
  {
    if n < |s| then s[|s| - n..] else s
  }

  /** `s` with its first occurrence of `x` deleted (Python's `list.remove`,
      Redis `LREM key 1 x`); `s` itself when `x` does not occur. */
  function RemoveFirst<T(==)>(s: seq<T>, x: T): (r: seq<T>)
    decreases s
  {
    if |s| == 0 then []
    else if s[0] == x then s[1..]
    else [s[0]] + RemoveFirst(s[1..], x)
  }

  function Reverse<T>(s: seq<T>): (r: seq<T>)
    ensures |r| == |s|
    ensures forall i :: 0 <= i < |s| ==> r[i] == s[|s| - 1 - i]
  {
    if |s| == 0 then [] else Reverse(s[1..]) + [s[0]]
  }

  /** Keeping the last `n` after appending `x` keeps `x` last and, before it,
      a suffix of `s`. */
  lemma LastNAppend<T>(s: seq<T>, x: T, n: nat)
    requires n >= 1
    ensures var r := LastN(s + [x], n);
            |r| == (if |s| < n then |s| + 1 else n) && r[|r| - 1] == x && IsSuffix(r[..|r| - 1], s)
  {
    var all := s + [x];
    var r := LastN(all, n);
    assert r == all[|all| - |r|..];
    assert r[..|r| - 1] == all[|all| - |r|..|all| - 1];
    assert all[..|all| - 1] == s;
  }

  /** Position of the first occurrence of `x` in `s`. */
  function FirstIndex<T(==)>(s: seq<T>, x: T): (i: nat)
    requires x in s
    ensures i < |s| && s[i] == x
    ensures forall j :: 0 <= j < i ==> s[j] != x
  {
    if s[0] == x then 0 else 1 + FirstIndex(s[1..], x)
  }

  /** Number of positions of `s` holding `x`. */
  function Count<T(==)>(s: seq<T>, x: T): nat {
    if |s| == 0 then 0 else (if s[0] == x then 1 else 0) + Count(s[1..], x)
  }

  /** Concatenation of a sequence of strings (Python's `"".join`). */
  function Concat(parts: seq<string>): string {
    if |parts| == 0 then "" else parts[0] + Concat(parts[1..])
  }

  /** Sum of the lengths of a sequence of strings. */
  function TotalLength(parts: seq<string>): nat {
    if |parts| == 0 then 0 else |parts[0]| + TotalLength(parts[1..])
  }

  /** `parts` joined with separator `sep` (JavaScript's `Array.prototype.join`). */
  function Join(parts: seq<string>, sep: string): string {
    if |parts| == 0 then ""
    else if |parts| == 1 then parts[0]
    else parts[0] + sep + Join(parts[1..], sep)
  }

  predicate IsPrefix<T(==)>(a: seq<T>, b: seq<T>) {
    |a| <= |b| && a == b[..|a|]
  }

  predicate IsSuffix<T(==)>(a: seq<T>, b: seq<T>) {
    |a| <= |b| && a == b[|b| - |a|..]
  }

  /** `a` occurs somewhere in `b` (JavaScript's `String.prototype.includes`). */
  predicate IsInfix<T(==)>(a: seq<T>, b: seq<T>) {
    exists i :: 0 <= i <= |b| && IsPrefix(a, b[i..])
  }

  lemma {:induction false} RemoveFirstMultiset<T>(s: seq<T>, x: T)
    ensures x in s ==> multiset(RemoveFirst(s, x)) == multiset(s) - multiset{x}
    ensures x !in s ==> RemoveFirst(s, x) == s
    ensures x in s ==> |RemoveFirst(s, x)| == |s| - 1
  {
    if |s| == 0 {
    } else if s[0] == x {
      assert s == [s[0]] + s[1..];
    } else {
      RemoveFirstMultiset(s[1..], x);
      assert s == [s[0]] + s[1..];
    }
  }

  /** Removing an element that occurs once deletes it from the list. */
  lemma {:induction false} RemoveFirstNotIn<T>(s: seq<T>, x: T)
    requires Count(s, x) <= 1
    ensures x !in RemoveFirst(s, x)
  {
    if |s| == 0 {
    } else if s[0] == x {
      CountZeroNotIn(s[1..], x);
    } else {
      RemoveFirstNotIn(s[1..], x);
    }
  }

  lemma {:induction false} CountZeroNotIn<T>(s: seq<T>, x: T)
    requires Count(s, x) == 0
    ensures x !in s
  {
    if |s| > 0 {
      CountZeroNotIn(s[1..], x);
    }
  }

  /** Joining a leading part of the pieces gives a leading part of the whole. */
  lemma {:induction false} ConcatPrefix(parts: seq<string>, k: nat)
    requires k <= |parts|
    ensures IsPrefix(Concat(parts[..k]), Concat(parts))
  {
    if k > 0 {
      ConcatPrefix(parts[1..], k - 1);
      assert parts[..k][1..] == parts[1..][..k - 1];
    }
  }

  lemma {:induction false} TotalLengthAppend(a: seq<string>, b: seq<string>)
    ensures TotalLength(a + b) == TotalLength(a) + TotalLength(b)
  {
    if |a| == 0 {
      assert a + b == b;
    } else {
      TotalLengthAppend(a[1..], b);
      assert (a + b)[1..] == a[1..] + b;
    }
  }

  lemma {:induction false} CountAppend<T>(a: seq<T>, b: seq<T>, x: T)
    ensures Count(a + b, x) == Count(a, x) + Count(b, x)
  {
    if |a| == 0 {
      assert a + b == b;
    } else {
      CountAppend(a[1..], b, x);
      assert (a + b)[1..] == a[1..] + b;
    }
  }

  lemma {:induction false} CountNotIn<T>(s: seq<T>, x: T)
    requires x !in s
    ensures Count(s, x) == 0
  {
    if |s| > 0 {
      CountNotIn(s[1..], x);
    }
  }

  /** Joining pieces that all avoid `x` with a separator that avoids it too
      gives a string that avoids it. */
  lemma {:induction false} JoinAvoids(parts: seq<string>, sep: string, x: char)
    requires x !in sep && forall i :: 0 <= i < |parts| ==> x !in parts[i]
    ensures x !in Join(parts, sep)
  {
    if |parts| > 1 {
      JoinAvoids(parts[1..], sep, x);
      assert forall i :: 1 <= i < |parts| ==> parts[i] == parts[1..][i - 1];
    }
  }

  /** Pieces free of `x` joined by `x` alone: one `x` between each pair. */
  lemma {:induction false} CountJoin(parts: seq<string>, x: char)
    requires |parts| >= 1 && forall i :: 0 <= i < |parts| ==> x !in parts[i]
    ensures Count(Join(parts, [x]), x) == |parts| - 1
  {
    CountNotIn(parts[0], x);
    if |parts| > 1 {
      CountJoin(parts[1..], x);
      assert forall i :: 1 <= i < |parts| ==> parts[i] == parts[1..][i - 1];
      CountAppend(parts[0], [x], x);
      CountAppend(parts[0] + [x], Join(parts[1..], [x]), x);
    }
  }

  /** Removing the first occurrence cuts it out and keeps the rest in order. */
  lemma {:induction false} RemoveFirstCutsOut<T>(s: seq<T>, x: T)
    requires x in s
    ensures RemoveFirst(s, x) == s[..FirstIndex(s, x)] + s[FirstIndex(s, x) + 1..]
  {
    if s[0] != x {
      var t := s[1..];
      assert x in t;
      RemoveFirstCutsOut(t, x);
      var i := FirstIndex(t, x);
      assert FirstIndex(s, x) == i + 1;
      assert RemoveFirst(s, x) == [s[0]] + (t[..i] + t[i + 1..]);
      assert s[..i + 1] == [s[0]] + t[..i];
      assert s[i + 2..] == t[i + 1..];
    }
  }
}
