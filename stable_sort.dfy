/**
 * A stable comparison sort, as `Array.prototype.sort` must be since
 * ECMAScript 2019: insertion by a comparator, where `after(a, b)` means the
 * comparator returned a positive number, so `a` must be placed after `b`.
 */
module StableSort {

  /** Insert `x` at the back of `s`, then move it left past every element it must precede. */
  function Insert<T>(after: (T, T) -> bool, s: seq<T>, x: T): (r: seq<T>)
    ensures multiset(r) == multiset(s) + multiset{x}
  {
    if s == [] || !after(s[|s| - 1], x) then s + [x]
    else
      assert s == s[..|s| - 1] + [s[|s| - 1]];
      Insert(after, s[..|s| - 1], x) + [s[|s| - 1]]
  }

  /** Insert the elements one by one, front to back. */
  function Sort<T>(after: (T, T) -> bool, s: seq<T>): (r: seq<T>)
    ensures multiset(r) == multiset(s)
  {
    if s == [] then []
    else
      assert s == s[..|s| - 1] + [s[|s| - 1]];
      Insert(after, Sort(after, s[..|s| - 1]), s[|s| - 1])
  }

  /** No element stands before one it must follow. */
  predicate SortedBy<T>(after: (T, T) -> bool, s: seq<T>) {
    forall i, j :: 0 <= i < j < |s| ==> !after(s[i], s[j])
  }

  /** On the elements of `s` the comparator orders by an integer rank, so it is a total preorder there. */
  ghost predicate RankedBy<T>(after: (T, T) -> bool, rank: T -> int, s: seq<T>) {
    forall a, b :: a in s && b in s ==> (after(a, b) <==> rank(a) > rank(b))
  }

  lemma InMultiset<T>(s: seq<T>, t: seq<T>, x: T)
    requires multiset(t) == multiset(s) + multiset{x}
    ensures forall p :: p in t ==> p in s || p == x
  {
    forall p | p in t ensures p in s || p == x {
      assert p in multiset(t);
    }
  }

  lemma {:induction false} InsertSorted<T>(after: (T, T) -> bool, rank: T -> int, s: seq<T>, x: T)
    requires RankedBy(after, rank, s + [x]) && SortedBy(after, s)
    ensures SortedBy(after, Insert(after, s, x))
    decreases |s|
  {
    if s == [] || !after(s[|s| - 1], x) {
      var r := s + [x];
      forall i, j | 0 <= i < j < |r| ensures !after(r[i], r[j]) {
        if j < |s| {
          assert r[i] == s[i] && r[j] == s[j];
        } else if i < |s| - 1 {
          assert !after(s[i], s[|s| - 1]);
          assert s[i] in s + [x] && s[|s| - 1] in s + [x] && x in s + [x];
        }
      }
    } else {
      var init := s[..|s| - 1];
      var last := s[|s| - 1];
      assert s == init + [last];
      assert SortedBy(after, init) by {
        forall i, j | 0 <= i < j < |init| ensures !after(init[i], init[j]) {
          assert init[i] == s[i] && init[j] == s[j];
        }
      }
      assert RankedBy(after, rank, init + [x]) by {
        forall a | a in init + [x] ensures a in s + [x] {
        }
      }
      InsertSorted(after, rank, init, x);
      var m := Insert(after, init, x);
      InMultiset(init, m, x);
      var r := m + [last];
      forall i, j | 0 <= i < j < |r| ensures !after(r[i], r[j]) {
        if j < |m| {
          assert r[i] == m[i] && r[j] == m[j];
        } else {
          assert r[i] in m && r[j] == last;
          if r[i] in init {
            var k :| 0 <= k < |init| && init[k] == r[i];
            assert !after(s[k], s[|s| - 1]);
          } else {
            assert r[i] == x;
            assert x in s + [x] && last in s + [x];
          }
        }
      }
    }
  }

  /** Sorting by a ranked comparator yields a sorted sequence. */
  lemma {:induction false} SortSorted<T>(after: (T, T) -> bool, rank: T -> int, s: seq<T>)
    requires RankedBy(after, rank, s)
    ensures SortedBy(after, Sort(after, s))
  {
    if s != [] {
      var init := s[..|s| - 1];
      var x := s[|s| - 1];
      assert s == init + [x];
      assert RankedBy(after, rank, init) by {
        forall a | a in init ensures a in s {
        }
      }
      SortSorted(after, rank, init);
      var t := Sort(after, init);
      assert RankedBy(after, rank, t + [x]) by {
        forall a | a in t + [x] ensures a in s {
          if a in t {
            assert a in multiset(t);
          }
        }
      }
      InsertSorted(after, rank, t, x);
    }
  }

  /** The elements of `s` whose key is `k`, in their order in `s`. */
  ghost function WithKey<T, K>(key: T -> K, s: seq<T>, k: K): seq<T> {
    if s == [] then []
    else WithKey(key, s[..|s| - 1], k) + (if key(s[|s| - 1]) == k then [s[|s| - 1]] else [])
  }

  lemma WithKeyAppend<T, K>(key: T -> K, s: seq<T>, x: T, k: K)
    ensures WithKey(key, s + [x], k) == WithKey(key, s, k) + (if key(x) == k then [x] else [])
  {
    assert (s + [x])[..|s|] == s;
  }

  /** The comparator only separates elements with different keys. */
  ghost predicate KeyedBy<T, K>(after: (T, T) -> bool, key: T -> K, s: seq<T>) {
    forall a, b :: a in s && b in s && after(a, b) ==> key(a) != key(b)
  }

  /** `x` passes only elements of `s` whose key differs from its own. */
  ghost predicate PassesOtherKeys<T, K>(after: (T, T) -> bool, key: T -> K, s: seq<T>, x: T) {
    forall i :: 0 <= i < |s| && after(s[i], x) ==> key(s[i]) != key(x)
  }

  lemma {:induction false} InsertStable<T, K>(after: (T, T) -> bool, key: T -> K, s: seq<T>, x: T, k: K)
    requires PassesOtherKeys(after, key, s, x)
    ensures WithKey(key, Insert(after, s, x), k) == WithKey(key, s, k) + (if key(x) == k then [x] else [])
    decreases |s|
  {
    if s == [] || !after(s[|s| - 1], x) {
      WithKeyAppend(key, s, x, k);
    } else {
      var init := s[..|s| - 1];
      var last := s[|s| - 1];
      assert s == init + [last];
      InsertStable(after, key, init, x, k);
      WithKeyAppend(key, Insert(after, init, x), last, k);
      WithKeyAppend(key, init, last, k);
      // `x` passes `last` only when their keys differ, so at most one of them has key `k`.
      var lx := if key(x) == k then [x] else [];
      var ll := if key(last) == k then [last] else [];
      assert lx == [] || ll == [];
      assert WithKey(key, init, k) + lx + ll == WithKey(key, init, k) + ll + lx;
    }
  }

  /** Sorting is stable: the elements with any one key keep their relative order. */
  lemma {:induction false} SortStable<T, K>(after: (T, T) -> bool, key: T -> K, s: seq<T>, k: K)
    requires KeyedBy(after, key, s)
    ensures WithKey(key, Sort(after, s), k) == WithKey(key, s, k)
  {
    if s != [] {
      var init := s[..|s| - 1];
      var x := s[|s| - 1];
      assert s == init + [x];
      assert KeyedBy(after, key, init) by {
        forall a | a in init ensures a in s {
        }
      }
      SortStable(after, key, init, k);
      var t := Sort(after, init);
      assert PassesOtherKeys(after, key, t, x) by {
        forall i | 0 <= i < |t| ensures t[i] in s {
          assert t[i] in multiset(t);
        }
      }
      InsertStable(after, key, t, x, k);
      WithKeyAppend(key, init, x, k);
    }
  }

  /**
   * `x` lands at `j` when it must follow every element from `j` on and need
   * not follow the one before.
   */
  lemma {:induction false} InsertAt<T>(after: (T, T) -> bool, t: seq<T>, j: nat, x: T)
    requires j <= |t| && (j == 0 || !after(t[j - 1], x))
    requires forall k :: j <= k < |t| ==> after(t[k], x)
    ensures Insert(after, t, x) == t[..j] + [x] + t[j..]
    decreases |t|
  {
    if j < |t| {
      var init := t[..|t| - 1];
      var last := t[|t| - 1];
      assert t == init + [last];
      assert after(last, x);
      assert Insert(after, t, x) == Insert(after, init, x) + [last];
      assert j == 0 || init[j - 1] == t[j - 1];
      assert forall k :: j <= k < |init| ==> after(init[k], x) by {
        forall k | j <= k < |init| ensures after(init[k], x) {
          assert init[k] == t[k];
        }
      }
      InsertAt(after, init, j, x);
      JoinAt(init, j, x, last);
    } else {
      assert t[..j] == t && t[j..] == [];
    }
  }

  lemma JoinAt<T>(init: seq<T>, j: nat, x: T, last: T)
    requires j <= |init|
    ensures init[..j] + [x] + init[j..] + [last] == (init + [last])[..j] + [x] + (init + [last])[j..]
  {
    var t := init + [last];
    assert t[..j] == init[..j];
    assert t[j..] == init[j..] + [last];
  }

  lemma SortPrefix<T>(after: (T, T) -> bool, s: seq<T>, i: nat)
    requires i < |s|
    ensures Sort(after, s[..i + 1]) == Insert(after, Sort(after, s[..i]), s[i])
  {
    assert s[..i + 1][..i] == s[..i];
  }

  /**
   * The inner loop of the insertion sort: the elements of `a[..i]` that `x`
   * must precede move one place right, from the back, leaving a gap at `j`.
   */
  method ShiftUp<T>(a: array<T>, i: nat, x: T, after: (T, T) -> bool) returns (j: nat)
    requires i < a.Length
    modifies a
    ensures j <= i
    ensures forall k :: 0 <= k < j ==> a[k] == old(a[k])
    ensures forall k :: j < k <= i ==> a[k] == old(a[k - 1])
    ensures forall k :: i < k < a.Length ==> a[k] == old(a[k])
    ensures Insert(after, old(a[..i]), x) == old(a[..i])[..j] + [x] + old(a[..i])[j..]
  {
    ghost var sorted := a[..i];
    j := i;
    while j > 0 && after(a[j - 1], x)
      invariant 0 <= j <= i
      invariant forall k :: 0 <= k < j ==> a[k] == sorted[k]
      invariant forall k :: j < k <= i ==> a[k] == sorted[k - 1]
      invariant forall k :: i < k < a.Length ==> a[k] == old(a[k])
      invariant forall k :: j <= k < i ==> after(sorted[k], x)
    {
      a[j] := a[j - 1];
      j := j - 1;
    }
    InsertAt(after, sorted, j, x);
  }

  /**
   * One step of the insertion sort: `a[i]` is lifted out and the elements of
   * `a[..i]` it must precede are shifted one place right.
   */
  method Lift<T>(a: array<T>, i: nat, after: (T, T) -> bool)
    requires i < a.Length
    modifies a
    ensures a[..i + 1] == Insert(after, old(a[..i]), old(a[i]))
    ensures forall k :: i < k < a.Length ==> a[k] == old(a[k])
  {
    ghost var sorted := a[..i];
    var x := a[i];
    var j := ShiftUp(a, i, x, after);
    a[j] := x;
    ghost var r := sorted[..j] + [x] + sorted[j..];
    forall k | 0 <= k <= i ensures a[k] == r[k] {
      if k < j {
        assert r[k] == sorted[k];
      } else if k > j {
        assert r[k] == sorted[k - 1];
      }
    }
    assert a[..i + 1] == r;
  }

  /** The in-place insertion sort behind `Array.prototype.sort`. */
  method InsertionSort<T>(a: array<T>, after: (T, T) -> bool)
    modifies a
    ensures a[..] == Sort(after, old(a[..]))
  {
    ghost var s := a[..];
    var i := 0;
    while i < a.Length
      invariant 0 <= i <= a.Length
      invariant a[..i] == Sort(after, s[..i])
      invariant forall k :: i <= k < a.Length ==> a[k] == s[k]
    {
      Lift(a, i, after);
      SortPrefix(after, s, i);
      i := i + 1;
    }
    assert a[..] == a[..a.Length] && s == s[..a.Length];
  }
}
