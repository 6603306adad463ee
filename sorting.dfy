/**
 * Python's `list.sort(key=...)` for keys that are tuples of strings.  The
 * sort is stable: elements with equal keys keep their order.  `StableSort`
 * is its result as a function of the input list, and `SortInPlace` an
 * in-place insertion sort proved to produce it.
 */
module Sorting {
  import opened Text

  /** A tuple of strings, compared as Python compares tuples. */
  type SortKey = seq<string>

  /** Tuple `<`: the first position where the tuples differ decides; a proper prefix is smaller. */
  predicate KeyLess(a: SortKey, b: SortKey)
  {
    if a == [] then b != []
    else if b == [] then false
    else if a[0] != b[0] then StrLess(a[0], b[0])
    else KeyLess(a[1..], b[1..])
  }

  // ---------------------------------------------------------------------------
  // The key order is a strict total order

  lemma {:induction false} KeyLessIrreflexive(a: SortKey)
    ensures !KeyLess(a, a)
  {
    if a != [] {
      KeyLessIrreflexive(a[1..]);
    }
  }

  lemma {:induction false} KeyLessTransitive(a: SortKey, b: SortKey, c: SortKey)
    requires KeyLess(a, b) && KeyLess(b, c)
    ensures KeyLess(a, c)
  {
    if a != [] && b != [] && c != [] {
      if a[0] == b[0] && b[0] == c[0] {
        KeyLessTransitive(a[1..], b[1..], c[1..]);
      } else if a[0] != b[0] && b[0] != c[0] {
        StrLessTransitive(a[0], b[0], c[0]);
        if a[0] == c[0] {
          StrLessAsymmetric(a[0], b[0]);
        }
      }
    }
  }

  lemma {:induction false} KeyLessTotal(a: SortKey, b: SortKey)
    requires a != b
    ensures KeyLess(a, b) || KeyLess(b, a)
  {
    if a != [] && b != [] {
      if a[0] == b[0] {
        assert a == [a[0]] + a[1..] && b == [b[0]] + b[1..];
        KeyLessTotal(a[1..], b[1..]);
      } else {
        StrLessTotal(a[0], b[0]);
      }
    }
  }

  lemma KeyLessAsymmetric(a: SortKey, b: SortKey)
    requires KeyLess(a, b)
    ensures !KeyLess(b, a)
  {
    if KeyLess(b, a) {
      KeyLessTransitive(a, b, a);
      KeyLessIrreflexive(a);
    }
  }

  /** "Not below" is transitive: if `b` is not below `a` and `c` not below `b`, then `c` is not below `a`. */
  lemma NotLessTransitive(a: SortKey, b: SortKey, c: SortKey)
    requires !KeyLess(b, a) && !KeyLess(c, b)
    ensures !KeyLess(c, a)
  {
    if KeyLess(c, a) && a != b {
      KeyLessTotal(a, b);
      KeyLessTransitive(c, a, b);
    }
  }

  // ---------------------------------------------------------------------------
  // Sortedness and key groups

  /** Non-decreasing by key: no element's key is below that of an element before it. */
  ghost predicate Sorted<T>(s: seq<T>, key: T -> SortKey)
  {
    forall i, j :: 0 <= i < j < |s| ==> !KeyLess(key(s[j]), key(s[i]))
  }

  /** The elements whose key is `k`, in their order in `s`. */
  function WithKey<T>(s: seq<T>, key: T -> SortKey, k: SortKey): seq<T>
  {
    if s == [] then []
    else WithKey(s[..|s| - 1], key, k) + if key(s[|s| - 1]) == k then [s[|s| - 1]] else []
  }

  /** Among the elements with any one key, `s` and `t` have the same ones in the same order. */
  ghost predicate SameKeyOrder<T>(s: seq<T>, t: seq<T>, key: T -> SortKey)
  {
    forall k :: WithKey(s, key, k) == WithKey(t, key, k)
  }

  lemma {:induction false} WithKeyAppend<T>(a: seq<T>, b: seq<T>, key: T -> SortKey, k: SortKey)
    ensures WithKey(a + b, key, k) == WithKey(a, key, k) + WithKey(b, key, k)
  {
    if b == [] {
      assert a + b == a;
    } else {
      var n := |b| - 1;
      assert (a + b)[..|a| + n] == a + b[..n];
      WithKeyAppend(a, b[..n], key, k);
    }
  }

  /** The group of key `k` holds elements of `s` with key `k`, and no more of them than `s` has. */
  lemma {:induction false} WithKeyMembers<T>(s: seq<T>, key: T -> SortKey, k: SortKey)
    ensures |WithKey(s, key, k)| <= |s|
    ensures forall c :: c in WithKey(s, key, k) ==> c in s && key(c) == k
  {
    if s != [] {
      WithKeyMembers(s[..|s| - 1], key, k);
    }
  }

  lemma WithKeySingle<T>(c: T, key: T -> SortKey, k: SortKey)
    ensures WithKey([c], key, k) == if key(c) == k then [c] else []
  {
    assert [c][..0] == [];
  }

  /** The last element of `s` ends its key's group. */
  lemma LastInOwnGroup<T>(s: seq<T>, key: T -> SortKey)
    requires s != []
    ensures WithKey(s, key, key(s[|s| - 1])) == WithKey(s[..|s| - 1], key, key(s[|s| - 1])) + [s[|s| - 1]]
  {
  }

  // ---------------------------------------------------------------------------
  // Stable insertion

  /**
   * `x` placed after every element of `s` whose key is not above its own,
   * scanning from the back: the step of a stable insertion sort.
   */
  function Insert<T>(s: seq<T>, x: T, key: T -> SortKey): seq<T>
  {
    if s == [] || !KeyLess(key(x), key(s[|s| - 1])) then s + [x]
    else Insert(s[..|s| - 1], x, key) + [s[|s| - 1]]
  }

  lemma {:induction false} InsertPermutes<T>(s: seq<T>, x: T, key: T -> SortKey)
    ensures |Insert(s, x, key)| == |s| + 1
    ensures multiset(Insert(s, x, key)) == multiset(s) + multiset{x}
  {
    if s != [] && KeyLess(key(x), key(s[|s| - 1])) {
      var n := |s| - 1;
      InsertPermutes(s[..n], x, key);
      assert s == s[..n] + [s[n]];
    }
  }

  /** An element whose key no element of a sorted list is above can go at its end. */
  lemma AppendMaximal<T>(r: seq<T>, y: T, key: T -> SortKey)
    requires Sorted(r, key)
    requires forall i :: 0 <= i < |r| ==> !KeyLess(key(y), key(r[i]))
    ensures Sorted(r + [y], key)
  {
  }

  /** When `x` goes below the last element `y` of a sorted list, no element of the rest is above `y`. */
  lemma LastStaysMaximal<T>(s: seq<T>, x: T, key: T -> SortKey, r: seq<T>)
    requires Sorted(s, key) && s != [] && KeyLess(key(x), key(s[|s| - 1]))
    requires r == Insert(s[..|s| - 1], x, key)
    ensures forall i :: 0 <= i < |r| ==> !KeyLess(key(s[|s| - 1]), key(r[i]))
  {
    var n := |s| - 1;
    var y := s[n];
    InsertPermutes(s[..n], x, key);
    forall i | 0 <= i < |r| ensures !KeyLess(key(y), key(r[i])) {
      assert r[i] in multiset(s[..n]) + multiset{x};
      if r[i] == x {
        KeyLessAsymmetric(key(x), key(y));
      } else {
        assert r[i] in s[..n];
      }
    }
  }

  lemma {:induction false} InsertKeepsSorted<T>(s: seq<T>, x: T, key: T -> SortKey)
    requires Sorted(s, key)
    ensures Sorted(Insert(s, x, key), key)
  {
    var n := |s| - 1;
    if s == [] {
    } else if !KeyLess(key(x), key(s[n])) {
      forall i | 0 <= i < n ensures !KeyLess(key(x), key(s[i])) {
        NotLessTransitive(key(s[i]), key(s[n]), key(x));
      }
      AppendMaximal(s, x, key);
    } else {
      InsertKeepsSorted(s[..n], x, key);
      LastStaysMaximal(s, x, key, Insert(s[..n], x, key));
      AppendMaximal(Insert(s[..n], x, key), s[n], key);
    }
  }

  /** The key groups of `s + [x] + [y]` and `s + [y] + [x]` agree when `x` and `y` have different keys. */
  lemma SwapDifferentKeys<T>(s: seq<T>, x: T, y: T, key: T -> SortKey, k: SortKey)
    requires key(x) != key(y)
    ensures WithKey(s, key, k) + WithKey([x], key, k) + WithKey([y], key, k)
         == WithKey(s, key, k) + WithKey([y], key, k) + WithKey([x], key, k)
  {
    WithKeySingle(x, key, k);
    WithKeySingle(y, key, k);
  }

  /** Inserting `x` puts it last among the elements with its key. */
  lemma {:induction false} InsertKeepsKeyOrder<T>(s: seq<T>, x: T, key: T -> SortKey, k: SortKey)
    ensures WithKey(Insert(s, x, key), key, k) == WithKey(s, key, k) + WithKey([x], key, k)
  {
    if s == [] || !KeyLess(key(x), key(s[|s| - 1])) {
      WithKeyAppend(s, [x], key, k);
    } else {
      var n := |s| - 1;
      var y := s[n];
      var r := Insert(s[..n], x, key);
      assert Insert(s, x, key) == r + [y];
      assert s == s[..n] + [y];
      KeyLessIrreflexive(key(x));
      InsertKeepsKeyOrder(s[..n], x, key, k);
      WithKeyAppend(r, [y], key, k);
      WithKeyAppend(s[..n], [y], key, k);
      SwapDifferentKeys(s[..n], x, y, key, k);
    }
  }

  // ---------------------------------------------------------------------------
  // The stable sort

  /** `list.sort(key=key)`'s result: the elements sorted stably by key. */
  function StableSort<T>(s: seq<T>, key: T -> SortKey): seq<T>
  {
    if s == [] then [] else Insert(StableSort(s[..|s| - 1], key), s[|s| - 1], key)
  }

  /** The result is sorted, a permutation of the input, and keeps the order within each key. */
  lemma {:induction false} StableSortCorrect<T>(s: seq<T>, key: T -> SortKey)
    ensures Sorted(StableSort(s, key), key)
    ensures multiset(StableSort(s, key)) == multiset(s)
    ensures SameKeyOrder(StableSort(s, key), s, key)
  {
    if s != [] {
      var n := |s| - 1;
      var r := StableSort(s[..n], key);
      StableSortCorrect(s[..n], key);
      InsertKeepsSorted(r, s[n], key);
      InsertPermutes(r, s[n], key);
      assert s == s[..n] + [s[n]];
      forall k ensures WithKey(StableSort(s, key), key, k) == WithKey(s, key, k) {
        InsertKeepsKeyOrder(r, s[n], key, k);
        WithKeyAppend(s[..n], [s[n]], key, k);
      }
    }
  }

  /** Sorting a list with one more element at its end inserts that element into the sorted rest. */
  lemma SortSnoc<T>(s: seq<T>, x: T, key: T -> SortKey)
    ensures StableSort(s + [x], key) == Insert(StableSort(s, key), x, key)
  {
    assert (s + [x])[..|s|] == s;
  }

  /** Three elements, the first with the largest key and the other two in order, sort as second, third, first. */
  lemma SortThree<T>(x: T, y: T, z: T, key: T -> SortKey)
    requires KeyLess(key(y), key(x)) && KeyLess(key(z), key(x)) && !KeyLess(key(z), key(y))
    ensures StableSort([x, y, z], key) == [y, z, x]
  {
    SortSnoc([], x, key);
    assert StableSort([x], key) == [x] by { assert [] + [x] == [x]; }
    SortSnoc([x], y, key);
    assert Insert([x], y, key) == [y, x] by { assert [x][..0] == []; }
    assert StableSort([x, y], key) == [y, x] by { assert [x] + [y] == [x, y]; }
    SortSnoc([x, y], z, key);
    assert Insert([y], z, key) == [y, z];
    assert Insert([y, x], z, key) == [y, z, x] by { assert [y, x][..1] == [y]; }
    assert [x, y] + [z] == [x, y, z];
  }

  /** The last element of a sorted list has a key no element of the list is above. */
  lemma LastIsMaximal<T>(s: seq<T>, key: T -> SortKey, c: T)
    requires Sorted(s, key) && c in s
    ensures !KeyLess(key(s[|s| - 1]), key(c))
  {
    var i :| 0 <= i < |s| && s[i] == c;
    if i == |s| - 1 {
      KeyLessIrreflexive(key(c));
    }
  }

  /** A list whose every key group matches the empty list's is empty. */
  lemma NoGroupsMeansEmpty<T>(t: seq<T>, u: seq<T>, key: T -> SortKey)
    requires t == [] && SameKeyOrder(t, u, key)
    ensures u == []
  {
    if u != [] {
      LastInOwnGroup(u, key);
      assert false;
    }
  }

  /** Sorted lists with the same key groups end in the same key. */
  lemma SameLastKey<T>(t: seq<T>, u: seq<T>, key: T -> SortKey)
    requires Sorted(t, key) && Sorted(u, key) && SameKeyOrder(t, u, key) && t != [] && u != []
    ensures key(t[|t| - 1]) == key(u[|u| - 1])
  {
    var x, y := t[|t| - 1], u[|u| - 1];
    var kx, ky := key(x), key(y);
    // Each last key occurs in the other list, so neither is above the other.
    assert x in WithKey(u, key, kx) by { LastInOwnGroup(t, key); }
    assert y in WithKey(t, key, ky) by { LastInOwnGroup(u, key); }
    WithKeyMembers(u, key, kx);
    WithKeyMembers(t, key, ky);
    LastIsMaximal(u, key, x);
    LastIsMaximal(t, key, y);
    if kx != ky {
      KeyLessTotal(kx, ky);
    }
  }

  /** Sorted lists with the same key groups end in the same element, and their remainders have the same key groups. */
  lemma SameLast<T>(t: seq<T>, u: seq<T>, key: T -> SortKey)
    requires Sorted(t, key) && Sorted(u, key) && SameKeyOrder(t, u, key) && t != [] && u != []
    ensures t[|t| - 1] == u[|u| - 1]
    ensures SameKeyOrder(t[..|t| - 1], u[..|u| - 1], key)
  {
    var n, m := |t| - 1, |u| - 1;
    var x, y := t[n], u[m];
    SameLastKey(t, u, key);
    var kx := key(x);
    var gt, gu := WithKey(t, key, kx), WithKey(u, key, kx);
    LastInOwnGroup(t, key);
    LastInOwnGroup(u, key);
    assert gt[|gt| - 1] == x && gu[|gu| - 1] == y;
    assert WithKey(t[..n], key, kx) == gt[..|gt| - 1] && WithKey(u[..m], key, kx) == gu[..|gu| - 1];
    forall k ensures WithKey(t[..n], key, k) == WithKey(u[..m], key, k) {
      if k != kx {
        assert WithKey(t, key, k) == WithKey(t[..n], key, k);
        assert WithKey(u, key, k) == WithKey(u[..m], key, k);
      }
    }
  }

  /** Two sorted lists with the same key groups, in the same order, are equal. */
  lemma {:induction false} SortedByGroupsIsUnique<T>(t: seq<T>, u: seq<T>, key: T -> SortKey)
    requires Sorted(t, key) && Sorted(u, key) && SameKeyOrder(t, u, key)
    ensures t == u
  {
    if t == [] {
      NoGroupsMeansEmpty(t, u, key);
    } else if u == [] {
      NoGroupsMeansEmpty(u, t, key);
    } else {
      var n, m := |t| - 1, |u| - 1;
      SameLast(t, u, key);
      SortedByGroupsIsUnique(t[..n], u[..m], key);
      assert t == t[..n] + [t[n]] && u == u[..m] + [u[m]];
    }
  }

  /**
   * Any sorted arrangement that keeps the order within each key is the
   * stable sort: whichever stable algorithm `list.sort` uses, its result is
   * `StableSort`.
   */
  lemma StableSortIsUnique<T>(s: seq<T>, t: seq<T>, key: T -> SortKey)
    requires Sorted(t, key) && SameKeyOrder(t, s, key)
    ensures t == StableSort(s, key)
  {
    StableSortCorrect(s, key);
    SortedByGroupsIsUnique(t, StableSort(s, key), key);
  }

  /** Sorting an already sorted list changes nothing. */
  lemma SortingSortedChangesNothing<T>(s: seq<T>, key: T -> SortKey)
    requires Sorted(s, key)
    ensures StableSort(s, key) == s
  {
    StableSortIsUnique(s, s, key);
  }

  /** Sorting twice is sorting once. */
  lemma StableSortIdempotent<T>(s: seq<T>, key: T -> SortKey)
    ensures StableSort(StableSort(s, key), key) == StableSort(s, key)
  {
    StableSortCorrect(s, key);
    SortingSortedChangesNothing(StableSort(s, key), key);
  }

  // ---------------------------------------------------------------------------
  // In place

  /**
   * `x` lands at `j` when the key of `s[j - 1]` is not above its own and the
   * keys of all of `s[j..]` are.
   */
  lemma {:induction false} InsertAt<T>(s: seq<T>, j: nat, x: T, key: T -> SortKey)
    requires j <= |s|
    requires j == 0 || !KeyLess(key(x), key(s[j - 1]))
    requires forall k :: j <= k < |s| ==> KeyLess(key(x), key(s[k]))
    ensures Insert(s, x, key) == s[..j] + [x] + s[j..]
    decreases |s|
  {
    if j == |s| {
      assert s[..j] == s && s[j..] == [];
    } else {
      var n := |s| - 1;
      InsertAt(s[..n], j, x, key);
      assert s[..n][..j] == s[..j];
      assert s[j..] == s[..n][j..] + [s[n]];
    }
  }

  /**
   * One step of the insertion sort: `a[i]` moves down past the elements of
   * the prefix `a[..i]` whose keys are above its own.
   */
  method InsertLast<T>(a: array<T>, i: nat, key: T -> SortKey)
    requires i < a.Length
    modifies a
    ensures a[..i + 1] == Insert(old(a[..i]), old(a[i]), key)
    ensures a[i + 1..] == old(a[i + 1..])
  {
    var x := a[i];
    ghost var s := a[..i];
    var j := i;
    while j > 0 && KeyLess(key(x), key(a[j - 1]))
      invariant 0 <= j <= i
      invariant a[..j] == s[..j]
      invariant a[j + 1..i + 1] == s[j..]
      invariant a[i + 1..] == old(a[i + 1..])
      invariant forall k :: j <= k < i ==> KeyLess(key(x), key(s[k]))
    {
      a[j] := a[j - 1];
      j := j - 1;
    }
    InsertAt(s, j, x, key);
    a[j] := x;
    assert a[..j] == s[..j] && a[j + 1..i + 1] == s[j..];
    assert a[..i + 1] == a[..j] + [a[j]] + a[j + 1..i + 1];
  }

  /** `a.sort(key=key)`: a stable sort of the array in place. */
  method SortInPlace<T>(a: array<T>, key: T -> SortKey)
    modifies a
    ensures a[..] == StableSort(old(a[..]), key)
    ensures Sorted(a[..], key) && multiset(a[..]) == multiset(old(a[..]))
    ensures SameKeyOrder(a[..], old(a[..]), key)
  {
    ghost var orig := a[..];
    var i := 0;
    while i < a.Length
      invariant 0 <= i <= a.Length
      invariant a[..i] == StableSort(orig[..i], key)
      invariant a[i..] == orig[i..]
    {
      InsertLast(a, i, key);
      assert orig[..i + 1][..i] == orig[..i];
      i := i + 1;
    }
    assert a[..] == a[..a.Length] && orig == orig[..a.Length];
    StableSortCorrect(orig, key);
  }
}
