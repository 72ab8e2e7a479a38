/**
 * A stable sort by key, standing for Python's `sorted(xs, key=...)`: elements with
 * equal keys keep their input order, and `reverse=True` is the same stable sort on
 * the negated key (Python keeps equal elements in input order under `reverse` too).
 */
module StableSort {
  import opened Seqs

  /** Sort keys, ordered by `tier` first and `val` second. */
  datatype Key = Key(tier: int, val: real)

  predicate KeyLess(a: Key, b: Key)
  {
    a.tier < b.tier || (a.tier == b.tier && a.val < b.val)
  }

  function Negate(k: Key): Key
  {
    Key(-k.tier, -k.val)
  }

  /** Nothing later in `s` has a smaller key than anything earlier. */
  ghost predicate Sorted<T>(s: seq<T>, key: T -> Key)
  {
    forall i, j :: 0 <= i < j < |s| ==> !KeyLess(key(s[j]), key(s[i]))
  }

  /** The elements of `s` whose key is `k`, in order. */
  function WithKey<T>(s: seq<T>, key: T -> Key, k: Key): (r: seq<T>)
    ensures |r| <= |s|
  {
    if s == [] then []
    else (if key(s[0]) == k then [s[0]] else []) + WithKey(s[1..], key, k)
  }

  /** Inserts `x` just before the first element whose key is greater. */
  function Insert<T>(x: T, s: seq<T>, key: T -> Key): seq<T>
  {
    if s == [] then [x]
    else if KeyLess(key(x), key(s[0])) then [x] + s
    else [s[0]] + Insert(x, s[1..], key)
  }

  /** Insertion sort, taking the input from left to right. */
  function Sort<T>(s: seq<T>, key: T -> Key): seq<T>
  {
    if s == [] then [] else Insert(s[|s| - 1], Sort(s[..|s| - 1], key), key)
  }

  lemma {:induction false} InsertPerm<T>(x: T, s: seq<T>, key: T -> Key)
    ensures multiset(Insert(x, s, key)) == multiset(s) + multiset{x}
  {
    if s != [] && !KeyLess(key(x), key(s[0])) {
      InsertPerm(x, s[1..], key);
      assert s == [s[0]] + s[1..];
    }
  }

  lemma {:induction false} InsertSorted<T>(x: T, s: seq<T>, key: T -> Key)
    requires Sorted(s, key)
    ensures Sorted(Insert(x, s, key), key)
  {
    if s != [] && !KeyLess(key(x), key(s[0])) {
      InsertSorted(x, s[1..], key);
      InsertPerm(x, s[1..], key);
      var r := Insert(x, s[1..], key);
      forall j | 0 <= j < |r| ensures !KeyLess(key(r[j]), key(s[0])) {
        assert r[j] in multiset(r);
        assert r[j] == x || r[j] in s[1..];
      }
    }
  }

  /** Sorting permutes its input. */
  lemma {:induction false} SortPerm<T>(s: seq<T>, key: T -> Key)
    ensures multiset(Sort(s, key)) == multiset(s)
  {
    if s != [] {
      SortPerm(s[..|s| - 1], key);
      InsertPerm(s[|s| - 1], Sort(s[..|s| - 1], key), key);
      SplitLast(s);
    }
  }

  /** Sorting orders its input by key. */
  lemma {:induction false} SortSorted<T>(s: seq<T>, key: T -> Key)
    ensures Sorted(Sort(s, key), key)
  {
    if s != [] {
      SortSorted(s[..|s| - 1], key);
      InsertSorted(s[|s| - 1], Sort(s[..|s| - 1], key), key);
    }
  }

  lemma {:induction false} WithKeyAppend<T>(s: seq<T>, t: seq<T>, key: T -> Key, k: Key)
    ensures WithKey(s + t, key, k) == WithKey(s, key, k) + WithKey(t, key, k)
  {
    if s != [] {
      WithKeyAppend(s[1..], t, key, k);
      assert (s + t)[1..] == s[1..] + t;
      assert (s + t)[0] == s[0];
    } else {
      assert s + t == t;
    }
  }

  lemma {:induction false} WithKeyNone<T>(s: seq<T>, key: T -> Key, k: Key)
    requires forall i :: 0 <= i < |s| ==> KeyLess(k, key(s[i]))
    ensures WithKey(s, key, k) == []
  {
    if s != [] {
      WithKeyNone(s[1..], key, k);
    }
  }

  /** In a sorted list, `x` lands after every element of its own key. */
  lemma {:induction false} InsertWithKey<T>(x: T, s: seq<T>, key: T -> Key, k: Key)
    requires Sorted(s, key)
    ensures WithKey(Insert(x, s, key), key, k)
         == WithKey(s, key, k) + (if key(x) == k then [x] else [])
  {
    var mine: seq<T> := if key(x) == k then [x] else [];
    if s == [] {
    } else if KeyLess(key(x), key(s[0])) {
      if key(x) == k {
        WithKeyNone(s, key, k);
      }
      WithKeyCons(x, s, key, k);
    } else {
      var head: seq<T> := if key(s[0]) == k then [s[0]] else [];
      InsertWithKey(x, s[1..], key, k);
      WithKeyCons(s[0], Insert(x, s[1..], key), key, k);
      WithKeyCons(s[0], s[1..], key, k);
      ConcatAssoc(head, WithKey(s[1..], key, k), mine);
    }
  }

  lemma WithKeyCons<T>(y: T, t: seq<T>, key: T -> Key, k: Key)
    ensures WithKey([y] + t, key, k) == (if key(y) == k then [y] else []) + WithKey(t, key, k)
  {
    assert ([y] + t)[1..] == t;
  }

  /** Sorting is stable: the elements of one key keep their input order. */
  lemma {:induction false} SortStable<T>(s: seq<T>, key: T -> Key, k: Key)
    ensures WithKey(Sort(s, key), key, k) == WithKey(s, key, k)
  {
    if s != [] {
      var init, last := s[..|s| - 1], s[|s| - 1];
      SortStable(init, key, k);
      SortSorted(init, key);
      InsertWithKey(last, Sort(init, key), key, k);
      WithKeyAppend(init, [last], key, k);
      SplitLast(s);
    }
  }

  /** Sorting an already sorted list changes nothing. */
  lemma {:induction false} SortSortedIdentity<T>(s: seq<T>, key: T -> Key)
    requires Sorted(s, key)
    ensures Sort(s, key) == s
  {
    if s != [] {
      var init, last := s[..|s| - 1], s[|s| - 1];
      SortSortedIdentity(init, key);
      InsertLast(last, init, key);
      SplitLast(s);
    }
  }

  lemma {:induction false} InsertLast<T>(x: T, s: seq<T>, key: T -> Key)
    requires forall i :: 0 <= i < |s| ==> !KeyLess(key(x), key(s[i]))
    ensures Insert(x, s, key) == s + [x]
  {
    if s != [] {
      InsertLast(x, s[1..], key);
      assert s == [s[0]] + s[1..];
    }
  }
}
