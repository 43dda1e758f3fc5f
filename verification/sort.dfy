/**
 * `_.sortBy(list, criteria)` as the tree plugin uses it: a stable sort by a
 * numeric criterion. underscore compares two entries by their criteria and
 * falls back to their input position when the criteria are equal or when
 * either is NaN (`parseFloat` of a missing order); `None` stands for NaN.
 *
 * The sort is modelled as an insertion sort that takes the entries in input
 * order and puts each one in front of the first already-sorted entry that
 * the comparator places after it. For a later entry `x` and an earlier
 * entry `y`, underscore's comparator puts `x` first exactly when both carry
 * a number and `x`'s is the smaller one.
 */
module StableSort {
  import opened Wrappers

  /** underscore's comparator says that `x` (later in the input) precedes `y` (earlier). */
  predicate Precedes<T>(key: T -> Option<int>, x: T, y: T) {
    key(x).Some? && key(y).Some? && key(x).value < key(y).value
  }

  function InsertBy<T>(x: T, s: seq<T>, key: T -> Option<int>): seq<T> {
    if s == [] || Precedes(key, x, s[0]) then [x] + s
    else [s[0]] + InsertBy(x, s[1..], key)
  }

  function SortBy<T>(xs: seq<T>, key: T -> Option<int>): seq<T> {
    if xs == [] then []
    else InsertBy(xs[|xs| - 1], SortBy(xs[..|xs| - 1], key), key)
  }

  /** Every entry carries a number (no NaN criterion). */
  ghost predicate AllKeyed<T>(xs: seq<T>, key: T -> Option<int>) {
    forall i :: 0 <= i < |xs| ==> key(xs[i]).Some?
  }

  /** The entries that carry a number come in ascending order. */
  ghost predicate Ascending<T>(xs: seq<T>, key: T -> Option<int>) {
    forall i, j :: 0 <= i < j < |xs| && key(xs[i]).Some? && key(xs[j]).Some? ==>
      key(xs[i]).value <= key(xs[j]).value
  }

  /** Every entry that carries a number carries at least `m`. */
  ghost predicate AtLeast<T>(xs: seq<T>, key: T -> Option<int>, m: int) {
    forall i :: 0 <= i < |xs| && key(xs[i]).Some? ==> key(xs[i]).value >= m
  }

  /** The entries whose criterion is exactly `v`, in their order. */
  function WithKey<T>(xs: seq<T>, key: T -> Option<int>, v: int): seq<T> {
    if xs == [] then []
    else (if key(xs[0]) == Some(v) then [xs[0]] else []) + WithKey(xs[1..], key, v)
  }

  lemma {:induction false} WithKeyAppend<T>(a: seq<T>, b: seq<T>, key: T -> Option<int>, v: int)
    ensures WithKey(a + b, key, v) == WithKey(a, key, v) + WithKey(b, key, v)
    decreases |a|
  {
    if a != [] {
      assert (a + b)[0] == a[0] && (a + b)[1..] == a[1..] + b;
      WithKeyAppend(a[1..], b, key, v);
    } else {
      assert a + b == b;
    }
  }

  lemma {:induction false} WithKeyNone<T>(s: seq<T>, key: T -> Option<int>, m: int, v: int)
    requires AtLeast(s, key, m) && v < m
    ensures WithKey(s, key, v) == []
    decreases |s|
  {
    if s != [] {
      WithKeyNone(s[1..], key, m, v);
    }
  }

  lemma {:induction false} InsertByPermutation<T>(x: T, s: seq<T>, key: T -> Option<int>)
    ensures multiset(InsertBy(x, s, key)) == multiset(s) + multiset{x}
    decreases |s|
  {
    if s != [] && !Precedes(key, x, s[0]) {
      InsertByPermutation(x, s[1..], key);
      assert s == [s[0]] + s[1..];
    }
  }

  lemma {:induction false} InsertByAtLeast<T>(x: T, s: seq<T>, key: T -> Option<int>, m: int)
    requires AtLeast(s, key, m)
    requires key(x).Some? ==> key(x).value >= m
    ensures AtLeast(InsertBy(x, s, key), key, m)
    decreases |s|
  {
    if s != [] && !Precedes(key, x, s[0]) {
      InsertByAtLeast(x, s[1..], key, m);
    }
  }

  lemma {:induction false} InsertByAscending<T>(x: T, s: seq<T>, key: T -> Option<int>)
    requires Ascending(s, key)
    ensures Ascending(InsertBy(x, s, key), key)
    decreases |s|
  {
    if s != [] {
      if Precedes(key, x, s[0]) {
        var r := [x] + s;
        forall i, j | 0 <= i < j < |r| && key(r[i]).Some? && key(r[j]).Some?
          ensures key(r[i]).value <= key(r[j]).value
        {
          if i == 0 && j > 1 {
            assert r[j] == s[j - 1];
          }
        }
      } else {
        var rest := InsertBy(x, s[1..], key);
        InsertByAscending(x, s[1..], key);
        if key(s[0]).Some? {
          InsertByAtLeast(x, s[1..], key, key(s[0]).value);
        }
        var r := [s[0]] + rest;
        assert r == InsertBy(x, s, key);
        forall i, j | 0 <= i < j < |r| && key(r[i]).Some? && key(r[j]).Some?
          ensures key(r[i]).value <= key(r[j]).value
        {
          if i > 0 {
            assert r[i] == rest[i - 1] && r[j] == rest[j - 1];
          } else {
            assert r[j] == rest[j - 1];
          }
        }
      }
    }
  }

  lemma {:induction false} InsertByStable<T>(x: T, s: seq<T>, key: T -> Option<int>, v: int)
    requires Ascending(s, key)
    ensures WithKey(InsertBy(x, s, key), key, v)
         == WithKey(s, key, v) + (if key(x) == Some(v) then [x] else [])
    decreases |s|
  {
    if s == [] {
      assert WithKey(InsertBy(x, s, key), key, v) == WithKey([x], key, v);
    } else if Precedes(key, x, s[0]) {
      WithKeyAppend([x], s, key, v);
      if key(x) == Some(v) {
        assert AtLeast(s, key, key(s[0]).value);
        WithKeyNone(s, key, key(s[0]).value, v);
      } else {
        assert WithKey([x], key, v) == [];
      }
    } else {
      InsertByStable(x, s[1..], key, v);
      var r := [s[0]] + InsertBy(x, s[1..], key);
      assert r[1..] == InsertBy(x, s[1..], key);
    }
  }

  lemma {:induction false} SortByAscendingKeyed<T>(xs: seq<T>, key: T -> Option<int>)
    ensures Ascending(SortBy(xs, key), key)
    decreases |xs|
  {
    if xs != [] {
      SortByAscendingKeyed(xs[..|xs| - 1], key);
      InsertByAscending(xs[|xs| - 1], SortBy(xs[..|xs| - 1], key), key);
    }
  }

  /** The sort returns a permutation of its input. */
  lemma {:induction false} SortByPermutation<T>(xs: seq<T>, key: T -> Option<int>)
    ensures multiset(SortBy(xs, key)) == multiset(xs)
    ensures |SortBy(xs, key)| == |xs|
    decreases |xs|
  {
    if xs != [] {
      var init, last := xs[..|xs| - 1], xs[|xs| - 1];
      SortByPermutation(init, key);
      InsertByPermutation(last, SortBy(init, key), key);
      assert xs == init + [last];
    }
  }

  /** When every entry carries a number, the result is in ascending order. */
  lemma SortBySorted<T>(xs: seq<T>, key: T -> Option<int>)
    requires AllKeyed(xs, key)
    ensures AllKeyed(SortBy(xs, key), key)
    ensures forall i, j :: 0 <= i < j < |SortBy(xs, key)| ==>
      key(SortBy(xs, key)[i]).value <= key(SortBy(xs, key)[j]).value
  {
    var out := SortBy(xs, key);
    SortByPermutation(xs, key);
    forall i | 0 <= i < |out| ensures key(out[i]).Some? {
      assert out[i] in multiset(xs);
    }
    SortByAscendingKeyed(xs, key);
  }

  /**
   * The sort is stable: for every number `v`, the entries whose criterion is
   * `v` come out in the order in which they went in.
   */
  lemma {:induction false} SortByStable<T>(xs: seq<T>, key: T -> Option<int>, v: int)
    ensures WithKey(SortBy(xs, key), key, v) == WithKey(xs, key, v)
    decreases |xs|
  {
    if xs != [] {
      var init, last := xs[..|xs| - 1], xs[|xs| - 1];
      SortByStable(init, key, v);
      SortByAscendingKeyed(init, key);
      InsertByStable(last, SortBy(init, key), key, v);
      assert xs == init + [last];
      WithKeyAppend(init, [last], key, v);
    }
  }
}
