/** `Array.prototype.sort` with a numeric comparator `(a, b) => key(a) - key(b)`. Since
    ECMAScript 2019 the sort is stable: the result is ascending by key, and elements with
    equal keys keep the order they had before sorting. The sort is given here as an
    insertion sort that places each element after every element whose key is not greater. */
module StableSort {

  predicate SortedBy<T>(s: seq<T>, key: T -> int) {
    forall i, j :: 0 <= i < j < |s| ==> key(s[i]) <= key(s[j])
  }

  /** The elements of `s` whose key is `k`, in their order in `s`. */
  function WithKey<T>(s: seq<T>, key: T -> int, k: int): seq<T> {
    if s == [] then []
    else WithKey(s[..|s| - 1], key, k) + (if key(s[|s| - 1]) == k then [s[|s| - 1]] else [])
  }

  /** `x` placed after the elements of `s` whose key is at most its own. */
  function InsertBy<T>(s: seq<T>, x: T, key: T -> int): (r: seq<T>)
    ensures |r| == |s| + 1
  {
    if s == [] || key(s[|s| - 1]) <= key(x) then s + [x]
    else InsertBy(s[..|s| - 1], x, key) + [s[|s| - 1]]
  }

  /** The stable sort of `s` by `key`. */
  function SortBy<T>(s: seq<T>, key: T -> int): (r: seq<T>)
    ensures |r| == |s|
  {
    if s == [] then []
    else InsertBy(SortBy(s[..|s| - 1], key), s[|s| - 1], key)
  }

  /** Inserting adds exactly `x`. */
  lemma {:induction false} InsertByPermutes<T>(s: seq<T>, x: T, key: T -> int)
    ensures multiset(InsertBy(s, x, key)) == multiset(s) + multiset{x}
  {
    if s != [] && key(s[|s| - 1]) > key(x) {
      InsertByPermutes(s[..|s| - 1], x, key);
      assert s == s[..|s| - 1] + [s[|s| - 1]];
    }
  }

  /** The sort is a permutation. */
  lemma {:induction false} SortByPermutes<T>(s: seq<T>, key: T -> int)
    ensures multiset(SortBy(s, key)) == multiset(s)
  {
    if s != [] {
      SortByPermutes(s[..|s| - 1], key);
      InsertByPermutes(SortBy(s[..|s| - 1], key), s[|s| - 1], key);
      assert s == s[..|s| - 1] + [s[|s| - 1]];
    }
  }

  lemma {:induction false} InsertBySorted<T>(s: seq<T>, x: T, key: T -> int)
    requires SortedBy(s, key)
    ensures SortedBy(InsertBy(s, x, key), key)
  {
    if s != [] && key(s[|s| - 1]) > key(x) {
      var init, last := s[..|s| - 1], s[|s| - 1];
      InsertBySorted(init, x, key);
      var r := InsertBy(init, x, key);
      InsertByPermutes(init, x, key);
      forall y | y in r ensures key(y) <= key(last) {
        assert y in multiset(r);
        if y != x {
          var i :| 0 <= i < |init| && init[i] == y;
          assert s[i] == y;
        }
      }
      forall i, j | 0 <= i < j < |r + [last]| ensures key((r + [last])[i]) <= key((r + [last])[j]) {
        if j == |r| {
          assert (r + [last])[i] == r[i];
          assert r[i] in r;
        } else {
          assert (r + [last])[i] == r[i] && (r + [last])[j] == r[j];
        }
      }
    }
  }

  /** The sort yields an ascending sequence. */
  lemma {:induction false} SortBySorted<T>(s: seq<T>, key: T -> int)
    ensures SortedBy(SortBy(s, key), key)
  {
    if s != [] {
      SortBySorted(s[..|s| - 1], key);
      InsertBySorted(SortBy(s[..|s| - 1], key), s[|s| - 1], key);
    }
  }

  lemma {:induction false} WithKeyAppend<T>(a: seq<T>, b: seq<T>, key: T -> int, k: int)
    ensures WithKey(a + b, key, k) == WithKey(a, key, k) + WithKey(b, key, k)
  {
    if b == [] {
      assert a + b == a;
    } else {
      var init, last := b[..|b| - 1], b[|b| - 1];
      assert (a + b)[..|a + b| - 1] == a + init;
      WithKeyAppend(a, init, key, k);
    }
  }

  lemma WithKeySingle<T>(x: T, key: T -> int, k: int)
    ensures WithKey([x], key, k) == if key(x) == k then [x] else []
  {
    assert [x][..0] == [];
  }

  lemma {:induction false} InsertByStable<T>(s: seq<T>, x: T, key: T -> int, k: int)
    ensures WithKey(InsertBy(s, x, key), key, k) == WithKey(s, key, k) + WithKey([x], key, k)
  {
    WithKeySingle(x, key, k);
    if s == [] || key(s[|s| - 1]) <= key(x) {
      assert (s + [x])[..|s|] == s;
    } else {
      var init, last := s[..|s| - 1], s[|s| - 1];
      var r := InsertBy(init, x, key);
      InsertByStable(init, x, key, k);
      WithKeyAppend(r, [last], key, k);
      WithKeySingle(last, key, k);
      var wx, wl := WithKey([x], key, k), WithKey([last], key, k);
      assert wx == [] || wl == [];
      assert WithKey(s, key, k) == WithKey(init, key, k) + wl;
      assert WithKey(r + [last], key, k) == WithKey(init, key, k) + wx + wl;
    }
  }

  /** Sorting keeps the relative order of the elements of each key: the sort is stable. */
  lemma {:induction false} SortByStable<T>(s: seq<T>, key: T -> int, k: int)
    ensures WithKey(SortBy(s, key), key, k) == WithKey(s, key, k)
  {
    if s != [] {
      var init, last := s[..|s| - 1], s[|s| - 1];
      SortByStable(init, key, k);
      InsertByStable(SortBy(init, key), last, key, k);
      WithKeySingle(last, key, k);
    }
  }

  /** An ascending sequence is left as it is. */
  lemma {:induction false} SortBySortedIdentity<T>(s: seq<T>, key: T -> int)
    requires SortedBy(s, key)
    ensures SortBy(s, key) == s
  {
    if s != [] {
      var init := s[..|s| - 1];
      assert SortedBy(init, key) by {
        forall i, j | 0 <= i < j < |init| ensures key(init[i]) <= key(init[j]) {
          assert init[i] == s[i] && init[j] == s[j];
        }
      }
      SortBySortedIdentity(init, key);
      if |init| > 0 {
        assert key(init[|init| - 1]) <= key(s[|s| - 1]);
      }
      assert init + [s[|s| - 1]] == s;
    }
  }

  lemma SortedTail<T>(s: seq<T>, key: T -> int)
    requires SortedBy(s, key) && s != []
    ensures SortedBy(s[1..], key)
    ensures forall y :: y in s[1..] ==> key(s[0]) <= key(y)
  {
    assert forall i :: 0 <= i < |s| - 1 ==> s[1..][i] == s[i + 1];
  }

  lemma SortedCons<T>(x: T, w: seq<T>, key: T -> int)
    requires SortedBy(w, key)
    requires forall y :: y in w ==> key(x) <= key(y)
    ensures SortedBy([x] + w, key)
  {
    forall i, j | 0 <= i < j < |[x] + w| ensures key(([x] + w)[i]) <= key(([x] + w)[j]) {
      assert ([x] + w)[j] == w[j - 1];
      if i > 0 {
        assert ([x] + w)[i] == w[i - 1];
      } else {
        assert w[j - 1] in w;
      }
    }
  }
}
