/** A stable sort by an integer key: the behaviour of
    `Array.prototype.sort` with a comparator `(a, b) => key(a) - key(b)`,
    which is stable since ES2019. Each element is placed before the first
    element whose key is no smaller than its own. */
module StableSort {
  import opened Seqs

  predicate SortedBy<T>(xs: seq<T>, key: T -> int) {
    forall i, j :: 0 <= i < j < |xs| ==> key(xs[i]) <= key(xs[j])
  }

  function Insert<T>(x: T, ys: seq<T>, key: T -> int): (r: seq<T>)
    ensures multiset(r) == multiset(ys) + multiset{x}
  {
    if ys == [] || key(x) <= key(ys[0]) then [x] + ys
    else
      assert ys == [ys[0]] + ys[1..];
      [ys[0]] + Insert(x, ys[1..], key)
  }

  function SortBy<T>(xs: seq<T>, key: T -> int): (r: seq<T>)
    ensures multiset(r) == multiset(xs)
    ensures |r| == |xs|
  {
    if xs == [] then []
    else
      assert xs == [xs[0]] + xs[1..];
      Insert(xs[0], SortBy(xs[1..], key), key)
  }

  lemma {:induction false} InsertSorted<T>(x: T, ys: seq<T>, key: T -> int)
    requires SortedBy(ys, key)
    ensures SortedBy(Insert(x, ys, key), key)
  {
    if ys == [] || key(x) <= key(ys[0]) {
      var r := [x] + ys;
      forall i, j | 0 <= i < j < |r|
        ensures key(r[i]) <= key(r[j])
      {
        if i > 0 {
          assert r[i] == ys[i - 1] && r[j] == ys[j - 1];
        } else if j > 1 {
          assert key(ys[0]) <= key(ys[j - 1]);
        }
      }
    } else {
      var rest := Insert(x, ys[1..], key);
      InsertSorted(x, ys[1..], key);
      var r := [ys[0]] + rest;
      forall i, j | 0 <= i < j < |r|
        ensures key(r[i]) <= key(r[j])
      {
        if i > 0 {
          assert r[i] == rest[i - 1] && r[j] == rest[j - 1];
        } else {
          var z := rest[j - 1];
          assert z in multiset(rest);
          if z != x {
            var k :| 0 <= k < |ys[1..]| && ys[1..][k] == z;
            assert ys[k + 1] == z;
          }
        }
      }
    }
  }

  /** The output of the sort is ordered by key. */
  lemma {:induction false} SortSorted<T>(xs: seq<T>, key: T -> int)
    ensures SortedBy(SortBy(xs, key), key)
  {
    if xs != [] {
      SortSorted(xs[1..], key);
      InsertSorted(xs[0], SortBy(xs[1..], key), key);
    }
  }

  /** The elements whose key is `k`. */
  function KeyIs<T>(key: T -> int, k: int): T -> bool {
    x => key(x) == k
  }

  lemma FilterSingle<T(!new)>(z: T, p: T -> bool)
    ensures Filter([z], p) == if p(z) then [z] else []
  {
    assert [z][1..] == [];
  }

  lemma {:induction false} InsertStable<T(!new)>(x: T, ys: seq<T>, key: T -> int, k: int)
    ensures Filter(Insert(x, ys, key), KeyIs(key, k)) == Filter([x] + ys, KeyIs(key, k))
  {
    if ys == [] || key(x) <= key(ys[0]) {
    } else {
      var p := KeyIs(key, k);
      var y, rest := ys[0], ys[1..];
      assert ys == [y] + rest;
      assert Insert(x, ys, key) == [y] + Insert(x, rest, key);
      // x and y have different keys, so at most one of them is kept
      assert !(p(x) && p(y));
      FilterSingle(x, p);
      FilterSingle(y, p);
      var fx, fy, fr := Filter([x], p), Filter([y], p), Filter(rest, p);
      FilterAppend([y], Insert(x, rest, key), p);
      InsertStable(x, rest, key, k);
      FilterAppend([x], rest, p);
      FilterAppend([y], rest, p);
      FilterAppend([x], ys, p);
      assert Filter(Insert(x, ys, key), p) == fy + (fx + fr);
      assert Filter([x] + ys, p) == fx + (fy + fr);
      if fx == [] {
        assert fx + fr == fr;
        assert fx + (fy + fr) == fy + fr;
      } else {
        assert fy == [];
        assert fy + fr == fr;
        assert fy + (fx + fr) == fx + fr;
      }
    }
  }

  /** Stability: the elements with any given key appear in the output
      exactly as they appear in the input. */
  lemma {:induction false} SortStable<T(!new)>(xs: seq<T>, key: T -> int, k: int)
    ensures Filter(SortBy(xs, key), KeyIs(key, k)) == Filter(xs, KeyIs(key, k))
  {
    if xs != [] {
      var p := KeyIs(key, k);
      var sortedRest := SortBy(xs[1..], key);
      assert xs == [xs[0]] + xs[1..];
      calc {
        Filter(SortBy(xs, key), p);
        Filter(Insert(xs[0], sortedRest, key), p);
        { InsertStable(xs[0], sortedRest, key, k); }
        Filter([xs[0]] + sortedRest, p);
        { FilterAppend([xs[0]], sortedRest, p); }
        Filter([xs[0]], p) + Filter(sortedRest, p);
        { SortStable(xs[1..], key, k); }
        Filter([xs[0]], p) + Filter(xs[1..], p);
        { FilterAppend([xs[0]], xs[1..], p); }
        Filter(xs, p);
      }
    }
  }

  /** An already ordered sequence is left as it is. */
  lemma {:induction false} SortKeepsSorted<T>(xs: seq<T>, key: T -> int)
    requires SortedBy(xs, key)
    ensures SortBy(xs, key) == xs
  {
    if xs != [] {
      assert SortedBy(xs[1..], key) by {
        forall i, j | 0 <= i < j < |xs[1..]|
          ensures key(xs[1..][i]) <= key(xs[1..][j])
        {
          assert xs[1..][i] == xs[i + 1] && xs[1..][j] == xs[j + 1];
        }
      }
      SortKeepsSorted(xs[1..], key);
      assert xs == [xs[0]] + xs[1..];
    }
  }

  /** Pointwise related inputs whose related elements share keys sort into
      pointwise related outputs: the sort reads nothing but the key. */
  predicate Related<T>(xs: seq<T>, ys: seq<T>, rel: (T, T) -> bool, key: T -> int) {
    |xs| == |ys| && forall i :: 0 <= i < |xs| ==> rel(xs[i], ys[i]) && key(xs[i]) == key(ys[i])
  }

  lemma {:induction false} InsertRelated<T>(x: T, ys: seq<T>, x': T, ys': seq<T>, rel: (T, T) -> bool, key: T -> int)
    requires rel(x, x') && key(x) == key(x') && Related(ys, ys', rel, key)
    ensures Related(Insert(x, ys, key), Insert(x', ys', key), rel, key)
  {
    if ys == [] || key(x) <= key(ys[0]) {
    } else {
      assert Related(ys[1..], ys'[1..], rel, key);
      InsertRelated(x, ys[1..], x', ys'[1..], rel, key);
    }
  }

  lemma {:induction false} SortRelated<T>(xs: seq<T>, ys: seq<T>, rel: (T, T) -> bool, key: T -> int)
    requires Related(xs, ys, rel, key)
    ensures Related(SortBy(xs, key), SortBy(ys, key), rel, key)
  {
    if xs != [] {
      assert Related(xs[1..], ys[1..], rel, key);
      SortRelated(xs[1..], ys[1..], rel, key);
      InsertRelated(xs[0], SortBy(xs[1..], key), ys[0], SortBy(ys[1..], key), rel, key);
    }
  }

  lemma SortedTwo<T>(x: T, y: T, key: T -> int)
    requires key(x) <= key(y)
    ensures SortedBy([x, y], key)
  {
  }

  lemma SortedThree<T>(x: T, y: T, z: T, key: T -> int)
    requires key(x) <= key(y) <= key(z)
    ensures SortedBy([x, y, z], key)
  {
  }
}
