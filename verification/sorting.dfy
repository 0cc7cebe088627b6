/** Stable sorting by an integer key, highest key first. */
module Sorting {
  import Seqs

  /** Keys never increase along `s`. */
  predicate Descending<T>(s: seq<T>, key: T -> int) {
    forall i, j :: 0 <= i < j < |s| ==> key(s[i]) >= key(s[j])
  }

  /** Places `x` in front of the first element whose key is not above its
      own, so that it precedes the elements of equal key. */
  function Insert<T>(x: T, s: seq<T>, key: T -> int): (r: seq<T>)
    ensures |r| == |s| + 1
  {
    if |s| == 0 || key(x) >= key(s[0]) then [x] + s
    else [s[0]] + Insert(x, s[1..], key)
  }

  /** Insertion sort, placing each element before the later ones of equal
      key: a comparator `(a, b) => key(b) - key(a)` under a stable sort. */
  function Sort<T>(s: seq<T>, key: T -> int): (r: seq<T>)
    ensures |r| == |s|
  {
    if |s| == 0 then [] else Insert(s[0], Sort(s[1..], key), key)
  }

  lemma {:induction false} InsertPermutes<T>(x: T, s: seq<T>, key: T -> int)
    ensures multiset(Insert(x, s, key)) == multiset(s) + multiset{x}
  {
    if |s| > 0 && key(x) < key(s[0]) {
      InsertPermutes(x, s[1..], key);
      assert s == [s[0]] + s[1..];
    }
  }

  /** Every element of `Insert(x, s)` is `x` or an element of `s`. */
  lemma InsertDrawsFrom<T>(x: T, s: seq<T>, key: T -> int, y: T)
    requires y in Insert(x, s, key)
    ensures y == x || y in s
  {
    InsertPermutes(x, s, key);
    assert y in multiset(Insert(x, s, key));
  }

  lemma {:induction false} InsertDescending<T>(x: T, s: seq<T>, key: T -> int)
    requires Descending(s, key)
    ensures Descending(Insert(x, s, key), key)
  {
    if |s| > 0 && key(x) < key(s[0]) {
      var t := Insert(x, s[1..], key);
      InsertDescending(x, s[1..], key);
      var r := [s[0]] + t;
      assert Insert(x, s, key) == r;
      forall i, j | 0 <= i < j < |r|
        ensures key(r[i]) >= key(r[j])
      {
        if i > 0 {
          assert r[i] == t[i - 1] && r[j] == t[j - 1];
        } else {
          assert r[j] == t[j - 1];
          InsertDrawsFrom(x, s[1..], key, t[j - 1]);
          if t[j - 1] != x {
            var m :| 0 <= m < |s[1..]| && s[1..][m] == t[j - 1];
            assert s[m + 1] == t[j - 1];
          }
        }
      }
    }
  }

  /** The sorted copy has keys in non-increasing order and holds the same
      elements, each as often as before. */
  lemma {:induction false} SortDescending<T>(s: seq<T>, key: T -> int)
    ensures Descending(Sort(s, key), key)
    ensures multiset(Sort(s, key)) == multiset(s)
  {
    if |s| > 0 {
      SortDescending(s[1..], key);
      InsertDescending(s[0], Sort(s[1..], key), key);
      InsertPermutes(s[0], Sort(s[1..], key), key);
      assert s == [s[0]] + s[1..];
    }
  }

  /** The test "has key `k`". */
  function KeyIs<T>(key: T -> int, k: int): T -> bool {
    (y: T) => key(y) == k
  }

  /** Inserting `x` adds it in front of the elements of its own key and
      leaves the order of every key's elements as it was. */
  lemma {:induction false} InsertStable<T>(x: T, s: seq<T>, key: T -> int, k: int)
    ensures Seqs.Filter(Insert(x, s, key), KeyIs(key, k)) == (if key(x) == k then [x] else []) + Seqs.Filter(s, KeyIs(key, k))
  {
    var p := KeyIs(key, k);
    if |s| == 0 || key(x) >= key(s[0]) {
      Seqs.FilterCons(x, s, p);
    } else {
      InsertStable(x, s[1..], key, k);
      assert s == [s[0]] + s[1..];
      Seqs.FilterCons(s[0], Insert(x, s[1..], key), p);
      Seqs.FilterCons(s[0], s[1..], p);
    }
  }

  /** The sort is stable: the elements of any one key keep their input order. */
  lemma {:induction false} SortStable<T>(s: seq<T>, key: T -> int, k: int)
    ensures Seqs.Filter(Sort(s, key), KeyIs(key, k)) == Seqs.Filter(s, KeyIs(key, k))
  {
    if |s| > 0 {
      var rest := Sort(s[1..], key);
      assert Sort(s, key) == Insert(s[0], rest, key);
      SortStable(s[1..], key, k);
      InsertStable(s[0], rest, key, k);
      assert s == [s[0]] + s[1..];
      Seqs.FilterCons(s[0], s[1..], KeyIs(key, k));
    }
  }

  /** The first `n` elements of the sorted copy (all of them when there are
      fewer) are in non-increasing key order, are drawn from `s`, and no
      element left out has a higher key than an element kept. */
  lemma TopOf<T>(s: seq<T>, key: T -> int, n: nat)
    ensures var top := Sort(s, key)[..if n <= |s| then n else |s|];
            && |top| == (if n <= |s| then n else |s|)
            && Descending(top, key)
            && multiset(top) <= multiset(s)
            && forall a, b :: a in top && b in multiset(s) - multiset(top) ==> key(b) <= key(a)
  {
    SortDescending(s, key);
    var sorted := Sort(s, key);
    var m := if n <= |s| then n else |s|;
    var top := sorted[..m];
    assert sorted == top + sorted[m..];
    assert multiset(sorted) == multiset(top) + multiset(sorted[m..]);
    DescendingSplit(sorted, key, m);
  }

  /** In a descending sequence nothing after position `m` outranks anything
      before it. */
  lemma DescendingSplit<T>(sorted: seq<T>, key: T -> int, m: nat)
    requires Descending(sorted, key) && m <= |sorted|
    ensures Descending(sorted[..m], key)
    ensures forall a, b :: a in sorted[..m] && b in multiset(sorted[m..]) ==> key(b) <= key(a)
  {
    forall a, b | a in sorted[..m] && b in multiset(sorted[m..])
      ensures key(b) <= key(a)
    {
      var i :| 0 <= i < m && sorted[..m][i] == a;
      assert b in sorted[m..];
      var j :| 0 <= j < |sorted[m..]| && sorted[m..][j] == b;
      assert sorted[i] == a && sorted[m + j] == b;
    }
  }
}
