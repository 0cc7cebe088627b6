/** `Array.prototype.filter` and `map` over sequences, and the indices a
    filter keeps. */
module Seqs {

  function Filter<T>(s: seq<T>, p: T -> bool): (r: seq<T>)
    ensures |r| <= |s|
    ensures forall i :: 0 <= i < |r| ==> p(r[i]) && r[i] in s
  {
    if |s| == 0 then []
    else if p(s[0]) then [s[0]] + Filter(s[1..], p)
    else Filter(s[1..], p)
  }

  function Map<T, U>(s: seq<T>, f: T -> U): (r: seq<U>)
    ensures |r| == |s|
    ensures forall i :: 0 <= i < |s| ==> r[i] == f(s[i])
  {
    seq(|s|, i requires 0 <= i < |s| => f(s[i]))
  }

  /** The positions from `start` on of the elements satisfying `p`, ascending. */
  function IndicesFrom<T>(s: seq<T>, p: T -> bool, start: nat): (idx: seq<nat>)
    requires start <= |s|
    ensures forall k :: 0 <= k < |idx| ==> start <= idx[k] < |s| && p(s[idx[k]])
    ensures forall k, l :: 0 <= k < l < |idx| ==> idx[k] < idx[l]
    ensures forall i :: start <= i < |s| && p(s[i]) ==> i in idx
    decreases |s| - start
  {
    if start == |s| then []
    else
      var rest := IndicesFrom(s, p, start + 1);
      if p(s[start]) then [start] + rest else rest
  }

  /** The positions of the elements satisfying `p`, ascending. */
  function IndicesWhere<T>(s: seq<T>, p: T -> bool): (idx: seq<nat>)
    ensures forall k :: 0 <= k < |idx| ==> idx[k] < |s| && p(s[idx[k]])
    ensures forall k, l :: 0 <= k < l < |idx| ==> idx[k] < idx[l]
    ensures forall i :: 0 <= i < |s| && p(s[i]) ==> i in idx
  {
    IndicesFrom(s, p, 0)
  }

  /** `f` applied to the elements of `s` at the positions `idx`. */
  function Pick<T, U>(s: seq<T>, idx: seq<nat>, f: T -> U): (r: seq<U>)
    requires forall k :: 0 <= k < |idx| ==> idx[k] < |s|
    ensures |r| == |idx|
  {
    seq(|idx|, k requires 0 <= k < |idx| => f(s[idx[k]]))
  }

  lemma FilterCons<T>(x: T, rest: seq<T>, p: T -> bool)
    ensures Filter([x] + rest, p) == (if p(x) then [x] else []) + Filter(rest, p)
  {
    assert ([x] + rest)[1..] == rest;
  }

  lemma MapCons<T, U>(x: T, rest: seq<T>, f: T -> U)
    ensures Map([x] + rest, f) == [f(x)] + Map(rest, f)
  {
  }

  lemma PickCons<T, U>(s: seq<T>, i: nat, idx: seq<nat>, f: T -> U)
    requires i < |s|
    requires forall k :: 0 <= k < |idx| ==> idx[k] < |s|
    ensures Pick(s, [i] + idx, f) == [f(s[i])] + Pick(s, idx, f)
  {
  }

  lemma {:induction false} FilterMapFilterFrom<T, U>(s: seq<T>, start: nat, p: T -> bool, f: T -> U, q: U -> bool, both: T -> bool)
    requires start <= |s|
    requires forall x :: both(x) == (p(x) && q(f(x)))
    ensures Filter(Map(Filter(s[start..], p), f), q) == Pick(s, IndicesFrom(s, both, start), f)
    decreases |s| - start
  {
    if start < |s| {
      FilterMapFilterFrom(s, start + 1, p, f, q, both);
      var x := s[start];
      var rest := Filter(s[start + 1..], p);
      var idx := IndicesFrom(s, both, start + 1);
      assert s[start..] == [x] + s[start + 1..];
      FilterCons(x, s[start + 1..], p);
      if p(x) {
        MapCons(x, rest, f);
        FilterCons(f(x), Map(rest, f), q);
        if q(f(x)) {
          PickCons(s, start, idx, f);
        }
      }
    }
  }

  /** Filtering, mapping and filtering again keeps the images of exactly the
      elements that pass both tests, in order. */
  lemma FilterMapFilter<T, U>(s: seq<T>, p: T -> bool, f: T -> U, q: U -> bool, both: T -> bool)
    requires forall x :: both(x) == (p(x) && q(f(x)))
    ensures Filter(Map(Filter(s, p), f), q) == Pick(s, IndicesWhere(s, both), f)
  {
    assert s[0..] == s;
    FilterMapFilterFrom(s, 0, p, f, q, both);
  }

  function Id<T>(x: T): T { x }

  /** A filter keeps exactly the elements at the ascending positions that
      pass the test: order is kept and nothing is repeated. */
  lemma FilterIsPick<T>(s: seq<T>, p: T -> bool)
    ensures Filter(s, p) == Pick(s, IndicesWhere(s, p), Id)
  {
    var always := (x: T) => true;
    FilterMapFilter(s, p, Id, always, p);
    var kept := Filter(s, p);
    assert Map(kept, Id) == kept;
    FilterKeepsAll(kept, always);
  }

  /** A relation that holds between every earlier and later element still
      holds after filtering. */
  lemma FilterKeepsPairwise<T>(s: seq<T>, p: T -> bool, related: (T, T) -> bool)
    requires forall i, j :: 0 <= i < j < |s| ==> related(s[i], s[j])
    ensures var r := Filter(s, p);
            forall i, j :: 0 <= i < j < |r| ==> related(r[i], r[j])
  {
    FilterIsPick(s, p);
    var idx := IndicesWhere(s, p);
    var r := Filter(s, p);
    assert r == Pick(s, idx, Id);
    forall i, j | 0 <= i < j < |r| ensures related(r[i], r[j]) {
      assert r[i] == Id(s[idx[i]]) && r[j] == Id(s[idx[j]]);
    }
  }

  lemma SliceOfSlice<T>(s: seq<T>, a: nat, b: nat, i: nat, j: nat)
    requires a <= b <= |s| && i <= j <= b - a
    ensures s[a..b][i..j] == s[a + i..a + j]
  {
    forall k | 0 <= k < j - i
      ensures s[a..b][i..j][k] == s[a + i..a + j][k]
    {
      assert s[a..b][i..j][k] == s[a..b][i + k];
    }
  }

  /** A filter every element passes is the identity. */
  lemma {:induction false} FilterKeepsAll<T>(s: seq<T>, p: T -> bool)
    requires forall i :: 0 <= i < |s| ==> p(s[i])
    ensures Filter(s, p) == s
  {
    if |s| > 0 {
      FilterKeepsAll(s[1..], p);
    }
  }

  /** A filter no element passes is empty. */
  lemma {:induction false} FilterDropsAll<T>(s: seq<T>, p: T -> bool)
    requires forall i :: 0 <= i < |s| ==> !p(s[i])
    ensures Filter(s, p) == []
  {
    if |s| > 0 {
      FilterDropsAll(s[1..], p);
    }
  }

  /** An element survives the filter exactly when it is in the sequence and
      passes the test. */
  lemma {:induction false} FilterMembers<T>(s: seq<T>, p: T -> bool, x: T)
    ensures x in Filter(s, p) <==> x in s && p(x)
  {
    if |s| > 0 {
      FilterMembers(s[1..], p, x);
      assert s == [s[0]] + s[1..];
    }
  }

  /** Filtering distributes over concatenation: order is kept. */
  lemma {:induction false} FilterAppend<T>(a: seq<T>, b: seq<T>, p: T -> bool)
    ensures Filter(a + b, p) == Filter(a, p) + Filter(b, p)
  {
    if |a| > 0 {
      assert (a + b)[1..] == a[1..] + b;
      FilterAppend(a[1..], b, p);
    } else {
      assert a + b == b;
    }
  }
}
