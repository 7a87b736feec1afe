/** Ordering of date keys. The charts sort their rows with
    `a.date.localeCompare(b.date)`; for the `YYYY-MM-DD` keys they carry this
    is the code-unit lexicographic order defined here, under which the
    chronological order of calendar days and the string order coincide. */
module Ordering {
  import opened Grouping

  /** `a` sorts strictly before `b`: `a` is a proper prefix of `b`, or at the
      first position where they differ `a` has the smaller character. */
  predicate Before(a: string, b: string)
    decreases |a|
  {
    |b| > 0 && (|a| == 0 || a[0] < b[0] || (a[0] == b[0] && Before(a[1..], b[1..])))
  }

  lemma {:induction false} BeforeIrreflexive(a: string)
    ensures !Before(a, a)
  {
    if |a| > 0 {
      BeforeIrreflexive(a[1..]);
    }
  }

  lemma {:induction false} BeforeTransitive(a: string, b: string, c: string)
    requires Before(a, b) && Before(b, c)
    ensures Before(a, c)
  {
    if |a| > 0 && a[0] == b[0] && b[0] == c[0] {
      BeforeTransitive(a[1..], b[1..], c[1..]);
    }
  }

  /** Any two different strings are ordered one way or the other. */
  lemma {:induction false} BeforeTotal(a: string, b: string)
    requires a != b
    ensures Before(a, b) || Before(b, a)
  {
    if |a| > 0 && |b| > 0 && a[0] == b[0] {
      assert a == [a[0]] + a[1..] && b == [b[0]] + b[1..];
      BeforeTotal(a[1..], b[1..]);
    }
  }

  lemma {:induction false} BeforeAsymmetric(a: string, b: string)
    requires Before(a, b)
    ensures !Before(b, a)
  {
    if |a| > 0 && a[0] == b[0] {
      BeforeAsymmetric(a[1..], b[1..]);
    }
  }

  /** Strictly ascending by key (so the keys are also distinct). */
  predicate Ascending<T>(xs: seq<T>, key: T -> string)
  {
    forall i, j :: 0 <= i < j < |xs| ==> Before(key(xs[i]), key(xs[j]))
  }

  /** Where an element with key `k` goes in an ascending sequence: after
      every element whose key sorts before `k`. */
  function InsertPlace<T>(k: string, xs: seq<T>, key: T -> string): (p: nat)
    ensures p <= |xs|
    ensures forall q :: 0 <= q < p ==> Before(key(xs[q]), k)
    ensures p < |xs| ==> !Before(key(xs[p]), k)
  {
    if |xs| == 0 || !Before(key(xs[0]), k) then 0
    else 1 + InsertPlace(k, xs[1..], key)
  }

  function InsertByKey<T(==)>(x: T, xs: seq<T>, key: T -> string): (r: seq<T>)
    requires Ascending(xs, key)
    requires forall i :: 0 <= i < |xs| ==> key(xs[i]) != key(x)
    ensures Ascending(r, key)
    ensures multiset(r) == multiset(xs) + multiset{x}
    ensures |r| == |xs| + 1
  {
    var p := InsertPlace(key(x), xs, key);
    assert xs == xs[..p] + xs[p..];
    InsertPlaceAscending(x, xs, key, p);
    xs[..p] + [x] + xs[p..]
  }

  lemma InsertPlaceAscending<T>(x: T, xs: seq<T>, key: T -> string, p: nat)
    requires Ascending(xs, key)
    requires forall i :: 0 <= i < |xs| ==> key(xs[i]) != key(x)
    requires p == InsertPlace(key(x), xs, key)
    ensures Ascending(xs[..p] + [x] + xs[p..], key)
  {
    var lo := xs[..p];
    var top := [x] + xs[p..];
    assert Ascending(lo + top, key) by {
      InsertPlaceSplit(x, xs, key, p);
      AscendingConcat(lo, top, key);
    }
    assert xs[..p] + [x] + xs[p..] == lo + top;
  }

  lemma InsertPlaceSplit<T>(x: T, xs: seq<T>, key: T -> string, p: nat)
    requires Ascending(xs, key)
    requires forall i :: 0 <= i < |xs| ==> key(xs[i]) != key(x)
    requires p == InsertPlace(key(x), xs, key)
    ensures Ascending(xs[..p], key) && Ascending([x] + xs[p..], key)
    ensures forall i, j :: 0 <= i < p && 0 <= j < |xs| - p + 1 ==> Before(key(xs[..p][i]), key(([x] + xs[p..])[j]))
  {
    SliceAscending(xs, key, 0, p);
    assert xs[0..p] == xs[..p];
    TopAscending(x, xs, key, p);
    CrossBefore(x, xs, key, p);
  }

  lemma SliceAscending<T>(xs: seq<T>, key: T -> string, lo: nat, hi: nat)
    requires Ascending(xs, key) && lo <= hi <= |xs|
    ensures Ascending(xs[lo..hi], key)
  {
    assert forall i :: 0 <= i < hi - lo ==> xs[lo..hi][i] == xs[lo + i];
  }

  lemma TopAscending<T>(x: T, xs: seq<T>, key: T -> string, p: nat)
    requires Ascending(xs, key)
    requires forall i :: 0 <= i < |xs| ==> key(xs[i]) != key(x)
    requires p == InsertPlace(key(x), xs, key)
    ensures Ascending([x] + xs[p..], key)
  {
    var hi := xs[p..];
    assert forall q :: 0 <= q < |hi| ==> Before(key(x), key(hi[q])) by {
      HiAfterPlace(x, xs, key, p);
      assert forall q :: 0 <= q < |hi| ==> hi[q] == xs[p + q];
    }
    SliceAscending(xs, key, p, |xs|);
    assert xs[p..|xs|] == hi;
    AscendingConcat([x], hi, key);
  }

  lemma CrossBefore<T>(x: T, xs: seq<T>, key: T -> string, p: nat)
    requires Ascending(xs, key)
    requires forall i :: 0 <= i < |xs| ==> key(xs[i]) != key(x)
    requires p == InsertPlace(key(x), xs, key)
    ensures forall i, j :: 0 <= i < p && 0 <= j < |xs| - p + 1 ==> Before(key(xs[..p][i]), key(([x] + xs[p..])[j]))
  {
    var lo := xs[..p];
    var top := [x] + xs[p..];
    HiAfterPlace(x, xs, key, p);
    forall i, j | 0 <= i < |lo| && 0 <= j < |top| ensures Before(key(lo[i]), key(top[j])) {
      assert lo[i] == xs[i];
      if j > 0 {
        assert top[j] == xs[p + j - 1];
        BeforeTransitive(key(lo[i]), key(x), key(top[j]));
      }
    }
  }

  lemma HiAfterPlace<T>(x: T, xs: seq<T>, key: T -> string, p: nat)
    requires Ascending(xs, key)
    requires forall i :: 0 <= i < |xs| ==> key(xs[i]) != key(x)
    requires p == InsertPlace(key(x), xs, key)
    ensures forall q :: p <= q < |xs| ==> Before(key(x), key(xs[q]))
  {
    forall q | p <= q < |xs| ensures Before(key(x), key(xs[q])) {
      BeforeTotal(key(x), key(xs[p]));
      if q > p {
        BeforeTransitive(key(x), key(xs[p]), key(xs[q]));
      }
    }
  }

  /** Two ascending runs, the first wholly before the second, make an ascending run. */
  lemma AscendingConcat<T>(a: seq<T>, b: seq<T>, key: T -> string)
    requires Ascending(a, key) && Ascending(b, key)
    requires forall i, j :: 0 <= i < |a| && 0 <= j < |b| ==> Before(key(a[i]), key(b[j]))
    ensures Ascending(a + b, key)
  {
    var c := a + b;
    forall i, j | 0 <= i < j < |c| ensures Before(key(c[i]), key(c[j])) {
      if j < |a| {
        assert c[i] == a[i] && c[j] == a[j];
      } else if i >= |a| {
        assert c[i] == b[i - |a|] && c[j] == b[j - |a|];
      } else {
        assert c[i] == a[i] && c[j] == b[j - |a|];
      }
    }
  }

  /** Sorts by key, ascending; the keys must be distinct, as the chart rows'
      dates are. */
  function SortByKey<T(==)>(xs: seq<T>, key: T -> string): (r: seq<T>)
    requires NoDuplicates(Project(xs, key))
    ensures Ascending(r, key)
    ensures multiset(r) == multiset(xs)
    ensures |r| == |xs|
  {
    if |xs| == 0 then []
    else
      var tail := xs[1..];
      assert NoDuplicates(Project(tail, key)) by {
        assert forall q :: 0 <= q < |tail| ==> Project(tail, key)[q] == Project(xs, key)[q + 1];
      }
      var sorted := SortByKey(tail, key);
      FreshKeyAfterSort(xs, sorted, key);
      assert xs == [xs[0]] + tail;
      InsertByKey(xs[0], sorted, key)
  }

  lemma FreshKeyAfterSort<T>(xs: seq<T>, sorted: seq<T>, key: T -> string)
    requires |xs| > 0 && NoDuplicates(Project(xs, key))
    requires multiset(sorted) == multiset(xs[1..])
    ensures forall i :: 0 <= i < |sorted| ==> key(sorted[i]) != key(xs[0])
  {
    var tail := xs[1..];
    forall i | 0 <= i < |sorted| ensures key(sorted[i]) != key(xs[0]) {
      assert sorted[i] in multiset(tail);
      var q :| 0 <= q < |tail| && tail[q] == sorted[i];
      assert Project(xs, key)[q + 1] == key(sorted[i]);
    }
  }
}
