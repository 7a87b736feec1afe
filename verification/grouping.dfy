/** Generic group-by machinery shared by every aggregate view: filtering by a
    key, summing a real-valued field, the distinct keys of a sequence in
    first-occurrence order (what `Array.from(new Set(xs))` yields), and the
    conservation law that summing per-group totals over all keys gives the
    grand total. */
module Grouping {

  /** The elements of `xs` whose key is `k`, in their original order. */
  function Where<T, K(==)>(xs: seq<T>, key: T -> K, k: K): (ys: seq<T>)
    ensures |ys| <= |xs|
    ensures forall y :: y in ys ==> y in xs && key(y) == k
    ensures forall i :: 0 <= i < |xs| && key(xs[i]) == k ==> xs[i] in ys
  {
    if |xs| == 0 then []
    else if key(xs[0]) == k then [xs[0]] + Where(xs[1..], key, k)
    else Where(xs[1..], key, k)
  }

  /** The key of every element, position by position. */
  function Project<T, K>(xs: seq<T>, key: T -> K): (ks: seq<K>)
    ensures |ks| == |xs|
    ensures forall i :: 0 <= i < |xs| ==> ks[i] == key(xs[i])
  {
    seq(|xs|, i requires 0 <= i < |xs| => key(xs[i]))
  }

  /** Sum of a real-valued field over a sequence. */
  function Total<T>(xs: seq<T>, val: T -> real): real
  {
    if |xs| == 0 then 0.0 else val(xs[0]) + Total(xs[1..], val)
  }

  /** Sum, over the keys `ks`, of the total of each key's group. */
  function GroupTotals<T, K(==)>(xs: seq<T>, key: T -> K, ks: seq<K>, val: T -> real): real
  {
    if |ks| == 0 then 0.0
    else Total(Where(xs, key, ks[0]), val) + GroupTotals(xs, key, ks[1..], val)
  }

  predicate NoDuplicates<K(==)>(ks: seq<K>)
  {
    forall i, j :: 0 <= i < j < |ks| ==> ks[i] != ks[j]
  }

  /** Position of the first occurrence of `k` in `s`. */
  function FirstIndex<K(==)>(s: seq<K>, k: K): (n: nat)
    requires k in s
    ensures n < |s| && s[n] == k
    ensures k !in s[..n]
  {
    if s[0] == k then 0 else 1 + FirstIndex(s[1..], k)
  }

  lemma FirstIndexOfPrefix<K>(s: seq<K>, m: nat, k: K)
    requires m <= |s|
    requires k in s[..m]
    ensures FirstIndex(s[..m], k) == FirstIndex(s, k)
  {
    var a := FirstIndex(s[..m], k);
    var b := FirstIndex(s, k);
    assert s[a] == k;
    assert forall i :: 0 <= i < b ==> s[..b][i] == s[i];
    assert forall i :: 0 <= i < a ==> s[..m][..a][i] == s[i];
  }

  /** Each element of `s` once, in order of first occurrence; this is the
      sequence an insertion-ordered set built from `s` enumerates. */
  function Distinct<K(==)>(s: seq<K>): (r: seq<K>)
    ensures FirstOccurrences(s, r)
  {
    if |s| == 0 then []
    else
      var p := Distinct(s[..|s| - 1]);
      var last := s[|s| - 1];
      if last in p then
        DistinctStepSeen(s, p);
        p
      else
        DistinctStepNew(s, p);
        p + [last]
  }

  /** `r` lists every element of `s` exactly once, ordered by where each
      first occurs in `s`. */
  predicate FirstOccurrences<K(==)>(s: seq<K>, r: seq<K>)
  {
    && NoDuplicates(r)
    && (forall i :: 0 <= i < |r| ==> r[i] in s)
    && (forall i :: 0 <= i < |s| ==> s[i] in r)
    && (forall i, j :: 0 <= i < j < |r| ==> FirstIndex(s, r[i]) < FirstIndex(s, r[j]))
  }

  lemma DistinctStepSeen<K>(s: seq<K>, p: seq<K>)
    requires |s| > 0 && FirstOccurrences(s[..|s| - 1], p)
    requires s[|s| - 1] in p
    ensures FirstOccurrences(s, p)
  {
    var init := s[..|s| - 1];
    assert s == init + [s[|s| - 1]];
    forall i | 0 <= i < |p| ensures p[i] in s && FirstIndex(s, p[i]) == FirstIndex(init, p[i]) {
      assert p[i] in init;
      FirstIndexOfPrefix(s, |s| - 1, p[i]);
    }
  }

  lemma DistinctStepNew<K>(s: seq<K>, p: seq<K>)
    requires |s| > 0 && FirstOccurrences(s[..|s| - 1], p)
    requires s[|s| - 1] !in p
    ensures FirstOccurrences(s, p + [s[|s| - 1]])
  {
    var init := s[..|s| - 1];
    var last := s[|s| - 1];
    var r := p + [last];
    assert s == init + [last];
    forall i | 0 <= i < |p| ensures p[i] in s && FirstIndex(s, p[i]) == FirstIndex(init, p[i]) {
      assert p[i] in init;
      FirstIndexOfPrefix(s, |s| - 1, p[i]);
    }
    assert last !in init;
    assert FirstIndex(s, last) == |s| - 1 by {
      assert forall i :: 0 <= i < |init| ==> init[i] == s[i];
    }
    forall i, j | 0 <= i < j < |r| ensures FirstIndex(s, r[i]) < FirstIndex(s, r[j]) {
      if j == |p| {
        assert FirstIndex(init, p[i]) < |init|;
      } else {
        assert r[i] == p[i] && r[j] == p[j];
      }
    }
  }

  /** A sequence without duplicates has as many elements as its set. */
  lemma {:induction false} NoDuplicatesCardinality<K>(s: seq<K>)
    requires NoDuplicates(s)
    ensures |set k | k in s| == |s|
  {
    if |s| > 0 {
      var rest := s[1..];
      NoDuplicatesCardinality(rest);
      assert (set k | k in s) == (set k | k in rest) + {s[0]};
      assert s[0] !in rest by {
        assert forall j :: 0 <= j < |rest| ==> rest[j] == s[j + 1];
      }
    }
  }

  lemma {:induction false} TotalAppend<T>(a: seq<T>, b: seq<T>, val: T -> real)
    ensures Total(a + b, val) == Total(a, val) + Total(b, val)
  {
    if |a| > 0 {
      assert (a + b)[1..] == a[1..] + b;
      TotalAppend(a[1..], b, val);
    } else {
      assert a + b == b;
    }
  }

  lemma {:induction false} WhereAppend<T, K>(a: seq<T>, b: seq<T>, key: T -> K, k: K)
    ensures Where(a + b, key, k) == Where(a, key, k) + Where(b, key, k)
  {
    if |a| > 0 {
      assert (a + b)[1..] == a[1..] + b;
      WhereAppend(a[1..], b, key, k);
    } else {
      assert a + b == b;
    }
  }

  /** No element has key `k`: its group is empty. */
  lemma {:induction false} WhereNone<T, K>(xs: seq<T>, key: T -> K, k: K)
    requires forall i :: 0 <= i < |xs| ==> key(xs[i]) != k
    ensures Where(xs, key, k) == []
  {
    if |xs| > 0 {
      WhereNone(xs[1..], key, k);
    }
  }

  /** Every element has key `k`: its group is the whole sequence. */
  lemma {:induction false} WhereAll<T, K>(xs: seq<T>, key: T -> K, k: K)
    requires forall i :: 0 <= i < |xs| ==> key(xs[i]) == k
    ensures Where(xs, key, k) == xs
  {
    if |xs| > 0 {
      WhereAll(xs[1..], key, k);
      assert xs == [xs[0]] + xs[1..];
    }
  }

  /** A total over non-negative values is non-negative. */
  lemma {:induction false} TotalNonNegative<T>(xs: seq<T>, val: T -> real)
    requires forall i :: 0 <= i < |xs| ==> val(xs[i]) >= 0.0
    ensures Total(xs, val) >= 0.0
  {
    if |xs| > 0 {
      TotalNonNegative(xs[1..], val);
    }
  }

  /** A total is at least the total over any one group of it, when values are non-negative. */
  lemma {:induction false} WhereTotalBounded<T, K>(xs: seq<T>, key: T -> K, k: K, val: T -> real)
    requires forall i :: 0 <= i < |xs| ==> val(xs[i]) >= 0.0
    ensures 0.0 <= Total(Where(xs, key, k), val) <= Total(xs, val)
  {
    if |xs| > 0 {
      WhereTotalBounded(xs[1..], key, k, val);
    }
  }

  /** When the keys are distinct, an element contributes its value to the
      group totals exactly once if its key is listed, and not at all otherwise. */
  lemma {:induction false} GroupTotalsCons<T, K>(x: T, rest: seq<T>, key: T -> K, ks: seq<K>, val: T -> real)
    requires NoDuplicates(ks)
    ensures GroupTotals([x] + rest, key, ks, val)
         == (if key(x) in ks then val(x) else 0.0) + GroupTotals(rest, key, ks, val)
  {
    if |ks| > 0 {
      assert ([x] + rest)[1..] == rest;
      assert NoDuplicates(ks[1..]);
      GroupTotalsCons(x, rest, key, ks[1..], val);
      if key(x) == ks[0] {
        assert key(x) !in ks[1..] by {
          assert forall j :: 0 <= j < |ks[1..]| ==> ks[1..][j] == ks[j + 1];
        }
      } else {
        assert key(x) in ks <==> key(x) in ks[1..] by {
          assert ks == [ks[0]] + ks[1..];
        }
      }
    }
  }

  lemma {:induction false} GroupTotalsEmpty<T, K>(key: T -> K, ks: seq<K>, val: T -> real)
    ensures GroupTotals([], key, ks, val) == 0.0
  {
    if |ks| > 0 {
      GroupTotalsEmpty(key, ks[1..], val);
    }
  }

  /** Conservation: summing the per-key totals over a duplicate-free list of
      keys that covers every element's key yields the grand total. */
  lemma {:induction false} PartitionTotal<T, K>(xs: seq<T>, key: T -> K, ks: seq<K>, val: T -> real)
    requires NoDuplicates(ks)
    requires forall i :: 0 <= i < |xs| ==> key(xs[i]) in ks
    ensures GroupTotals(xs, key, ks, val) == Total(xs, val)
  {
    if |xs| == 0 {
      GroupTotalsEmpty(key, ks, val);
    } else {
      assert xs == [xs[0]] + xs[1..];
      GroupTotalsCons(xs[0], xs[1..], key, ks, val);
      PartitionTotal(xs[1..], key, ks, val);
    }
  }

  /** Reordering a sequence does not change its total. */
  lemma {:induction false} TotalPermutation<T>(a: seq<T>, b: seq<T>, val: T -> real)
    requires multiset(a) == multiset(b)
    ensures Total(a, val) == Total(b, val)
  {
    if |a| > 0 {
      var x := a[0];
      assert x in multiset(b);
      var q :| 0 <= q < |b| && b[q] == x;
      var rest := b[..q] + b[q + 1..];
      assert b == b[..q] + [x] + b[q + 1..];
      assert a == [x] + a[1..];
      assert multiset(b) == multiset(b[..q]) + multiset{x} + multiset(b[q + 1..]);
      assert multiset(a) == multiset{x} + multiset(a[1..]);
      assert multiset(rest) == multiset(b[..q]) + multiset(b[q + 1..]);
      assert multiset(a[1..]) == multiset(a) - multiset{x};
      assert multiset(rest) == multiset(b) - multiset{x};
      TotalPermutation(a[1..], rest, val);
      TotalAppend(b[..q] + [x], b[q + 1..], val);
      TotalAppend(b[..q], [x], val);
      TotalAppend(b[..q], b[q + 1..], val);
      assert Total([x], val) == val(x) + Total([x][1..], val);
    } else {
      assert b == [];
    }
  }

  /** A sequence `ys` with one entry per key of `ks`, each carrying its
      group's total, adds up to the group totals over `ks`. */
  lemma {:induction false} TotalOfGroups<T, K, U>(xs: seq<T>, key: T -> K, ks: seq<K>, val: T -> real, ys: seq<U>, yval: U -> real)
    requires |ys| == |ks|
    requires forall i :: 0 <= i < |ks| ==> yval(ys[i]) == Total(Where(xs, key, ks[i]), val)
    ensures Total(ys, yval) == GroupTotals(xs, key, ks, val)
  {
    if |ks| > 0 {
      TotalOfGroups(xs, key, ks[1..], val, ys[1..], yval);
    }
  }

  /** Filtering on two keys gives the same elements in either order. */
  lemma {:induction false} WhereCommute<T, K, L>(xs: seq<T>, key1: T -> K, k1: K, key2: T -> L, k2: L)
    ensures Where(Where(xs, key1, k1), key2, k2) == Where(Where(xs, key2, k2), key1, k1)
  {
    if |xs| > 0 {
      WhereCommute(xs[1..], key1, k1, key2, k2);
    }
  }

  /** Extending a sequence adds the new element to its distinct list, unless already seen. */
  lemma DistinctSnoc<K>(s: seq<K>, x: K)
    ensures Distinct(s + [x]) == if x in Distinct(s) then Distinct(s) else Distinct(s) + [x]
  {
    var t := s + [x];
    assert t[..|t| - 1] == s;
  }

  lemma ProjectSnoc<T, K>(xs: seq<T>, x: T, key: T -> K)
    ensures Project(xs + [x], key) == Project(xs, key) + [key(x)]
  {
  }
}
