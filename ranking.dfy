/**
 * Ordering rows by a score, highest first, as `sort_values(col, ascending=False)`
 * does: a missing score (NaN) goes after every present one. `TopN` is that sort
 * followed by `head(n)`, which is also what `nlargest(n, col)` keeps.
 */
module Ranking {
  import opened Nullable

  type Scored<K> = (K, Option<real>)

  /** `a` may stand before `b` in a descending order that puts missing scores last. */
  predicate Ahead(a: Option<real>, b: Option<real>)
  {
    b.None? || (a.Some? && a.value >= b.value)
  }

  predicate SortedDesc<K>(s: seq<Scored<K>>)
  {
    forall i, j :: 0 <= i < j < |s| ==> Ahead(s[i].1, s[j].1)
  }

  lemma AheadTransitive(a: Option<real>, b: Option<real>, c: Option<real>)
    requires Ahead(a, b) && Ahead(b, c)
    ensures Ahead(a, c)
  {
  }

  /** A row ahead of the head of a sorted sequence may be put in front of it. */
  lemma PrependSorted<K>(x: Scored<K>, s: seq<Scored<K>>)
    requires SortedDesc(s) && s != [] && Ahead(x.1, s[0].1)
    ensures SortedDesc([x] + s)
  {
    var r := [x] + s;
    forall i, j | 0 <= i < j < |r| ensures Ahead(r[i].1, r[j].1) {
      if i == 0 && j > 1 {
        AheadTransitive(x.1, s[0].1, s[j - 1].1);
      }
    }
  }

  /** Inserts `x` into a sorted sequence, before the first row it is ahead of. */
  function Insert<K(==)>(x: Scored<K>, s: seq<Scored<K>>): (r: seq<Scored<K>>)
    requires SortedDesc(s)
    ensures SortedDesc(r)
    ensures multiset(r) == multiset(s) + multiset{x}
  {
    if s == [] then [x]
    else if Ahead(x.1, s[0].1) then
      PrependSorted(x, s);
      [x] + s
    else
      assert s == [s[0]] + s[1..];
      var t := Insert(x, s[1..]);
      assert t[0] in multiset(t);
      assert t[0] == x || t[0] in s[1..];
      PrependSorted(s[0], t);
      [s[0]] + t
  }

  /** The rows of `s` ordered by score, highest first, missing scores last. */
  function SortDesc<K(==)>(s: seq<Scored<K>>): (r: seq<Scored<K>>)
    ensures SortedDesc(r)
    ensures multiset(r) == multiset(s)
  {
    if s == [] then []
    else
      assert s == [s[0]] + s[1..];
      Insert(s[0], SortDesc(s[1..]))
  }

  function Min(a: nat, b: nat): nat
  {
    if a <= b then a else b
  }

  /** In a sorted sequence every row before a cut is ahead of every row after it. */
  lemma SortedCut<K>(t: seq<Scored<K>>, m: nat)
    requires SortedDesc(t) && m <= |t|
    ensures forall x, y :: x in t[..m] && y in t[m..] ==> Ahead(x.1, y.1)
  {
    forall x, y | x in t[..m] && y in t[m..] ensures Ahead(x.1, y.1) {
      var i :| 0 <= i < m && t[..m][i] == x;
      var j :| 0 <= j < |t| - m && t[m..][j] == y;
      assert t[i] == x && t[m + j] == y;
    }
  }

  /**
   * The first `m` rows of a sorted reordering `t` of `s`: sorted, taken from `s`, and each
   * of them at least as high as every row of `s` left out.
   */
  lemma SortedPrefix<K>(s: seq<Scored<K>>, t: seq<Scored<K>>, m: nat)
    requires SortedDesc(t) && multiset(t) == multiset(s) && m <= |t|
    ensures SortedDesc(t[..m])
    ensures multiset(t[..m]) <= multiset(s)
    ensures forall x, y :: x in t[..m] && y in multiset(s) - multiset(t[..m]) ==> Ahead(x.1, y.1)
  {
    var r, rest := t[..m], t[m..];
    assert t == r + rest;
    assert multiset(t) == multiset(r) + multiset(rest);
    SortedCut(t, m);
    forall y | y in multiset(s) - multiset(r) ensures y in rest {
      assert multiset(rest)[y] > 0;
    }
  }

  /**
   * The first `n` rows of the descending order: at most `n` rows, taken from `s`,
   * sorted, and each of them at least as high as every row left out.
   */
  function TopN<K(==)>(s: seq<Scored<K>>, n: nat): (r: seq<Scored<K>>)
    ensures |r| == Min(n, |s|)
    ensures SortedDesc(r)
    ensures multiset(r) <= multiset(s)
    ensures forall x, y :: x in r && y in multiset(s) - multiset(r) ==> Ahead(x.1, y.1)
  {
    var t := SortDesc(s);
    var m := Min(n, |s|);
    assert |t| == |s| by {
      assert |multiset(t)| == |multiset(s)|;
    }
    SortedPrefix(s, t, m);
    t[..m]
  }

  /** The keys of a ranking. */
  function ScoredKeys<K>(s: seq<Scored<K>>): (ks: set<K>)
    ensures forall i :: 0 <= i < |s| ==> s[i].0 in ks
    ensures forall k :: k in ks ==> exists i :: 0 <= i < |s| && s[i].0 == k
  {
    set i | 0 <= i < |s| :: s[i].0
  }

  /** Every key occurs at most once. */
  predicate DistinctKeys<K(==)>(s: seq<Scored<K>>)
  {
    forall i, j :: 0 <= i < j < |s| ==> s[i].0 != s[j].0
  }

  /** In a sequence whose keys are distinct, a row occurs at most once. */
  lemma {:induction false} OccursOnce<K>(s: seq<Scored<K>>, x: Scored<K>)
    requires DistinctKeys(s)
    ensures multiset(s)[x] <= 1
  {
    if s != [] {
      var n := |s| - 1;
      assert s == s[..n] + [s[n]];
      assert DistinctKeys(s[..n]);
      OccursOnce(s[..n], x);
    }
  }

  /**
   * Reordering keeps keys distinct when each key carries one score: two rows of
   * the result with the same key would be the same row twice.
   */
  lemma PermutationKeepsDistinctKeys<K>(s: seq<Scored<K>>, r: seq<Scored<K>>)
    requires DistinctKeys(s)
    requires multiset(r) <= multiset(s)
    ensures DistinctKeys(r)
  {
    forall i, j | 0 <= i < j < |r| ensures r[i].0 != r[j].0 {
      if r[i].0 == r[j].0 {
        assert r[i] in multiset(s) && r[j] in multiset(s);
        var a :| 0 <= a < |s| && s[a] == r[i];
        var b :| 0 <= b < |s| && s[b] == r[j];
        assert a == b;
        var x := r[i];
        assert r == r[..j] + r[j..];
        assert x in r[..j] && x in r[j..];
        assert multiset(r)[x] == multiset(r[..j])[x] + multiset(r[j..])[x];
        OccursOnce(s, x);
      }
    }
  }

  /** Two rankings holding the same rows have the same keys. */
  lemma SameRowsSameKeys<K>(r: seq<Scored<K>>, s: seq<Scored<K>>)
    requires forall x :: x in r <==> x in s
    ensures ScoredKeys(r) == ScoredKeys(s)
  {
    forall k | k in ScoredKeys(r) ensures k in ScoredKeys(s) {
      var i :| 0 <= i < |r| && r[i].0 == k;
      assert r[i] in s;
    }
    forall k | k in ScoredKeys(s) ensures k in ScoredKeys(r) {
      var i :| 0 <= i < |s| && s[i].0 == k;
      assert s[i] in r;
    }
  }

  /** Sorting neither adds nor loses a row, and keeps keys distinct. */
  lemma SortDescEntries<K>(s: seq<Scored<K>>)
    ensures forall x :: x in SortDesc(s) <==> x in s
    ensures ScoredKeys(SortDesc(s)) == ScoredKeys(s)
    ensures DistinctKeys(s) ==> DistinctKeys(SortDesc(s))
  {
    var r := SortDesc(s);
    forall x ensures x in r <==> x in s {
      assert x in r <==> x in multiset(r);
      assert x in s <==> x in multiset(s);
    }
    SameRowsSameKeys(r, s);
    if DistinctKeys(s) {
      PermutationKeepsDistinctKeys(s, r);
    }
  }

  /**
   * For keys that are distinct, the top `n` keep their keys distinct and out-rank every
   * row whose key they do not hold.
   */
  lemma TopNKeepsLargest<K>(s: seq<Scored<K>>, n: nat)
    requires DistinctKeys(s)
    ensures DistinctKeys(TopN(s, n))
    ensures ScoredKeys(TopN(s, n)) <= ScoredKeys(s)
    ensures forall x, y :: x in TopN(s, n) && y in s && y.0 !in ScoredKeys(TopN(s, n)) ==> Ahead(x.1, y.1)
  {
    var r := TopN(s, n);
    PermutationKeepsDistinctKeys(s, r);
    forall k | k in ScoredKeys(r) ensures k in ScoredKeys(s) {
      var i :| 0 <= i < |r| && r[i].0 == k;
      assert r[i] in multiset(s);
    }
    forall x, y | x in r && y in s && y.0 !in ScoredKeys(r) ensures Ahead(x.1, y.1) {
      assert y !in r;
      assert y in multiset(s) - multiset(r);
    }
  }

  /** The rows `(k, m[k])` for the keys of `keys`, in that order. */
  function Ranked<K(==)>(m: map<K, real>, keys: seq<K>): (s: seq<Scored<K>>)
    requires forall i :: 0 <= i < |keys| ==> keys[i] in m
    ensures |s| == |keys|
    ensures forall i :: 0 <= i < |s| ==> s[i] == (keys[i], Some(m[keys[i]]))
  {
    seq(|keys|, i requires 0 <= i < |keys| => (keys[i], Some(m[keys[i]])))
  }

  /** Rows over distinct keys have distinct keys, exactly those of `keys`. */
  lemma RankedKeys<K>(m: map<K, real>, keys: seq<K>)
    requires forall i :: 0 <= i < |keys| ==> keys[i] in m
    requires forall i, j :: 0 <= i < j < |keys| ==> keys[i] != keys[j]
    ensures DistinctKeys(Ranked(m, keys))
    ensures forall k :: k in ScoredKeys(Ranked(m, keys)) <==> k in keys
  {
    var s := Ranked(m, keys);
    forall k | k in keys ensures k in ScoredKeys(s) {
      var i :| 0 <= i < |keys| && keys[i] == k;
      assert s[i].0 == k;
    }
  }

  /** Each row of `Ranked(m, keys)` holds its own key's value. */
  lemma RankedValues<K>(m: map<K, real>, keys: seq<K>)
    requires forall i :: 0 <= i < |keys| ==> keys[i] in m
    ensures forall x :: x in Ranked(m, keys) ==> x.0 in m && x.1 == Some(m[x.0])
  {
    var s := Ranked(m, keys);
    forall x | x in s ensures x.0 in m && x.1 == Some(m[x.0]) {
      var i :| 0 <= i < |s| && s[i] == x;
    }
  }

  /** The top `n` rows over distinct keys: distinct keys of `keys`, each holding its own value. */
  lemma TopOfRanked<K>(m: map<K, real>, keys: seq<K>, n: nat)
    requires forall i :: 0 <= i < |keys| ==> keys[i] in m
    requires forall i, j :: 0 <= i < j < |keys| ==> keys[i] != keys[j]
    ensures DistinctKeys(TopN(Ranked(m, keys), n))
    ensures forall x :: x in TopN(Ranked(m, keys), n) ==> x.0 in keys && x.0 in m && x.1 == Some(m[x.0])
  {
    var s := Ranked(m, keys);
    var r := TopN(s, n);
    RankedKeys(m, keys);
    TopNKeepsLargest(s, n);
    forall x | x in r ensures x.0 in keys && x.0 in m && x.1 == Some(m[x.0]) {
      assert x in multiset(s);
      var i :| 0 <= i < |s| && s[i] == x;
    }
  }

  /** No key left out of the top `n` has a value above a kept row's. */
  lemma TopOfRankedBelow<K>(m: map<K, real>, keys: seq<K>, n: nat)
    requires forall i :: 0 <= i < |keys| ==> keys[i] in m
    requires forall i, j :: 0 <= i < j < |keys| ==> keys[i] != keys[j]
    ensures forall x, k :: x in TopN(Ranked(m, keys), n) && k in keys && k !in ScoredKeys(TopN(Ranked(m, keys), n)) ==>
      k in m && x.1.Some? && x.1.value >= m[k]
  {
    var s := Ranked(m, keys);
    var r := TopN(s, n);
    RankedKeys(m, keys);
    TopNKeepsLargest(s, n);
    forall x, k | x in r && k in keys && k !in ScoredKeys(r) ensures k in m && x.1.Some? && x.1.value >= m[k] {
      var i :| 0 <= i < |keys| && keys[i] == k;
      var y := s[i];
      assert y in s && y.0 == k && y.1 == Some(m[k]);
      assert Ahead(x.1, y.1);
    }
  }
}
