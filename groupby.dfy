/**
 * The grouping and reduction primitives the pipeline uses: `groupby(key).size()`,
 * `value_counts()`, `groupby(key)[col].mean()` and `groupby(key)[col].sum()`.
 *
 * A table column is a sequence; a key column holds `Option<K>` because pandas
 * drops every row whose key is missing before it forms groups, and a value
 * column holds `Option<real>` because `mean` and `sum` skip missing values.
 */
module GroupBy {
  import opened Nullable

  /** The groups that exist: every non-missing key of the column. */
  function KeySet<K(==,!new)>(keys: seq<Option<K>>): (r: set<K>)
    ensures forall k :: k in r <==> Some(k) in keys
  {
    set i | 0 <= i < |keys| && keys[i].Some? :: keys[i].value
  }

  /** Number of rows whose key is present and lies in `S`. */
  function CountIn<K(==,!new)>(keys: seq<Option<K>>, S: set<K>): (n: nat)
    ensures n <= |keys|
    ensures n == 0 <==> forall i :: 0 <= i < |keys| && keys[i].Some? ==> keys[i].value !in S
  {
    if keys == [] then 0
    else
      var last := keys[|keys| - 1];
      CountIn(keys[..|keys| - 1], S) + (if last.Some? && last.value in S then 1 else 0)
  }

  /** The count of one group is the number of rows carrying its key. */
  lemma {:induction false} CountInMatches<K(!new)>(keys: seq<Option<K>>, k: K)
    ensures CountIn(keys, {k}) == |set i | 0 <= i < |keys| && keys[i] == Some(k)|
  {
    if keys != [] {
      var n := |keys| - 1;
      var init := keys[..n];
      CountInMatches(init, k);
      var A := set i | 0 <= i < |init| && init[i] == Some(k);
      var B := set i | 0 <= i < |keys| && keys[i] == Some(k);
      assert forall i :: 0 <= i < n ==> init[i] == keys[i];
      if keys[n] == Some(k) {
        assert B == A + {n};
      } else {
        assert B == A;
      }
    }
  }

  /** Number of rows whose key is present at all. */
  function Known<K(==,!new)>(keys: seq<Option<K>>): (n: nat)
    ensures n <= |keys|
    ensures n == |keys| <==> forall i :: 0 <= i < |keys| ==> keys[i].Some?
  {
    if keys == [] then 0
    else Known(keys[..|keys| - 1]) + (if keys[|keys| - 1].Some? then 1 else 0)
  }

  /** `groupby(key).size()` and `value_counts()`: one entry per present key, holding its row count. */
  function Size<K(==,!new)>(keys: seq<Option<K>>): (m: map<K, nat>)
    ensures m.Keys == KeySet(keys)
    ensures forall k :: k in m ==> 1 <= m[k] <= |keys|
  {
    map k | k in KeySet(keys) :: CountIn(keys, {k})
  }

  /** Sum of the counts of a map over the keys in `S`. */
  ghost function Total<K>(m: map<K, nat>, S: set<K>): nat
    requires S <= m.Keys
    decreases S
  {
    if S == {} then 0
    else
      var k :| k in S;
      m[k] + Total(m, S - {k})
  }

  /** The sum over all of a map's counts. */
  ghost function TotalCount<K>(m: map<K, nat>): nat
  {
    Total(m, m.Keys)
  }

  /** `Total` may take out any key first, not only the one its definition picks. */
  lemma TotalRemove<K>(m: map<K, nat>, S: set<K>, k: K)
    requires S <= m.Keys && k in S
    ensures Total(m, S) == m[k] + Total(m, S - {k})
    decreases |S|
  {
    var j :| j in S && Total(m, S) == m[j] + Total(m, S - {j});
    if j != k {
      assert |S - {j}| < |S|;
      TotalRemove(m, S - {j}, k);
      TotalRemove(m, S - {k}, j);
      assert S - {j} - {k} == S - {k} - {j};
    }
  }

  /** Counting the rows with a key in `S` splits into the rows of key `k` and the rest. */
  lemma {:induction false} CountInSplit<K(!new)>(keys: seq<Option<K>>, S: set<K>, k: K)
    requires k in S
    ensures CountIn(keys, S) == CountIn(keys, {k}) + CountIn(keys, S - {k})
  {
    if keys != [] {
      CountInSplit(keys[..|keys| - 1], S, k);
    }
  }

  /** A set of keys that covers every present key counts every row whose key is present. */
  lemma {:induction false} CountInCovering<K(!new)>(keys: seq<Option<K>>, S: set<K>)
    requires KeySet(keys) <= S
    ensures CountIn(keys, S) == Known(keys)
  {
    if keys != [] {
      var init := keys[..|keys| - 1];
      forall k | k in KeySet(init) ensures k in S {
        var i :| 0 <= i < |init| && init[i] == Some(k);
        assert keys[i] == Some(k);
      }
      CountInCovering(init, S);
      var last := keys[|keys| - 1];
      if last.Some? {
        assert last.value in KeySet(keys);
      }
    }
  }

  /** Summing the group sizes over a set of groups counts the rows that fall in those groups. */
  lemma {:induction false} TotalOfSizes<K(!new)>(keys: seq<Option<K>>, S: set<K>)
    requires S <= KeySet(keys)
    ensures Total(Size(keys), S) == CountIn(keys, S)
    decreases |S|
  {
    var m := Size(keys);
    if S == {} {
      assert CountIn(keys, S) == 0;
    } else {
      var k :| k in S;
      TotalRemove(m, S, k);
      TotalOfSizes(keys, S - {k});
      CountInSplit(keys, S, k);
    }
  }

  /** The counts of `Size` add up to the number of rows whose key is present; rows with a missing key are dropped. */
  lemma SizesAddUp<K(!new)>(keys: seq<Option<K>>)
    ensures TotalCount(Size(keys)) == Known(keys)
  {
    TotalOfSizes(keys, KeySet(keys));
    CountInCovering(keys, KeySet(keys));
  }

  /** Sum of the non-missing values of the rows with key `k` (pandas `sum`; an all-missing group sums to 0). */
  function GroupSum<K(==,!new)>(keys: seq<Option<K>>, vals: seq<Option<real>>, k: K): real
    requires |keys| == |vals|
  {
    if keys == [] then 0.0
    else
      var n := |keys| - 1;
      GroupSum(keys[..n], vals[..n], k) + (if keys[n] == Some(k) && vals[n].Some? then vals[n].value else 0.0)
  }

  /** Number of non-missing values among the rows with key `k`. */
  function GroupCount<K(==,!new)>(keys: seq<Option<K>>, vals: seq<Option<real>>, k: K): (n: nat)
    requires |keys| == |vals|
    ensures n <= CountIn(keys, {k})
    ensures n == 0 <==> forall i :: 0 <= i < |keys| && keys[i] == Some(k) ==> vals[i].None?
  {
    if keys == [] then 0
    else
      var n := |keys| - 1;
      GroupCount(keys[..n], vals[..n], k) + (if keys[n] == Some(k) && vals[n].Some? then 1 else 0)
  }

  /** Mean of one group, skipping missing values; undefined (`None`) when all of them are missing. */
  function GroupMean<K(==,!new)>(keys: seq<Option<K>>, vals: seq<Option<real>>, k: K): (r: Option<real>)
    requires |keys| == |vals|
    ensures r.None? <==> forall i :: 0 <= i < |keys| && keys[i] == Some(k) ==> vals[i].None?
  {
    var n := GroupCount(keys, vals, k);
    if n == 0 then None else Some(GroupSum(keys, vals, k) / n as real)
  }

  /** `groupby(key)[col].mean()`: one entry per present key, also for a key all of whose values are missing. */
  function MeanBy<K(==,!new)>(keys: seq<Option<K>>, vals: seq<Option<real>>): (m: map<K, Option<real>>)
    requires |keys| == |vals|
    ensures m.Keys == KeySet(keys)
  {
    map k | k in KeySet(keys) :: GroupMean(keys, vals, k)
  }

  /** `groupby(key)[col].sum()`: one entry per present key. */
  function SumBy<K(==,!new)>(keys: seq<Option<K>>, vals: seq<Option<real>>): (m: map<K, real>)
    requires |keys| == |vals|
    ensures m.Keys == KeySet(keys)
  {
    map k | k in KeySet(keys) :: GroupSum(keys, vals, k)
  }

  /** The sum of a group of values in `[0, 1]` lies between 0 and the number of values summed. */
  lemma {:induction false} GroupSumUnit<K(!new)>(keys: seq<Option<K>>, vals: seq<Option<real>>, k: K)
    requires |keys| == |vals|
    requires forall i :: 0 <= i < |keys| && keys[i] == Some(k) && vals[i].Some? ==> 0.0 <= vals[i].value <= 1.0
    ensures 0.0 <= GroupSum(keys, vals, k) <= GroupCount(keys, vals, k) as real
  {
    if keys != [] {
      var n := |keys| - 1;
      GroupSumUnit(keys[..n], vals[..n], k);
    }
  }

  /** The mean of values that lie in `[0, 1]` (a 0/1 flag, say) lies in `[0, 1]`. */
  lemma MeanInUnitInterval<K(!new)>(keys: seq<Option<K>>, vals: seq<Option<real>>, k: K)
    requires |keys| == |vals|
    requires forall i :: 0 <= i < |keys| && keys[i] == Some(k) && vals[i].Some? ==> 0.0 <= vals[i].value <= 1.0
    ensures GroupMean(keys, vals, k).Some? ==> 0.0 <= GroupMean(keys, vals, k).value <= 1.0
  {
    if GroupCount(keys, vals, k) != 0 {
      GroupSumUnit(keys, vals, k);
      RatioInUnitInterval(GroupSum(keys, vals, k), GroupCount(keys, vals, k) as real);
    }
  }

  /** Every group mean of a column of values in `[0, 1]` with none missing is defined and lies in `[0, 1]`. */
  lemma MeanByInUnitInterval<K(!new)>(keys: seq<Option<K>>, vals: seq<Option<real>>)
    requires |keys| == |vals|
    requires forall i :: 0 <= i < |vals| ==> vals[i].Some? && 0.0 <= vals[i].value <= 1.0
    ensures forall k :: k in MeanBy(keys, vals) ==> MeanBy(keys, vals)[k].Some? && 0.0 <= MeanBy(keys, vals)[k].value <= 1.0
  {
    forall k | k in KeySet(keys) ensures GroupMean(keys, vals, k).Some? && 0.0 <= GroupMean(keys, vals, k).value <= 1.0 {
      var i :| 0 <= i < |keys| && keys[i] == Some(k);
      assert vals[i].Some?;
      MeanInUnitInterval(keys, vals, k);
    }
  }

  lemma RatioInUnitInterval(s: real, c: real)
    requires 0.0 <= s <= c && c > 0.0
    ensures 0.0 <= s / c <= 1.0
  {
    assert (s / c) * c == s;
  }

  /** A row whose value is missing joins its group without changing the group's mean. */
  lemma MeanSkipsMissing<K(!new)>(keys: seq<Option<K>>, vals: seq<Option<real>>, k: K)
    requires |keys| == |vals|
    ensures GroupMean(keys + [Some(k)], vals + [None], k) == GroupMean(keys, vals, k)
    ensures CountIn(keys + [Some(k)], {k}) == CountIn(keys, {k}) + 1
  {
    assert (keys + [Some(k)])[..|keys|] == keys;
    assert (vals + [None])[..|vals|] == vals;
  }

  /** A row with a missing key adds no group. */
  lemma KeySetAppendMissing<K(!new)>(keys: seq<Option<K>>)
    ensures KeySet(keys + [None]) == KeySet(keys)
  {
    var keys' := keys + [None];
    forall k | k in KeySet(keys') ensures k in KeySet(keys) {
      var i :| 0 <= i < |keys'| && keys'[i] == Some(k);
      assert keys[i] == Some(k);
    }
    forall k | k in KeySet(keys) ensures k in KeySet(keys') {
      var i :| 0 <= i < |keys| && keys[i] == Some(k);
      assert keys'[i] == Some(k);
    }
  }

  /** A row with a missing key changes no group's size or mean. */
  lemma GroupAppendMissing<K(!new)>(keys: seq<Option<K>>, vals: seq<Option<real>>, v: Option<real>, k: K)
    requires |keys| == |vals|
    ensures CountIn(keys + [None], {k}) == CountIn(keys, {k})
    ensures GroupMean(keys + [None], vals + [v], k) == GroupMean(keys, vals, k)
  {
    var keys', vals' := keys + [None], vals + [v];
    assert keys'[..|keys|] == keys;
    assert vals'[..|vals|] == vals;
    assert GroupCount(keys', vals', k) == GroupCount(keys, vals, k);
    assert GroupSum(keys', vals', k) == GroupSum(keys, vals, k);
  }

  /** A row with a missing key joins no group at all. */
  lemma MissingKeyDropped<K(!new)>(keys: seq<Option<K>>, vals: seq<Option<real>>, v: Option<real>)
    requires |keys| == |vals|
    ensures Size(keys + [None]) == Size(keys)
    ensures MeanBy(keys + [None], vals + [v]) == MeanBy(keys, vals)
  {
    KeySetAppendMissing(keys);
    forall k | k in KeySet(keys)
      ensures CountIn(keys + [None], {k}) == CountIn(keys, {k})
      ensures GroupMean(keys + [None], vals + [v], k) == GroupMean(keys, vals, k)
    {
      GroupAppendMissing(keys, vals, v, k);
    }
  }

  /** The distinct elements of a sequence, in order of first appearance (the order groups are met in). */
  function Distinct<T(==,!new)>(s: seq<T>): (r: seq<T>)
    ensures forall x :: x in r <==> x in s
    ensures forall i, j :: 0 <= i < j < |r| ==> r[i] != r[j]
  {
    if s == [] then []
    else
      var d := Distinct(s[..|s| - 1]);
      var x := s[|s| - 1];
      assert forall y :: y in s <==> y in s[..|s| - 1] || y == x;
      if x in d then d else d + [x]
  }

  /** A sequence without duplicates has as many elements as its set of elements. */
  lemma {:induction false} DistinctCardinality<T>(s: seq<T>, S: set<T>)
    requires forall i, j :: 0 <= i < j < |s| ==> s[i] != s[j]
    requires forall x :: x in S <==> x in s
    ensures |S| == |s|
  {
    if s != [] {
      var n := |s| - 1;
      assert forall x :: x in S - {s[n]} <==> x in s[..n] by {
        forall x | x in s[..n] ensures x != s[n] {
          var i :| 0 <= i < n && s[..n][i] == x;
        }
        assert forall x :: x in s <==> x in s[..n] || x == s[n];
      }
      DistinctCardinality(s[..n], S - {s[n]});
    }
  }

  /** A group with no row sums to 0. */
  lemma {:induction false} GroupSumAbsent<K(!new)>(keys: seq<Option<K>>, vals: seq<Option<real>>, k: K)
    requires |keys| == |vals|
    requires k !in KeySet(keys)
    ensures GroupSum(keys, vals, k) == 0.0
  {
    if keys != [] {
      var n := |keys| - 1;
      assert forall i :: 0 <= i < n ==> keys[..n][i] == keys[i];
      GroupSumAbsent(keys[..n], vals[..n], k);
    }
  }

  /** Appending a row adds its value to its own group's sum and leaves every other group's sum alone. */
  lemma GroupSumAppend<K(!new)>(keys: seq<Option<K>>, vals: seq<Option<real>>, key: Option<K>, v: Option<real>, k: K)
    requires |keys| == |vals|
    ensures GroupSum(keys + [key], vals + [v], k) ==
      GroupSum(keys, vals, k) + (if key == Some(k) && v.Some? then v.value else 0.0)
  {
    assert (keys + [key])[..|keys|] == keys;
    assert (vals + [v])[..|vals|] == vals;
  }
}
