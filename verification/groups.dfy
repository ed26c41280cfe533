/** Grouped aggregation: `df.groupby(keys)[column].sum()` and `.mean()`.
    A grouped column is a sequence of entries (group key, value); the
    reference aggregates `SumFor` and `CountFor` say what one group holds,
    independently of how the grouped table is built. */
module Groups {
  import opened Keys
  import opened Sequences

  datatype Entry<K> = Entry(key: K, value: real)

  /** The (key, value) column pair of a table, row by row. */
  function Column<T, K>(s: seq<T>, key: T -> K, value: T -> real): (r: seq<Entry<K>>)
    ensures |r| == |s|
    ensures forall i :: 0 <= i < |s| ==> r[i] == Entry(key(s[i]), value(s[i]))
  {
    if |s| == 0 then [] else [Entry(key(s[0]), value(s[0]))] + Column(s[1..], key, value)
  }

  predicate HasKey<K(==)>(es: seq<Entry<K>>, k: K)
  {
    exists i :: 0 <= i < |es| && es[i].key == k
  }

  /** A key has a group in a column exactly when some row carries it. */
  lemma HasKeyColumn<T, K>(s: seq<T>, key: T -> K, value: T -> real, k: K)
    ensures HasKey(Column(s, key, value), k) <==> exists j :: 0 <= j < |s| && key(s[j]) == k
  {
    var c := Column(s, key, value);
    if HasKey(c, k) {
      var i :| 0 <= i < |c| && c[i].key == k;
      assert key(s[i]) == k;
    }
  }

  function Total<K>(es: seq<Entry<K>>): real
  {
    if |es| == 0 then 0.0 else es[0].value + Total(es[1..])
  }

  /** Sum of the values of the group with key `k` (0 for an absent key). */
  function SumFor<K(==)>(es: seq<Entry<K>>, k: K): real
  {
    if |es| == 0 then 0.0
    else (if es[0].key == k then es[0].value else 0.0) + SumFor(es[1..], k)
  }

  /** Number of rows in the group with key `k`. */
  function CountFor<K(==)>(es: seq<Entry<K>>, k: K): nat
  {
    if |es| == 0 then 0
    else (if es[0].key == k then 1 else 0) + CountFor(es[1..], k)
  }

  lemma {:induction false} HasKeyCons<K>(es: seq<Entry<K>>, k: K)
    requires |es| > 0
    ensures HasKey(es, k) <==> es[0].key == k || HasKey(es[1..], k)
  {
    if HasKey(es[1..], k) {
      var i :| 0 <= i < |es[1..]| && es[1..][i].key == k;
      assert es[i + 1].key == k;
    }
  }

  lemma {:induction false} CountPositive<K>(es: seq<Entry<K>>, k: K)
    ensures CountFor(es, k) > 0 <==> HasKey(es, k)
  {
    if |es| > 0 {
      HasKeyCons(es, k);
      CountPositive(es[1..], k);
    }
  }

  /** Arithmetic mean of the non-empty group with key `k`. */
  function MeanFor<K(==)>(es: seq<Entry<K>>, k: K): real
    requires HasKey(es, k)
  {
    CountPositive(es, k);
    SumFor(es, k) / (CountFor(es, k) as real)
  }

  predicate Distinct<K(==)>(ks: seq<K>)
  {
    forall i, j :: 0 <= i < j < |ks| ==> ks[i] != ks[j]
  }

  /** Keys strictly ascending from the first entry to the last. */
  predicate EntriesAscending(es: seq<Entry<Key>>)
  {
    forall i, j :: 0 <= i < j < |es| ==> Less(es[i].key, es[j].key)
  }

  /** One summed entry per key of `ks`, in the order of `ks`. */
  function SumRows<K(==)>(es: seq<Entry<K>>, ks: seq<K>): (r: seq<Entry<K>>)
    ensures |r| == |ks|
    ensures forall i :: 0 <= i < |ks| ==> r[i] == Entry(ks[i], SumFor(es, ks[i]))
  {
    if |ks| == 0 then [] else [Entry(ks[0], SumFor(es, ks[0]))] + SumRows(es, ks[1..])
  }

  /** One averaged entry per key of `ks`, in the order of `ks`. */
  function MeanRows<K(==)>(es: seq<Entry<K>>, ks: seq<K>): (r: seq<Entry<K>>)
    requires forall k :: k in ks ==> HasKey(es, k)
    ensures |r| == |ks|
    ensures forall i :: 0 <= i < |ks| ==> r[i] == Entry(ks[i], MeanFor(es, ks[i]))
  {
    if |ks| == 0 then [] else [Entry(ks[0], MeanFor(es, ks[0]))] + MeanRows(es, ks[1..])
  }

  lemma TotalSumRowsCons<K>(es: seq<Entry<K>>, ks: seq<K>)
    requires |ks| > 0
    ensures Total(SumRows(es, ks)) == SumFor(es, ks[0]) + Total(SumRows(es, ks[1..]))
  {
    assert SumRows(es, ks)[1..] == SumRows(es, ks[1..]);
  }

  lemma {:induction false} SumRowsOfNothing<K>(ks: seq<K>)
    ensures Total(SumRows([], ks)) == 0.0
  {
    if |ks| > 0 {
      TotalSumRowsCons([], ks);
      SumRowsOfNothing(ks[1..]);
    }
  }

  lemma {:induction false} SumRowsSplit<K>(e: Entry<K>, rest: seq<Entry<K>>, ks: seq<K>)
    ensures Total(SumRows([e] + rest, ks)) == Total(SumRows([e], ks)) + Total(SumRows(rest, ks))
  {
    if |ks| > 0 {
      assert ([e] + rest)[1..] == rest;
      TotalSumRowsCons([e] + rest, ks);
      TotalSumRowsCons([e], ks);
      TotalSumRowsCons(rest, ks);
      SumRowsSplit(e, rest, ks[1..]);
    }
  }

  lemma {:induction false} SumRowsAbsent<K>(e: Entry<K>, ks: seq<K>)
    requires e.key !in ks
    ensures Total(SumRows([e], ks)) == 0.0
  {
    if |ks| > 0 {
      TotalSumRowsCons([e], ks);
      SumRowsAbsent(e, ks[1..]);
    }
  }

  lemma {:induction false} SumRowsSingle<K>(e: Entry<K>, ks: seq<K>)
    requires Distinct(ks)
    requires e.key in ks
    ensures Total(SumRows([e], ks)) == e.value
  {
    TotalSumRowsCons([e], ks);
    if ks[0] == e.key {
      assert e.key !in ks[1..];
      SumRowsAbsent(e, ks[1..]);
    } else {
      SumRowsSingle(e, ks[1..]);
    }
  }

  /** Mass preservation: summing every group of a key list that covers all
      keys exactly once gives back the total of the column. */
  lemma {:induction false} SumRowsTotal<K>(es: seq<Entry<K>>, ks: seq<K>)
    requires Distinct(ks)
    requires forall i :: 0 <= i < |es| ==> es[i].key in ks
    ensures Total(SumRows(es, ks)) == Total(es)
  {
    if |es| == 0 {
      SumRowsOfNothing(ks);
    } else {
      assert es == [es[0]] + es[1..];
      SumRowsSplit(es[0], es[1..], ks);
      SumRowsSingle(es[0], ks);
      SumRowsTotal(es[1..], ks);
    }
  }

  /** The distinct keys of a grouped column in ascending order. */
  function GroupKeys(es: seq<Entry<Key>>): (r: seq<Key>)
    ensures Ascending(r)
    ensures forall k :: k in r <==> HasKey(es, k)
  {
    if |es| == 0 then []
    else
      var r := Insert(GroupKeys(es[1..]), es[0].key);
      assert forall k :: HasKey(es, k) <==> es[0].key == k || HasKey(es[1..], k) by {
        forall k {
          HasKeyCons(es, k);
        }
      }
      r
  }

  lemma AscendingKeysDistinct(ks: seq<Key>)
    requires Ascending(ks)
    ensures Distinct(ks)
  {
    forall i, j | 0 <= i < j < |ks|
      ensures ks[i] != ks[j]
    {
      AscendingDistinct(ks, i, j);
    }
  }

  /** `groupby(key)[column].sum()`: one entry per distinct key, ascending,
      holding the sum of its group; the grand total is unchanged. */
  function GroupSum(es: seq<Entry<Key>>): (r: seq<Entry<Key>>)
    ensures EntriesAscending(r)
    ensures forall k :: HasKey(r, k) <==> HasKey(es, k)
    ensures forall i :: 0 <= i < |r| ==> r[i].value == SumFor(es, r[i].key)
    ensures Total(r) == Total(es)
  {
    var ks := GroupKeys(es);
    AscendingKeysDistinct(ks);
    assert forall i :: 0 <= i < |es| ==> es[i].key in ks;
    SumRowsTotal(es, ks);
    var r := SumRows(es, ks);
    assert forall k :: HasKey(r, k) <==> k in ks;
    r
  }

  /** `groupby(key)[column].mean()`: one entry per distinct key, ascending,
      holding the mean of its (non-empty) group. */
  function GroupMean(es: seq<Entry<Key>>): (r: seq<Entry<Key>>)
    ensures EntriesAscending(r)
    ensures forall k :: HasKey(r, k) <==> HasKey(es, k)
    ensures forall i :: 0 <= i < |r| ==> HasKey(es, r[i].key) && r[i].value == MeanFor(es, r[i].key)
  {
    var ks := GroupKeys(es);
    var r := MeanRows(es, ks);
    assert forall k :: HasKey(r, k) <==> k in ks;
    r
  }

  lemma {:induction false} SumForBounds<K>(es: seq<Entry<K>>, k: K, lo: real, hi: real)
    requires forall i :: 0 <= i < |es| && es[i].key == k ==> lo <= es[i].value <= hi
    ensures (CountFor(es, k) as real) * lo <= SumFor(es, k) <= (CountFor(es, k) as real) * hi
  {
    if |es| > 0 {
      SumForBounds(es[1..], k, lo, hi);
      var c := CountFor(es[1..], k) as real;
      if es[0].key == k {
        assert CountFor(es, k) as real == c + 1.0;
        assert (c + 1.0) * lo == c * lo + lo && (c + 1.0) * hi == c * hi + hi;
      }
    }
  }

  /** A group mean lies between bounds that hold for every value of the group. */
  lemma MeanWithin<K>(es: seq<Entry<K>>, k: K, lo: real, hi: real)
    requires HasKey(es, k)
    requires forall i :: 0 <= i < |es| && es[i].key == k ==> lo <= es[i].value <= hi
    ensures lo <= MeanFor(es, k) <= hi
  {
    CountPositive(es, k);
    SumForBounds(es, k, lo, hi);
    QuotientWithin(SumFor(es, k), CountFor(es, k) as real, lo, hi);
  }

  lemma QuotientWithin(s: real, c: real, lo: real, hi: real)
    requires c > 0.0
    requires c * lo <= s <= c * hi
    ensures lo <= s / c <= hi
  {
    assert s / c * c == s;
  }

  /** Group sums are linear: a per-row difference column sums, per group, to
      the difference of the group sums. */
  lemma {:induction false} SumForDifference<K>(d: seq<Entry<K>>, a: seq<Entry<K>>, b: seq<Entry<K>>, k: K)
    requires |d| == |a| == |b|
    requires forall i :: 0 <= i < |d| ==>
      d[i].key == a[i].key == b[i].key && d[i].value == a[i].value - b[i].value
    ensures SumFor(d, k) == SumFor(a, k) - SumFor(b, k)
  {
    if |d| > 0 {
      SumForDifference(d[1..], a[1..], b[1..], k);
    }
  }

}
