/** Grouping amounts by a key and summing each group: the `$group` stage with
    `$sum` that the summary report runs by day and by category. */
module Grouping {

  import opened Seqs

  /** One record reduced to its group key and its amount. */
  datatype Entry<K> = Entry(key: K, amount: int)

  function Amount<K>(e: Entry<K>): int
  {
    e.amount
  }

  /** The sum of all amounts. */
  function Total<K>(es: seq<Entry<K>>): int
  {
    SumBy(es, Amount)
  }

  /** The sum of the amounts whose key is `k`; 0 when there are none. */
  function SumFor<K(==)>(es: seq<Entry<K>>, k: K): int
  {
    if |es| == 0 then 0 else (if es[0].key == k then es[0].amount else 0) + SumFor(es[1..], k)
  }

  /** The group sums of the keys in `keys`, added up. */
  function SumOverKeys<K(==)>(keys: seq<K>, es: seq<Entry<K>>): int
  {
    if |keys| == 0 then 0 else SumFor(es, keys[0]) + SumOverKeys(keys[1..], es)
  }

  /** `a` counted once for every occurrence of `k` in `keys`. */
  function Occurrences<K(==)>(keys: seq<K>, k: K, a: int): int
  {
    if |keys| == 0 then 0 else (if keys[0] == k then a else 0) + Occurrences(keys[1..], k, a)
  }

  lemma {:induction false} OccurrencesAbsent<K>(keys: seq<K>, k: K, a: int)
    requires k !in keys
    ensures Occurrences(keys, k, a) == 0
  {
    if |keys| > 0 {
      OccurrencesAbsent(keys[1..], k, a);
    }
  }

  lemma {:induction false} OccurrencesOnce<K>(keys: seq<K>, k: K, a: int)
    requires Distinct(keys) && k in keys
    ensures Occurrences(keys, k, a) == a
  {
    if keys[0] == k {
      assert k !in keys[1..] by {
        forall j | 0 <= j < |keys[1..]|
          ensures keys[1..][j] != k
        {
          assert keys[1..][j] == keys[j + 1];
        }
      }
      OccurrencesAbsent(keys[1..], k, a);
    } else {
      assert k in keys[1..] by {
        var j :| 0 <= j < |keys| && keys[j] == k;
        assert keys[1..][j - 1] == k;
      }
      OccurrencesOnce(keys[1..], k, a);
    }
  }

  /** Peeling the first record off every group sum. */
  lemma {:induction false} SumOverKeysCons<K>(keys: seq<K>, es: seq<Entry<K>>)
    requires |es| > 0
    ensures SumOverKeys(keys, es) == Occurrences(keys, es[0].key, es[0].amount) + SumOverKeys(keys, es[1..])
  {
    if |keys| > 0 {
      SumOverKeysCons(keys[1..], es);
    }
  }

  /** Summing the groups of distinct keys that cover every record gives the
      grand total: each record lands in exactly one group. */
  lemma {:induction false} PartitionSum<K>(keys: seq<K>, es: seq<Entry<K>>)
    requires Distinct(keys)
    requires forall i :: 0 <= i < |es| ==> es[i].key in keys
    ensures SumOverKeys(keys, es) == Total(es)
  {
    if |es| == 0 {
      SumOverKeysEmpty(keys, es);
    } else {
      SumOverKeysCons(keys, es);
      OccurrencesOnce(keys, es[0].key, es[0].amount);
      PartitionSum(keys, es[1..]);
    }
  }

  lemma {:induction false} SumOverKeysEmpty<K>(keys: seq<K>, es: seq<Entry<K>>)
    requires |es| == 0
    ensures SumOverKeys(keys, es) == 0
  {
    if |keys| > 0 {
      SumOverKeysEmpty(keys[1..], es);
    }
  }
}
