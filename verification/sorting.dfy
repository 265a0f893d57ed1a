/** Sorting a sequence by a comparator. The database's `sort` and the
    browser's `Array.prototype.sort` are both modelled by `SortBy`: the
    result is a permutation of the input that is ordered by the comparator. */
module Sorting {

  import opened Seqs

  /** `le` is total and transitive: a comparator a sort can follow. */
  ghost predicate TotalPreorder<T(!new)>(le: (T, T) -> bool)
  {
    && (forall a, b :: le(a, b) || le(b, a))
    && (forall a, b, c :: le(a, b) && le(b, c) ==> le(a, c))
  }

  /** Every earlier element is `le` every later one. */
  ghost predicate SortedBy<T>(le: (T, T) -> bool, s: seq<T>)
  {
    forall i, j :: 0 <= i < j < |s| ==> le(s[i], s[j])
  }

  /** Inserts `x` into the sorted `s` before the first element it precedes. */
  function InsertBy<T(!new)>(le: (T, T) -> bool, x: T, s: seq<T>): (r: seq<T>)
    requires TotalPreorder(le)
    requires SortedBy(le, s)
    ensures multiset(r) == multiset(s) + multiset{x}
    ensures SortedBy(le, r)
  {
    if |s| == 0 then [x]
    else if le(x, s[0]) then [x] + s
    else
      var rest := InsertBy(le, x, s[1..]);
      assert s == [s[0]] + s[1..];
      assert forall i :: 0 <= i < |rest| ==> le(s[0], rest[i]) by {
        forall i | 0 <= i < |rest|
          ensures le(s[0], rest[i])
        {
          assert rest[i] in multiset(rest);
          if rest[i] != x {
            assert rest[i] in multiset(s[1..]);
            var k :| 0 <= k < |s[1..]| && s[1..][k] == rest[i];
            assert s[k + 1] == rest[i];
          }
        }
      }
      [s[0]] + rest
  }

  /** Insertion sort by `le`. */
  function SortBy<T(!new)>(le: (T, T) -> bool, s: seq<T>): (r: seq<T>)
    requires TotalPreorder(le)
    ensures multiset(r) == multiset(s)
    ensures |r| == |s|
    ensures SortedBy(le, r)
  {
    if |s| == 0 then []
    else
      assert s == [s[0]] + s[1..];
      InsertBy(le, s[0], SortBy(le, s[1..]))
  }

  /** Inserting an element adds its value to any sum over the sequence. */
  lemma {:induction false} InsertBySum<T(!new)>(le: (T, T) -> bool, x: T, s: seq<T>, f: T -> int)
    requires TotalPreorder(le)
    requires SortedBy(le, s)
    ensures SumBy(InsertBy(le, x, s), f) == f(x) + SumBy(s, f)
  {
    if |s| > 0 && !le(x, s[0]) {
      InsertBySum(le, x, s[1..], f);
    }
  }

  /** Sorting does not change a sum over the sequence. */
  lemma {:induction false} SortBySum<T(!new)>(le: (T, T) -> bool, s: seq<T>, f: T -> int)
    requires TotalPreorder(le)
    ensures SumBy(SortBy(le, s), f) == SumBy(s, f)
  {
    if |s| > 0 {
      SortBySum(le, s[1..], f);
      InsertBySum(le, s[0], SortBy(le, s[1..]), f);
    }
  }
}
