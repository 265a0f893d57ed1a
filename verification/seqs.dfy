/** Generic operations on sequences: sums, filters, subsequences and
    distinctness. Every list computation of the application is built from
    these. */
module Seqs {

  /** The sum of `f` over the elements of `s`, in order. */
  function SumBy<T>(s: seq<T>, f: T -> int): int
  {
    if |s| == 0 then 0 else f(s[0]) + SumBy(s[1..], f)
  }

  lemma {:induction false} SumByAppend<T>(a: seq<T>, b: seq<T>, f: T -> int)
    ensures SumBy(a + b, f) == SumBy(a, f) + SumBy(b, f)
  {
    if |a| == 0 {
      assert a + b == b;
    } else {
      assert (a + b)[1..] == a[1..] + b;
      SumByAppend(a[1..], b, f);
    }
  }

  /** Two sequences whose elements contribute the same amounts position by
      position have the same sum. */
  lemma {:induction false} SumByPointwise<A, B>(a: seq<A>, f: A -> int, b: seq<B>, g: B -> int)
    requires |a| == |b|
    requires forall i :: 0 <= i < |a| ==> f(a[i]) == g(b[i])
    ensures SumBy(a, f) == SumBy(b, g)
  {
    if |a| > 0 {
      SumByPointwise(a[1..], f, b[1..], g);
    }
  }

  lemma SumBySnoc<T>(a: seq<T>, x: T, f: T -> int)
    ensures SumBy(a + [x], f) == SumBy(a, f) + f(x)
  {
    SumByAppend(a, [x], f);
  }

  /** The sum over a sequence with one element removed. */
  lemma SumByRemove<T>(s: seq<T>, i: nat, f: T -> int)
    requires i < |s|
    ensures SumBy(s[..i] + s[i + 1..], f) == SumBy(s, f) - f(s[i])
  {
    var a, b := s[..i], s[i + 1..];
    assert s == a + ([s[i]] + b);
    SumByAppend(a, [s[i]] + b, f);
    assert SumBy([s[i]] + b, f) == f(s[i]) + SumBy(b, f) by {
      assert ([s[i]] + b)[1..] == b;
    }
    SumByAppend(a, b, f);
  }

  /** The sum after one element has been replaced. */
  lemma SumByUpdate<T>(s: seq<T>, i: nat, x: T, f: T -> int)
    requires i < |s|
    ensures SumBy(s[i := x], f) == SumBy(s, f) - f(s[i]) + f(x)
  {
    assert s == s[..i] + ([s[i]] + s[i + 1..]);
    assert s[i := x] == s[..i] + ([x] + s[i + 1..]);
    SumByAppend(s[..i], [s[i]] + s[i + 1..], f);
    SumByAppend(s[..i], [x] + s[i + 1..], f);
  }

  /** `r` is obtained from `s` by deleting elements, keeping the order. */
  ghost predicate SubsequenceOf<T>(r: seq<T>, s: seq<T>)
    decreases |s|
  {
    if |r| == 0 then true
    else if |s| == 0 then false
    else (r[0] == s[0] && SubsequenceOf(r[1..], s[1..])) || SubsequenceOf(r, s[1..])
  }

  lemma {:induction false} SubsequenceOfSelf<T>(s: seq<T>)
    ensures SubsequenceOf(s, s)
  {
    if |s| > 0 {
      SubsequenceOfSelf(s[1..]);
    }
  }

  /** The elements of `s` satisfying `p`, in their original order
      (JavaScript's `Array.prototype.filter`). */
  function Filter<T>(s: seq<T>, p: T -> bool): (r: seq<T>)
    ensures |r| <= |s|
    ensures forall i :: 0 <= i < |r| ==> r[i] in s && p(r[i])
    ensures forall i :: 0 <= i < |s| && p(s[i]) ==> s[i] in r
    ensures SubsequenceOf(r, s)
    ensures multiset(r) <= multiset(s)
    ensures forall x :: x in s ==> multiset(r)[x] == if p(x) then multiset(s)[x] else 0
  {
    if |s| == 0 then []
    else
      var rest := Filter(s[1..], p);
      var r := if p(s[0]) then [s[0]] + rest else rest;
      FilterStep(s, p, rest, r);
      FilterCountStep(s, p, rest, r);
      r
  }

  /** The inductive step for `Filter`, order and membership: what the
      filter of the tail promises carries over to the whole sequence,
      whether or not its first element is kept. */
  lemma FilterStep<T>(s: seq<T>, p: T -> bool, rest: seq<T>, r: seq<T>)
    requires |s| > 0
    requires |rest| <= |s[1..]|
    requires forall i :: 0 <= i < |rest| ==> rest[i] in s[1..] && p(rest[i])
    requires forall i :: 0 <= i < |s[1..]| && p(s[1..][i]) ==> s[1..][i] in rest
    requires SubsequenceOf(rest, s[1..])
    requires r == if p(s[0]) then [s[0]] + rest else rest
    ensures |r| <= |s|
    ensures forall i :: 0 <= i < |r| ==> r[i] in s && p(r[i])
    ensures forall i :: 0 <= i < |s| && p(s[i]) ==> s[i] in r
    ensures SubsequenceOf(r, s)
  {
    forall i | 0 < i < |s| && p(s[i])
      ensures s[i] in r
    {
      assert s[1..][i - 1] == s[i];
    }
    if p(s[0]) {
      assert r[1..] == rest;
    }
  }

  /** The inductive step for `Filter`, copies: every copy of a selected
      element is kept and no copy of the others. */
  lemma FilterCountStep<T>(s: seq<T>, p: T -> bool, rest: seq<T>, r: seq<T>)
    requires |s| > 0
    requires multiset(rest) <= multiset(s[1..])
    requires forall x :: x in s[1..] ==> multiset(rest)[x] == if p(x) then multiset(s[1..])[x] else 0
    requires r == if p(s[0]) then [s[0]] + rest else rest
    ensures multiset(r) <= multiset(s)
    ensures forall x :: x in s ==> multiset(r)[x] == if p(x) then multiset(s)[x] else 0
  {
    assert s == [s[0]] + s[1..];
    assert multiset(s) == multiset{s[0]} + multiset(s[1..]);
    assert multiset(r) == (if p(s[0]) then multiset{s[0]} else multiset{}) + multiset(rest);
    forall x | x in s
      ensures multiset(r)[x] == if p(x) then multiset(s)[x] else 0
    {
      if x !in s[1..] {
        assert x == s[0];
        assert multiset(rest)[x] == 0;
      }
    }
  }

  lemma {:induction false} FilterAppend<T>(a: seq<T>, b: seq<T>, p: T -> bool)
    ensures Filter(a + b, p) == Filter(a, p) + Filter(b, p)
  {
    if |a| == 0 {
      assert a + b == b;
    } else {
      assert (a + b)[1..] == a[1..] + b;
      FilterAppend(a[1..], b, p);
    }
  }

  /** A filter that keeps every element is the identity. */
  lemma {:induction false} FilterAll<T>(s: seq<T>, p: T -> bool)
    requires forall i :: 0 <= i < |s| ==> p(s[i])
    ensures Filter(s, p) == s
  {
    if |s| > 0 {
      FilterAll(s[1..], p);
    }
  }

  /** Filtering by a predicate and by its negation splits the sequence:
      the two counts add up to its length. */
  lemma {:induction false} FilterComplementCount<T>(s: seq<T>, p: T -> bool, q: T -> bool)
    requires forall x :: q(x) == !p(x)
    ensures |Filter(s, p)| + |Filter(s, q)| == |s|
  {
    if |s| > 0 {
      FilterComplementCount(s[1..], p, q);
    }
  }

  /** No element occurs twice. */
  predicate Distinct<T(==)>(s: seq<T>)
  {
    forall i, j :: 0 <= i < j < |s| ==> s[i] != s[j]
  }

  /** The elements of `s` without repetitions, in order of first occurrence. */
  function Dedup<T(==)>(s: seq<T>): (r: seq<T>)
    ensures Distinct(r)
    ensures forall i :: 0 <= i < |r| ==> r[i] in s
    ensures forall i :: 0 <= i < |s| ==> s[i] in r
    ensures |r| <= |s|
  {
    if |s| == 0 then []
    else
      var rest := Dedup(s[..|s| - 1]);
      if s[|s| - 1] in rest then rest else rest + [s[|s| - 1]]
  }

  /** The set of elements of a sequence has at most as many members as the
      sequence, and exactly as many precisely when no element repeats. */
  lemma {:induction false} CardinalityOfElements<T>(s: seq<T>)
    ensures |set x | x in s| <= |s|
    ensures |set x | x in s| == |s| <==> Distinct(s)
  {
    if |s| > 0 {
      var init := s[..|s| - 1];
      var last := s[|s| - 1];
      CardinalityOfElements(init);
      assert s == init + [last];
      var elems := set x | x in s;
      var initElems := set x | x in init;
      assert elems == initElems + {last};
      if last in init {
        assert elems == initElems;
        var k :| 0 <= k < |init| && init[k] == last;
        assert s[k] == s[|s| - 1];
        assert !Distinct(s);
      } else {
        assert |elems| == |initElems| + 1;
        if Distinct(init) {
          forall i, j | 0 <= i < j < |s|
            ensures s[i] != s[j]
          {
            if j < |s| - 1 {
              assert s[i] == init[i] && s[j] == init[j];
            } else {
              assert s[i] == init[i];
            }
          }
        } else {
          var i, j :| 0 <= i < j < |init| && init[i] == init[j];
          assert s[i] == s[j];
        }
      }
    }
  }

  /** The first `n` elements (JavaScript's `slice(0, n)`). */
  function Take<T>(s: seq<T>, n: nat): (r: seq<T>)
    ensures |r| == if |s| < n then |s| else n
    ensures r <= s
  {
    if |s| <= n then s else s[..n]
  }
}
