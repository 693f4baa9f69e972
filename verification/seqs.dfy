/** Element-wise map and sum over sequences, and the fact that both only
    depend on a sequence's elements, not on their order. */
module Seqs {

  /** `s.map(f)`. */
  function MapSeq<T, U>(s: seq<T>, f: T -> U): (r: seq<U>)
    ensures |r| == |s|
    ensures forall i :: 0 <= i < |s| ==> r[i] == f(s[i])
  {
    if |s| == 0 then [] else [f(s[0])] + MapSeq(s[1..], f)
  }

  /** `s.reduce((acc, x) => acc + f(x), 0)`. */
  function SumBy<T>(s: seq<T>, f: T -> int): int {
    if |s| == 0 then 0 else f(s[0]) + SumBy(s[1..], f)
  }

  lemma {:induction false} SumByAppend<T>(a: seq<T>, b: seq<T>, f: T -> int)
    ensures SumBy(a + b, f) == SumBy(a, f) + SumBy(b, f)
    decreases |a|
  {
    if |a| == 0 {
      assert a + b == b;
    } else {
      assert (a + b)[1..] == a[1..] + b;
      SumByAppend(a[1..], b, f);
    }
  }

  /** Removing the element at `j`, the step both permutation proofs take. */
  lemma SplitAt<T>(b: seq<T>, j: nat)
    requires j < |b|
    ensures b == b[..j] + [b[j]] + b[j + 1..]
    ensures multiset(b[..j] + b[j + 1..]) == multiset(b) - multiset{b[j]}
  {
    assert b == b[..j] + [b[j]] + b[j + 1..];
  }

  lemma SumByParts<T>(p: seq<T>, x: T, q: seq<T>, f: T -> int)
    ensures SumBy(p + [x] + q, f) == f(x) + SumBy(p + q, f)
  {
    SumByAppend(p + [x], q, f);
    SumByAppend(p, [x], f);
    SumByAppend(p, q, f);
    assert SumBy([x], f) == f(x);
  }

  lemma SumByRemove<T>(b: seq<T>, j: nat, f: T -> int)
    requires j < |b|
    ensures SumBy(b, f) == f(b[j]) + SumBy(b[..j] + b[j + 1..], f)
  {
    SplitAt(b, j);
    SumByParts(b[..j], b[j], b[j + 1..], f);
  }

  /** Summing a reordering gives the same sum. */
  lemma {:induction false} SumByPermutation<T>(a: seq<T>, b: seq<T>, f: T -> int)
    requires multiset(a) == multiset(b)
    ensures SumBy(a, f) == SumBy(b, f)
    decreases |a|
  {
    if |a| == 0 {
      assert |multiset(b)| == 0;
    } else {
      assert a[0] in multiset(b);
      var j :| 0 <= j < |b| && b[j] == a[0];
      RemoveFirst(a, b, j);
      SumByPermutation(a[1..], b[..j] + b[j + 1..], f);
      SumByRemove(b, j, f);
    }
  }

  lemma RemoveFirst<T>(a: seq<T>, b: seq<T>, j: nat)
    requires multiset(a) == multiset(b) && 0 < |a| && j < |b| && b[j] == a[0]
    ensures multiset(a[1..]) == multiset(b[..j] + b[j + 1..])
  {
    SplitAt(b, j);
    assert a == [a[0]] + a[1..];
  }

  lemma {:induction false} MapSeqAppend<T, U>(a: seq<T>, b: seq<T>, f: T -> U)
    ensures MapSeq(a + b, f) == MapSeq(a, f) + MapSeq(b, f)
    decreases |a|
  {
    if |a| == 0 {
      assert a + b == b;
    } else {
      assert (a + b)[1..] == a[1..] + b;
      MapSeqAppend(a[1..], b, f);
    }
  }

  lemma MapSeqParts<T, U>(p: seq<T>, x: T, q: seq<T>, f: T -> U)
    ensures multiset(MapSeq(p + [x] + q, f)) == multiset{f(x)} + multiset(MapSeq(p + q, f))
  {
    MapSeqAppend(p + [x], q, f);
    MapSeqAppend(p, [x], f);
    MapSeqAppend(p, q, f);
    assert MapSeq([x], f) == [f(x)];
  }

  lemma MapSeqRemove<T, U>(b: seq<T>, j: nat, f: T -> U)
    requires j < |b|
    ensures multiset(MapSeq(b, f)) == multiset{f(b[j])} + multiset(MapSeq(b[..j] + b[j + 1..], f))
  {
    SplitAt(b, j);
    MapSeqParts(b[..j], b[j], b[j + 1..], f);
  }

  /** Mapping a reordering gives a reordering of the mapped sequence. */
  lemma {:induction false} MapSeqPermutation<T, U>(a: seq<T>, b: seq<T>, f: T -> U)
    requires multiset(a) == multiset(b)
    ensures multiset(MapSeq(a, f)) == multiset(MapSeq(b, f))
    decreases |a|
  {
    if |a| == 0 {
      assert |multiset(b)| == 0;
    } else {
      assert a[0] in multiset(b);
      var j :| 0 <= j < |b| && b[j] == a[0];
      RemoveFirst(a, b, j);
      MapSeqPermutation(a[1..], b[..j] + b[j + 1..], f);
      MapSeqRemove(b, j, f);
      assert MapSeq(a, f) == [f(a[0])] + MapSeq(a[1..], f);
    }
  }
}
