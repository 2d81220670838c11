/**
 * Sequence notions shared by several parts of the model: the deduplication a
 * JavaScript `Set` (or `Map` keys) performs, which keeps first-occurrence order,
 * and order-preserving subsequences, which `Array.prototype.filter` produces.
 */
module Seqs {

  predicate NoDuplicates<T(==)>(s: seq<T>) {
    forall i, j | 0 <= i < j < |s| :: s[i] != s[j]
  }

  /** The index of the first occurrence of `x` in `s`. */
  function FirstIndex<T(==)>(s: seq<T>, x: T): (k: nat)
    requires x in s
    ensures k < |s| && s[k] == x
    ensures forall j | 0 <= j < k :: s[j] != x
  {
    if s[0] == x then 0 else 1 + FirstIndex(s[1..], x)
  }

  /** `Array.from(new Set(s))`: each distinct element once, in the order of its
      first occurrence (a `Set` keeps insertion order and ignores re-insertion). */
  function Distinct<T(==)>(s: seq<T>): (r: seq<T>)
    ensures NoDuplicates(r)
    ensures forall i | 0 <= i < |r| :: r[i] in s
    ensures forall i | 0 <= i < |s| :: s[i] in r
    ensures |r| <= |s|
  {
    if s == [] then []
    else
      var r := Distinct(s[..|s| - 1]);
      assert forall i | 0 <= i < |s| - 1 :: s[i] == s[..|s| - 1][i];
      if s[|s| - 1] in r then r else r + [s[|s| - 1]]
  }

  /** Extending a sequence does not move the first occurrence of an element already present. */
  lemma FirstIndexOfPrefix<T>(s: seq<T>, n: nat, x: T)
    requires n <= |s| && x in s[..n]
    ensures FirstIndex(s, x) == FirstIndex(s[..n], x)
  {
    var k := FirstIndex(s[..n], x);
    var m := FirstIndex(s, x);
    assert s[k] == s[..n][k] == x;
    assert forall j | 0 <= j < k :: s[j] == s[..n][j] != x;
  }

  /** The elements of `Distinct(s)` appear in the order of their first occurrence in `s`. */
  lemma {:induction false} DistinctFirstOccurrenceOrder<T>(s: seq<T>)
    ensures forall i, j | 0 <= i < j < |Distinct(s)| ::
      FirstIndex(s, Distinct(s)[i]) < FirstIndex(s, Distinct(s)[j])
  {
    if s != [] {
      var n := |s| - 1;
      var rp := Distinct(s[..n]);
      DistinctFirstOccurrenceOrder(s[..n]);
      PrefixOrderKept(s, n, rp);
      if s[n] !in rp {
        var r := rp + [s[n]];
        forall j | 0 <= j < n
          ensures s[j] != s[n]
        {
          assert s[j] == s[..n][j];
        }
        FirstIndexOfNew(s, n);
        forall i, j | 0 <= i < j < |r|
          ensures FirstIndex(s, r[i]) < FirstIndex(s, r[j])
        {
          assert r[i] == rp[i];
          if j < |rp| {
            assert r[j] == rp[j];
          }
        }
      }
    }
  }

  /** An element that does not occur before position `n` first occurs there. */
  lemma FirstIndexOfNew<T>(s: seq<T>, n: nat)
    requires n < |s| && forall j | 0 <= j < n :: s[j] != s[n]
    ensures FirstIndex(s, s[n]) == n
  {
  }

  /** Elements ordered by first occurrence in a prefix stay so ordered in the whole sequence,
      and all occur before the prefix ends. */
  lemma PrefixOrderKept<T>(s: seq<T>, n: nat, r: seq<T>)
    requires n <= |s|
    requires forall i | 0 <= i < |r| :: r[i] in s[..n]
    requires forall i, j | 0 <= i < j < |r| :: FirstIndex(s[..n], r[i]) < FirstIndex(s[..n], r[j])
    ensures forall i | 0 <= i < |r| :: FirstIndex(s, r[i]) < n
    ensures forall i, j | 0 <= i < j < |r| :: FirstIndex(s, r[i]) < FirstIndex(s, r[j])
  {
    forall i | 0 <= i < |r|
      ensures FirstIndex(s, r[i]) == FirstIndex(s[..n], r[i])
    {
      FirstIndexOfPrefix(s, n, r[i]);
    }
  }

  /** `a` can be obtained from `b` by deleting elements, keeping the rest in order. */
  predicate IsSubsequence<T(==)>(a: seq<T>, b: seq<T>)
    decreases |b|
  {
    if a == [] then true
    else if b == [] then false
    else if a[0] == b[0] then IsSubsequence(a[1..], b[1..])
    else IsSubsequence(a, b[1..])
  }

  lemma {:induction false} SubsequenceOfItself<T>(s: seq<T>)
    ensures IsSubsequence(s, s)
  {
    if s != [] {
      SubsequenceOfItself(s[1..]);
    }
  }

  /** Putting an element in front of the longer sequence keeps a subsequence one. */
  lemma {:induction false} SubsequenceSkip<T>(a: seq<T>, b: seq<T>, x: T)
    requires IsSubsequence(a, b)
    ensures IsSubsequence(a, [x] + b)
    decreases |b|, 1
  {
    assert ([x] + b)[1..] == b;
    if a != [] && a[0] == x {
      SubsequenceTail(a, b);
    }
  }

  /** Dropping the first element of the shorter sequence keeps a subsequence one. */
  lemma {:induction false} SubsequenceTail<T>(a: seq<T>, b: seq<T>)
    requires a != [] && IsSubsequence(a, b)
    ensures IsSubsequence(a[1..], b)
    decreases |b|, 0
  {
    if a[0] != b[0] {
      SubsequenceTail(a, b[1..]);
    }
    SubsequenceSkip(a[1..], b[1..], b[0]);
    assert [b[0]] + b[1..] == b;
  }
}
