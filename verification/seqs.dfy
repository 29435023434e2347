/** Sequence helpers for the two array operations the request handlers rely on:
    `filter` (keep every match, in order) and `find` (the first match). */
module Seqs {

  datatype Option<+T> = None | Some(value: T)

  /** `a` is obtained from `b` by deleting elements, without reordering the rest. */
  predicate Subseq<T(==)>(a: seq<T>, b: seq<T>)
    decreases |b|
  {
    if |a| == 0 then true
    else if |b| == 0 then false
    else (a[0] == b[0] && Subseq(a[1..], b[1..])) || Subseq(a, b[1..])
  }

  lemma {:induction false} SubseqReflexive<T>(s: seq<T>)
    ensures Subseq(s, s)
  {
    if |s| != 0 {
      SubseqReflexive(s[1..]);
    }
  }

  /** The number of positions of `s` whose element satisfies `keep`. */
  function Count<T>(s: seq<T>, keep: T -> bool): nat
  {
    if |s| == 0 then 0 else (if keep(s[0]) then 1 else 0) + Count(s[1..], keep)
  }

  /** The elements of `s` that satisfy `keep`, in their original order
      (JavaScript `Array.prototype.filter`). Being an order-preserving
      sub-sequence made only of kept elements, and as long as the number of
      kept positions, pins the result down: it picks every kept position. */
  function Filter<T(==,!new)>(s: seq<T>, keep: T -> bool): (r: seq<T>)
    ensures forall x :: x in r <==> x in s && keep(x)
    ensures Subseq(r, s)
    ensures |r| == Count(s, keep)
  {
    if |s| == 0 then []
    else
      var rest := Filter(s[1..], keep);
      assert s == [s[0]] + s[1..];
      if keep(s[0]) then [s[0]] + rest else rest
  }

  /** `i` is the position of the first element of `s` that satisfies `p`. */
  predicate IsFirst<T>(s: seq<T>, p: T -> bool, i: int)
  {
    0 <= i < |s| && p(s[i]) && forall j :: 0 <= j < i ==> !p(s[j])
  }

  /** The index of the first element of `s` that satisfies `p`, if any
      (JavaScript `Array.prototype.find`, returning the position so that the
      caller can update the element in place). */
  function FindIndex<T>(s: seq<T>, p: T -> bool): (r: Option<nat>)
    ensures r.None? <==> forall i :: 0 <= i < |s| ==> !p(s[i])
    ensures r.Some? ==> IsFirst(s, p, r.value)
    ensures forall i :: IsFirst(s, p, i) ==> r == Some(i)
  {
    if |s| == 0 then None
    else if p(s[0]) then Some(0)
    else match FindIndex(s[1..], p)
      case None => None
      case Some(i) => Some(i + 1)
  }

  /** Filtering distributes over concatenation: the result keeps the order of the input. */
  lemma {:induction false} FilterAppend<T(!new)>(a: seq<T>, b: seq<T>, keep: T -> bool)
    ensures Filter(a + b, keep) == Filter(a, keep) + Filter(b, keep)
  {
    if |a| == 0 {
      assert a + b == b;
    } else {
      assert (a + b)[1..] == a[1..] + b;
      FilterAppend(a[1..], b, keep);
    }
  }

  /** Filtering twice with the same predicate is filtering once. */
  lemma {:induction false} FilterIdempotent<T(!new)>(s: seq<T>, keep: T -> bool)
    ensures Filter(Filter(s, keep), keep) == Filter(s, keep)
  {
    if |s| != 0 {
      FilterIdempotent(s[1..], keep);
      var rest := Filter(s[1..], keep);
      if keep(s[0]) {
        assert ([s[0]] + rest)[1..] == rest;
      }
    }
  }

  /** Filtering leaves a sequence unchanged exactly when every element is kept. */
  lemma {:induction false} FilterKeepsAll<T(!new)>(s: seq<T>, keep: T -> bool)
    ensures Filter(s, keep) == s <==> forall i :: 0 <= i < |s| ==> keep(s[i])
  {
    if |s| != 0 {
      FilterKeepsAll(s[1..], keep);
      if Filter(s, keep) == s {
        assert forall i :: 0 <= i < |s| ==> s[i] in s;
      }
      if forall i :: 0 <= i < |s| ==> keep(s[i]) {
        assert forall i :: 0 <= i < |s[1..]| ==> keep(s[1..][i]) by {
          forall i | 0 <= i < |s[1..]| ensures keep(s[1..][i]) {
            assert s[1..][i] == s[i + 1];
          }
        }
      }
    }
  }
}
