/**
 * Boolean masks over a batch of samples, as the estimator uses them:
 * `mask.sum()` is Count, `s[mask]` is Select and `mask.mean()` is Mean.
 * Select keeps the selected elements in their original order. Indices and
 * And are proof helpers: Indices names the positions a selection keeps, and
 * And is the pointwise conjunction the counting lemmas are stated with.
 */
module Masks {

  /** Number of true flags in the mask (`mask.sum()`). */
  function Count(m: seq<bool>): (c: nat)
    ensures c <= |m|
  {
    if m == [] then 0
    else Count(m[..|m| - 1]) + (if m[|m| - 1] then 1 else 0)
  }

  /** Boolean-mask indexing `s[m]`: the elements of `s` whose flag is set, in order. */
  function Select<T>(s: seq<T>, m: seq<bool>): (r: seq<T>)
    requires |s| == |m|
    ensures |r| == Count(m)
  {
    if s == [] then []
    else Select(s[..|s| - 1], m[..|m| - 1]) + (if m[|m| - 1] then [s[|s| - 1]] else [])
  }

  /** Proof helper: the positions whose flag is set, in increasing order. */
  function Indices(m: seq<bool>): (r: seq<nat>)
    ensures |r| == Count(m)
    ensures forall k :: 0 <= k < |r| ==> r[k] < |m| && m[r[k]]
    ensures forall a, b :: 0 <= a < b < |r| ==> r[a] < r[b]
  {
    if m == [] then []
    else Indices(m[..|m| - 1]) + (if m[|m| - 1] then [|m| - 1] else [])
  }

  /** Proof helper: the pointwise conjunction of two masks of the same length. */
  function And(a: seq<bool>, b: seq<bool>): (r: seq<bool>)
    requires |a| == |b|
    ensures |r| == |a|
    ensures forall i :: 0 <= i < |r| ==> (r[i] <==> a[i] && b[i])
  {
    seq(|a|, i requires 0 <= i < |a| => a[i] && b[i])
  }

  /** Fraction of true flags (`mask.mean()` on a non-empty boolean array). */
  function Mean(m: seq<bool>): (r: real)
    requires |m| > 0
    ensures 0.0 <= r <= 1.0
    ensures r * (|m| as real) == Count(m) as real
  {
    Count(m) as real / |m| as real
  }

  /** The k-th selected element is the element at the k-th selected position. */
  lemma {:induction false} SelectAt<T>(s: seq<T>, m: seq<bool>)
    requires |s| == |m|
    ensures forall k :: 0 <= k < |Select(s, m)| ==> Select(s, m)[k] == s[Indices(m)[k]]
  {
    if s != [] {
      var n := |s| - 1;
      SelectAt(s[..n], m[..n]);
      assert s[..n][..] == s[..n];
      forall k | 0 <= k < |Select(s[..n], m[..n])|
        ensures s[..n][Indices(m[..n])[k]] == s[Indices(m[..n])[k]]
      {
      }
    }
  }

  /** Counting the selected flags of a mask `q` is counting where both `m` and `q` hold. */
  lemma {:induction false} CountSelect(q: seq<bool>, m: seq<bool>)
    requires |q| == |m|
    ensures Count(Select(q, m)) == Count(And(m, q))
  {
    if q != [] {
      var n := |q| - 1;
      var both := And(m, q);
      var front := Select(q[..n], m[..n]);
      CountSelect(q[..n], m[..n]);
      assert both[..n] == And(m[..n], q[..n]);
      assert Count(both) == Count(front) + (if m[n] && q[n] then 1 else 0);
      if m[n] {
        assert Select(q, m) == front + [q[n]];
        CountAppend(front, [q[n]]);
        assert Count([q[n]]) == if q[n] then 1 else 0 by {
          assert [q[n]][..0] == [];
        }
      } else {
        assert Select(q, m) == front + [];
        assert front + [] == front;
      }
    }
  }

  /** A mask counts zero exactly when no flag is set. */
  lemma {:induction false} CountZero(m: seq<bool>)
    ensures Count(m) == 0 <==> forall i :: 0 <= i < |m| ==> !m[i]
  {
    if m != [] {
      var n := |m| - 1;
      CountZero(m[..n]);
      assert forall i :: 0 <= i < n ==> m[..n][i] == m[i];
    }
  }

  /** Count distributes over concatenation. */
  lemma {:induction false} CountAppend(a: seq<bool>, b: seq<bool>)
    ensures Count(a + b) == Count(a) + Count(b)
  {
    if b == [] {
      assert a + b == a;
    } else {
      var n := |b| - 1;
      assert (a + b)[..|a + b| - 1] == a + b[..n];
      CountAppend(a, b[..n]);
    }
  }

  /** A mask that implies another pointwise has no more true flags. */
  lemma {:induction false} CountMonotone(a: seq<bool>, b: seq<bool>)
    requires |a| == |b|
    requires forall i :: 0 <= i < |a| ==> a[i] ==> b[i]
    ensures Count(a) <= Count(b)
  {
    if a != [] {
      var n := |a| - 1;
      CountMonotone(a[..n], b[..n]);
    }
  }
}
