/**
 * The index partitioner `get_groups_indices(N, K)`: it splits the coordinate
 * indices 0 .. N-1 into contiguous blocks of width N div K, one block per
 * i < K whose span is non-empty, followed by one leftover block of width
 * N mod K when the division is inexact.
 */
module Grouping {

  /** A block of coordinate indices, the half-open range [start, end) (`np.arange(start, end)`). */
  datatype Group = Group(start: int, end: int) {
    function Width(): int { end - start }
    predicate Contains(j: int) { start <= j < end }
  }

  /** Regular group i, spanning [i * base, (i + 1) * base). */
  function RegularGroup(base: nat, i: nat): Group {
    Group(i * base, (i + 1) * base)
  }

  /**
   * The regular groups 0 .. k-1. Every one of them has width `base`, so
   * either all of them are emitted (base > 0) or none is (base == 0).
   */
  function Regular(base: nat, k: nat): seq<Group> {
    if base == 0 then [] else seq(k, i requires 0 <= i < k => RegularGroup(base, i))
  }

  /** The groups `get_groups_indices(n, k)` returns: the regular ones, then the leftover one. */
  function Partition(n: nat, k: nat): seq<Group>
    requires k >= 1
  {
    Regular(n / k, k) + (if n % k > 0 then [Group(k * (n / k), n)] else [])
  }

  /**
   * `gs` tiles [lo, hi): the first group starts at lo, each group is
   * non-empty, each one starts where the previous one ends, and the last
   * one ends at hi (no groups at all when lo == hi).
   */
  predicate Chain(gs: seq<Group>, lo: int, hi: int)
    decreases |gs|
  {
    if gs == [] then lo == hi
    else gs[0].start == lo && gs[0].start < gs[0].end && Chain(gs[1..], gs[0].end, hi)
  }

  /** The loop of `get_groups_indices`, appending each non-empty regular group and then the leftover one. */
  method GetGroupsIndices(n: nat, k: nat) returns (groups: seq<Group>)
    requires k >= 1
    ensures groups == Partition(n, k)
    ensures Chain(groups, 0, n)
  {
    groups := [];
    var base := n / k;
    var remainder := n % k;
    for i := 0 to k
      invariant groups == if base == 0 then [] else seq(i, j requires 0 <= j < i => RegularGroup(base, j))
    {
      var start, end := i * base, (i + 1) * base;
      assert end == start + base;
      if end > start {
        groups := groups + [Group(start, end)];
      }
    }
    if remainder > 0 {
      groups := groups + [Group(k * base, n)];
    }
    PartitionTiles(n, k);
  }

  /** Two chains that meet at `mid` concatenate to one chain. */
  lemma {:induction false} ChainAppend(a: seq<Group>, b: seq<Group>, lo: int, mid: int, hi: int)
    requires Chain(a, lo, mid) && Chain(b, mid, hi)
    ensures Chain(a + b, lo, hi)
  {
    if a == [] {
      assert a + b == b;
    } else {
      assert (a + b)[1..] == a[1..] + b;
      ChainAppend(a[1..], b, a[0].end, mid, hi);
    }
  }

  /** The regular groups of a positive width tile [0, k * base). */
  lemma {:induction false} RegularTiles(base: nat, k: nat)
    requires base > 0
    ensures Chain(Regular(base, k), 0, k * base)
  {
    if k > 0 {
      RegularTiles(base, k - 1);
      assert Regular(base, k) == Regular(base, k - 1) + [RegularGroup(base, k - 1)];
      assert k * base == (k - 1) * base + base;
      assert Chain([RegularGroup(base, k - 1)], (k - 1) * base, k * base) by {
        assert [RegularGroup(base, k - 1)][1..] == [];
      }
      ChainAppend(Regular(base, k - 1), [RegularGroup(base, k - 1)], 0, (k - 1) * base, k * base);
    }
  }

  /** The partition tiles [0, n): ascending, contiguous, non-empty groups from 0 to n. */
  lemma PartitionTiles(n: nat, k: nat)
    requires k >= 1
    ensures Chain(Partition(n, k), 0, n)
  {
    var base, r := n / k, n % k;
    assert n == k * base + r;
    var rest := if r > 0 then [Group(k * base, n)] else [];
    assert Chain(rest, k * base, n) by {
      if r > 0 { assert rest[1..] == []; }
    }
    if base == 0 {
      assert Partition(n, k) == rest;
    } else {
      RegularTiles(base, k);
      ChainAppend(Regular(base, k), rest, 0, k * base, n);
    }
  }

  /**
   * A chain lies within [lo, hi) and is strictly ascending: each group ends
   * no later than any later group starts.
   */
  lemma {:induction false} ChainOrdered(gs: seq<Group>, lo: int, hi: int)
    requires Chain(gs, lo, hi)
    ensures lo <= hi
    ensures forall i :: 0 <= i < |gs| ==> lo <= gs[i].start < gs[i].end <= hi
    ensures forall a, b :: 0 <= a < b < |gs| ==> gs[a].end <= gs[b].start
  {
    if gs != [] {
      ChainOrdered(gs[1..], gs[0].end, hi);
      forall i | 0 < i < |gs| ensures gs[i] == gs[1..][i - 1] { }
    }
  }

  /** Some group of `gs` contains index j. */
  predicate Covered(gs: seq<Group>, j: int) {
    exists i :: 0 <= i < |gs| && gs[i].Contains(j)
  }

  /** An index lies in [lo, hi) exactly when some group of the chain contains it. */
  lemma {:induction false} ChainCovers(gs: seq<Group>, lo: int, hi: int)
    requires Chain(gs, lo, hi)
    ensures forall j :: lo <= j < hi <==> Covered(gs, j)
  {
    ChainOrdered(gs, lo, hi);
    if gs != [] {
      ChainCovers(gs[1..], gs[0].end, hi);
      forall j | lo <= j < hi ensures Covered(gs, j) {
        if !gs[0].Contains(j) {
          assert Covered(gs[1..], j);
          var i' :| 0 <= i' < |gs[1..]| && gs[1..][i'].Contains(j);
          assert gs[i' + 1].Contains(j);
        }
      }
    }
  }

  /**
   * Coverage and disjointness: every index 0 .. n-1 lies in exactly one
   * group of `Partition(n, k)`, and no other index lies in any group.
   */
  lemma PartitionCovers(n: nat, k: nat)
    requires k >= 1
    ensures forall j :: 0 <= j < n <==> Covered(Partition(n, k), j)
    ensures forall a, b, j ::
      (0 <= a < |Partition(n, k)| && 0 <= b < |Partition(n, k)| &&
       Partition(n, k)[a].Contains(j) && Partition(n, k)[b].Contains(j)) ==> a == b
  {
    PartitionTiles(n, k);
    ChainCovers(Partition(n, k), 0, n);
    ChainOrdered(Partition(n, k), 0, n);
  }

  /**
   * Every group is a non-empty range inside [0, n), groups are strictly
   * ascending, and there are between 1 and k + 1 of them when n >= 1.
   */
  lemma PartitionBounds(n: nat, k: nat)
    requires k >= 1
    ensures forall i :: 0 <= i < |Partition(n, k)| ==>
      0 <= Partition(n, k)[i].start < Partition(n, k)[i].end <= n
    ensures forall a, b :: 0 <= a < b < |Partition(n, k)| ==> Partition(n, k)[a].end <= Partition(n, k)[b].start
    ensures n >= 1 ==> 1 <= |Partition(n, k)| <= k + 1
    ensures n == 0 ==> Partition(n, k) == []
  {
    PartitionTiles(n, k);
    ChainOrdered(Partition(n, k), 0, n);
  }

  /**
   * With k <= n, group i (i < k) is exactly [i * (n div k), (i + 1) * (n div k)),
   * and there are k groups when k divides n and k + 1 otherwise.
   */
  lemma PartitionRegularShape(n: nat, k: nat)
    requires 1 <= k <= n
    ensures |Partition(n, k)| == if n % k == 0 then k else k + 1
    ensures forall i :: 0 <= i < k ==> Partition(n, k)[i] == Group(i * (n / k), (i + 1) * (n / k))
  {
  }

  /** With k > n, no regular group is emitted and the single group is [0, n). */
  lemma PartitionOversized(n: nat, k: nat)
    requires 1 <= n < k
    ensures Partition(n, k) == [Group(0, n)]
  {
  }

  /** When k does not divide n, the last group is [k * (n div k), n), of width n mod k. */
  lemma PartitionLeftover(n: nat, k: nat)
    requires k >= 1 && n % k > 0
    ensures |Partition(n, k)| >= 1
    ensures Partition(n, k)[|Partition(n, k)| - 1] == Group(k * (n / k), n)
    ensures Partition(n, k)[|Partition(n, k)| - 1].Width() == n % k
  {
  }

  /** Worked cases of the partition, including the oversized one (3, 5). */
  lemma PartitionExamples()
    ensures Partition(5, 1) == [Group(0, 5)]
    ensures Partition(4, 2) == [Group(0, 2), Group(2, 4)]
    ensures Partition(5, 2) == [Group(0, 2), Group(2, 4), Group(4, 5)]
    ensures Partition(3, 5) == [Group(0, 3)]
  {
  }
}
