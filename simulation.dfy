/**
 * The estimator `simulate_process`, with its random draws given as input.
 * A draw is one row of the batch: the vectors x and y (N coordinates each)
 * and the scalars bx and by. Stage 0 keeps the rows with by > bx and gives
 * each the threshold d = by - bx; the coarse test keeps the rows whose
 * absolute group-mean difference is at most d in every group of
 * Partition(N, K1); among those, a row is a fine violation when that
 * difference reaches d in some group of Partition(N, K2). The result is the
 * fraction of violations among the coarse-valid rows, and their number, or
 * (0.0, 0) when no row is coarse-valid.
 */
module Simulation {
  import opened Masks
  import opened Grouping

  /** One draw, a row of the arrays x, y, bx and by. */
  datatype Draw = Draw(x: seq<real>, y: seq<real>, boundX: real, boundY: real)

  /** A row that survived stage 0, with its threshold d = by - bx. */
  datatype Kept = Kept(x: seq<real>, y: seq<real>, d: real)

  /** The estimator's pair (prob, n_c). */
  datatype EstimationResult = EstimationResult(prob: real, nCoarse: nat)

  /** Every draw has n coordinates in x and in y. */
  predicate Shaped(draws: seq<Draw>, n: nat) {
    forall i :: 0 <= i < |draws| ==> |draws[i].x| == n && |draws[i].y| == n
  }

  /** Every kept row has n coordinates in x and in y. */
  predicate KeptShaped(rows: seq<Kept>, n: nat) {
    forall s :: 0 <= s < |rows| ==> |rows[s].x| == n && |rows[s].y| == n
  }

  /** Every group is a non-empty range of coordinates 0 .. n-1. */
  predicate Fits(gs: seq<Group>, n: nat) {
    forall g :: 0 <= g < |gs| ==> 0 <= gs[g].start < gs[g].end <= n
  }

  function Sum(v: seq<real>): real {
    if v == [] then 0.0 else Sum(v[..|v| - 1]) + v[|v| - 1]
  }

  function Abs(r: real): real {
    if r < 0.0 then -r else r
  }

  /** `np.mean(v[idx])` over the coordinates of group g. */
  function GroupMean(v: seq<real>, g: Group): real
    requires 0 <= g.start < g.end <= |v|
  {
    Sum(v[g.start..g.end]) / (g.end - g.start) as real
  }

  /** The per-group statistic |mean(x over g) - mean(y over g)|. */
  function Stat(x: seq<real>, y: seq<real>, g: Group): real
    requires 0 <= g.start < g.end <= |x| && |y| == |x|
  {
    Abs(GroupMean(x, g) - GroupMean(y, g))
  }

  /** The coarse condition: the statistic is at most d in every group (`np.all(... <= d)`). */
  predicate CoarseOk(x: seq<real>, y: seq<real>, d: real, gs: seq<Group>)
    requires |y| == |x| && Fits(gs, |x|)
  {
    forall g :: 0 <= g < |gs| ==> Stat(x, y, gs[g]) <= d
  }

  /** The fine violation: the statistic reaches d in some group (`np.any(... >= d)`). */
  predicate FineViolation(x: seq<real>, y: seq<real>, d: real, gs: seq<Group>)
    requires |y| == |x| && Fits(gs, |x|)
  {
    exists g :: 0 <= g < |gs| && Stat(x, y, gs[g]) >= d
  }

  // ----- Reference definition: what the estimator counts, stated per draw.

  /** A draw is coarse-valid: it survives stage 0 and passes the coarse test with d = by - bx. */
  predicate CoarseValid(dr: Draw, coarse: seq<Group>)
    requires |dr.y| == |dr.x| && Fits(coarse, |dr.x|)
  {
    dr.boundY > dr.boundX && CoarseOk(dr.x, dr.y, dr.boundY - dr.boundX, coarse)
  }

  /** A draw is a fine violation: it is coarse-valid and fails the fine test. */
  predicate Violation(dr: Draw, coarse: seq<Group>, fine: seq<Group>)
    requires |dr.y| == |dr.x| && Fits(coarse, |dr.x|) && Fits(fine, |dr.x|)
  {
    CoarseValid(dr, coarse) && FineViolation(dr.x, dr.y, dr.boundY - dr.boundX, fine)
  }

  /** Which draws survive stage 0 (`by > bx`). */
  function OrderedMask(draws: seq<Draw>): (m: seq<bool>)
    ensures |m| == |draws|
    ensures forall i :: 0 <= i < |draws| ==> (m[i] <==> draws[i].boundY > draws[i].boundX)
  {
    seq(|draws|, i requires 0 <= i < |draws| => draws[i].boundY > draws[i].boundX)
  }

  /** Which draws are coarse-valid. */
  function CoarseValidMask(draws: seq<Draw>, n: nat, coarse: seq<Group>): (m: seq<bool>)
    requires Shaped(draws, n) && Fits(coarse, n)
    ensures |m| == |draws|
  {
    seq(|draws|, i requires 0 <= i < |draws| => CoarseValid(draws[i], coarse))
  }

  /** Which draws are fine violations. */
  function ViolationMask(draws: seq<Draw>, n: nat, coarse: seq<Group>, fine: seq<Group>): (m: seq<bool>)
    requires Shaped(draws, n) && Fits(coarse, n) && Fits(fine, n)
    ensures |m| == |draws|
  {
    seq(|draws|, i requires 0 <= i < |draws| => Violation(draws[i], coarse, fine))
  }

  /** The groups of Partition(n, k) fit the n coordinates. */
  lemma PartitionFits(n: nat, k: nat)
    requires k >= 1
    ensures Fits(Partition(n, k), n)
  {
    PartitionBounds(n, k);
  }

  /**
   * The estimate, counted directly over the draws: the number of
   * coarse-valid draws, and the fraction of them that are fine violations,
   * with (0.0, 0) when there is none.
   */
  function Estimate(draws: seq<Draw>, n: nat, k1: nat, k2: nat): EstimationResult
    requires k1 >= 1 && k2 >= 1 && Shaped(draws, n)
  {
    PartitionFits(n, k1);
    PartitionFits(n, k2);
    var valid := Count(CoarseValidMask(draws, n, Partition(n, k1)));
    var bad := Count(ViolationMask(draws, n, Partition(n, k1), Partition(n, k2)));
    if valid == 0 then EstimationResult(0.0, 0)
    else EstimationResult(bad as real / valid as real, valid)
  }

  // ----- The pipeline as the source runs it.

  /**
   * Stage 0: `mask = by > bx; x, y, bx, by = x[mask], ...; d = by - bx`.
   * The kept rows are the surviving draws in their original order, each
   * with a positive threshold.
   */
  function Stage0(draws: seq<Draw>): (kept: seq<Kept>)
    ensures |kept| == Count(OrderedMask(draws)) <= |draws|
    ensures forall k :: 0 <= k < |kept| ==> kept[k].d > 0.0
    ensures forall k :: 0 <= k < |kept| ==>
      var i := Indices(OrderedMask(draws))[k];
      draws[i].boundY > draws[i].boundX && kept[k] == Kept(draws[i].x, draws[i].y, draws[i].boundY - draws[i].boundX)
  {
    var mask := OrderedMask(draws);
    var rows := Select(draws, mask);
    SelectAt(draws, mask);
    seq(|rows|, k requires 0 <= k < |rows| => Kept(rows[k].x, rows[k].y, rows[k].boundY - rows[k].boundX))
  }

  /**
   * `diff = np.empty((len(rows), len(gs)))`, filled one group (column) at a
   * time with the statistic of every row.
   */
  method GroupDiffs(rows: seq<Kept>, gs: seq<Group>, n: nat) returns (diff: array2<real>)
    requires KeptShaped(rows, n) && Fits(gs, n)
    ensures fresh(diff)
    ensures diff.Length0 == |rows| && diff.Length1 == |gs|
    ensures forall s, g :: 0 <= s < |rows| && 0 <= g < |gs| ==> diff[s, g] == Stat(rows[s].x, rows[s].y, gs[g])
  {
    diff := new real[|rows|, |gs|];
    for g := 0 to |gs|
      invariant forall s, h :: 0 <= s < |rows| && 0 <= h < g ==> diff[s, h] == Stat(rows[s].x, rows[s].y, gs[h])
    {
      forall s | 0 <= s < |rows| {
        diff[s, g] := Stat(rows[s].x, rows[s].y, gs[g]);
      }
    }
  }

  /** The coarse test `np.all(coarse_diff <= d[:, None], axis=1)`. */
  method CoarseTest(rows: seq<Kept>, gs: seq<Group>, n: nat) returns (ok: seq<bool>)
    requires KeptShaped(rows, n) && Fits(gs, n)
    ensures |ok| == |rows|
    ensures forall s :: 0 <= s < |rows| ==> (ok[s] <==> CoarseOk(rows[s].x, rows[s].y, rows[s].d, gs))
  {
    var diff := GroupDiffs(rows, gs, n);
    ok := seq(|rows|, s requires 0 <= s < |rows| && s < diff.Length0 reads diff =>
      forall g :: 0 <= g < diff.Length1 ==> diff[s, g] <= rows[s].d);
  }

  /** The fine test `np.any(fine_diff >= d_c[:, None], axis=1)`. */
  method FineTest(rows: seq<Kept>, gs: seq<Group>, n: nat) returns (bad: seq<bool>)
    requires KeptShaped(rows, n) && Fits(gs, n)
    ensures |bad| == |rows|
    ensures forall s :: 0 <= s < |rows| ==> (bad[s] <==> FineViolation(rows[s].x, rows[s].y, rows[s].d, gs))
  {
    var diff := GroupDiffs(rows, gs, n);
    bad := seq(|rows|, s requires 0 <= s < |rows| && s < diff.Length0 reads diff =>
      exists g :: 0 <= g < diff.Length1 && diff[s, g] >= rows[s].d);
  }

  /**
   * `simulate_process` on given draws (n_samples == |draws|, N == n): the
   * filter-and-count pipeline computes exactly the estimate counted
   * directly over the draws.
   */
  method SimulateProcess(draws: seq<Draw>, n: nat, k1: nat, k2: nat) returns (prob: real, nC: nat)
    requires k1 >= 1 && k2 >= 1 && Shaped(draws, n)
    ensures EstimationResult(prob, nC) == Estimate(draws, n, k1, k2)
    ensures 0.0 <= prob <= 1.0
    ensures nC <= Count(OrderedMask(draws)) <= |draws|
  {
    var kept := Stage0(draws);
    var coarse := GetGroupsIndices(n, k1);
    var fine := GetGroupsIndices(n, k2);
    PartitionFits(n, k1);
    PartitionFits(n, k2);
    assert KeptShaped(kept, n);

    var coarseOk := CoarseTest(kept, coarse, n);
    CoarseCount(draws, n, coarse, kept, coarseOk);
    EstimateBounds(draws, n, k1, k2);
    if Count(coarseOk) == 0 {
      return 0.0, 0;
    }

    var keptC := Select(kept, coarseOk);
    SelectAt(kept, coarseOk);
    assert KeptShaped(keptC, n);
    var violation := FineTest(keptC, fine, n);
    ViolationCount(draws, n, coarse, fine, kept, coarseOk, keptC, violation);
    nC := |keptC|;
    prob := Mean(violation);
  }

  // ----- Lemmas connecting the pipeline to the reference definition.

  /** The coarse mask over the kept rows has as many true flags as the draws have coarse-valid ones. */
  lemma CoarseCount(draws: seq<Draw>, n: nat, coarse: seq<Group>, kept: seq<Kept>, ok: seq<bool>)
    requires Shaped(draws, n) && Fits(coarse, n)
    requires kept == Stage0(draws)
    requires |ok| == |kept|
    requires forall s :: 0 <= s < |kept| ==> (ok[s] <==> CoarseOk(kept[s].x, kept[s].y, kept[s].d, coarse))
    ensures Count(ok) == Count(CoarseValidMask(draws, n, coarse))
  {
    var m0 := OrderedMask(draws);
    var q := CoarseOkMask(draws, n, coarse);
    SelectAt(q, m0);
    var sel := Select(q, m0);
    forall k | 0 <= k < |ok| ensures ok[k] == sel[k] {
      var i := Indices(m0)[k];
      assert kept[k] == Kept(draws[i].x, draws[i].y, draws[i].boundY - draws[i].boundX);
    }
    assert ok == sel;
    CountSelect(q, m0);
    CoarseValidSplit(draws, n, coarse);
  }

  /** The coarse test applied to every draw with its own by - bx, whether or not it survives stage 0. */
  function CoarseOkMask(draws: seq<Draw>, n: nat, coarse: seq<Group>): (m: seq<bool>)
    requires Shaped(draws, n) && Fits(coarse, n)
    ensures |m| == |draws|
  {
    seq(|draws|, i requires 0 <= i < |draws| =>
      CoarseOk(draws[i].x, draws[i].y, draws[i].boundY - draws[i].boundX, coarse))
  }

  /** Coarse-valid means: surviving stage 0 and passing the coarse test. */
  lemma CoarseValidSplit(draws: seq<Draw>, n: nat, coarse: seq<Group>)
    requires Shaped(draws, n) && Fits(coarse, n)
    ensures And(OrderedMask(draws), CoarseOkMask(draws, n, coarse)) == CoarseValidMask(draws, n, coarse)
  {
  }

  /** The fine mask over the coarse-valid rows has as many true flags as the draws have violations. */
  lemma ViolationCount(draws: seq<Draw>, n: nat, coarse: seq<Group>, fine: seq<Group>,
                       kept: seq<Kept>, ok: seq<bool>, keptC: seq<Kept>, bad: seq<bool>)
    requires Shaped(draws, n) && Fits(coarse, n) && Fits(fine, n)
    requires kept == Stage0(draws)
    requires |ok| == |kept|
    requires forall s :: 0 <= s < |kept| ==> (ok[s] <==> CoarseOk(kept[s].x, kept[s].y, kept[s].d, coarse))
    requires keptC == Select(kept, ok) && KeptShaped(keptC, n)
    requires |bad| == |keptC|
    requires forall s :: 0 <= s < |keptC| ==> (bad[s] <==> FineViolation(keptC[s].x, keptC[s].y, keptC[s].d, fine))
    ensures Count(bad) == Count(ViolationMask(draws, n, coarse, fine))
  {
    FineCount(kept, n, fine, ok, keptC, bad);
    var m0 := OrderedMask(draws);
    var r := BothOkMask(draws, n, coarse, fine);
    KeptBoth(draws, n, coarse, fine, kept, ok);
    CountSelect(r, m0);
    ViolationSplit(draws, n, coarse, fine);
  }

  /** The fine test applied to every kept row. */
  function FineMask(rows: seq<Kept>, n: nat, fine: seq<Group>): (m: seq<bool>)
    requires KeptShaped(rows, n) && Fits(fine, n)
    ensures |m| == |rows|
  {
    seq(|rows|, s requires 0 <= s < |rows| => FineViolation(rows[s].x, rows[s].y, rows[s].d, fine))
  }

  /** Both tests applied to every draw with its own by - bx, whether or not it survives stage 0. */
  function BothOkMask(draws: seq<Draw>, n: nat, coarse: seq<Group>, fine: seq<Group>): (m: seq<bool>)
    requires Shaped(draws, n) && Fits(coarse, n) && Fits(fine, n)
    ensures |m| == |draws|
  {
    seq(|draws|, i requires 0 <= i < |draws| =>
      CoarseOk(draws[i].x, draws[i].y, draws[i].boundY - draws[i].boundX, coarse) &&
      FineViolation(draws[i].x, draws[i].y, draws[i].boundY - draws[i].boundX, fine))
  }

  /** Counting violations among the coarse-valid rows is counting rows that pass both masks. */
  lemma FineCount(kept: seq<Kept>, n: nat, fine: seq<Group>, ok: seq<bool>, keptC: seq<Kept>, bad: seq<bool>)
    requires KeptShaped(kept, n) && Fits(fine, n)
    requires |ok| == |kept|
    requires keptC == Select(kept, ok) && KeptShaped(keptC, n)
    requires |bad| == |keptC|
    requires forall s :: 0 <= s < |keptC| ==> (bad[s] <==> FineViolation(keptC[s].x, keptC[s].y, keptC[s].d, fine))
    ensures Count(bad) == Count(And(ok, FineMask(kept, n, fine)))
  {
    var v := FineMask(kept, n, fine);
    SelectAt(kept, ok);
    SelectAt(v, ok);
    var sel := Select(v, ok);
    forall k | 0 <= k < |bad| ensures bad[k] == sel[k] {
      var j := Indices(ok)[k];
      assert keptC[k] == kept[j];
    }
    assert bad == sel;
    CountSelect(v, ok);
  }

  /** Passing both masks on the kept rows is the stage-0 selection of passing both tests on the draws. */
  lemma KeptBoth(draws: seq<Draw>, n: nat, coarse: seq<Group>, fine: seq<Group>, kept: seq<Kept>, ok: seq<bool>)
    requires Shaped(draws, n) && Fits(coarse, n) && Fits(fine, n)
    requires kept == Stage0(draws)
    requires |ok| == |kept|
    requires forall s :: 0 <= s < |kept| ==> (ok[s] <==> CoarseOk(kept[s].x, kept[s].y, kept[s].d, coarse))
    ensures And(ok, FineMask(kept, n, fine)) == Select(BothOkMask(draws, n, coarse, fine), OrderedMask(draws))
  {
    var m0 := OrderedMask(draws);
    var r := BothOkMask(draws, n, coarse, fine);
    var lhs := And(ok, FineMask(kept, n, fine));
    SelectAt(r, m0);
    var sel := Select(r, m0);
    forall k | 0 <= k < |lhs| ensures lhs[k] == sel[k] {
      var i := Indices(m0)[k];
      assert kept[k] == Kept(draws[i].x, draws[i].y, draws[i].boundY - draws[i].boundX);
      assert FineMask(kept, n, fine)[k] == FineViolation(kept[k].x, kept[k].y, kept[k].d, fine);
      assert r[i] == (CoarseOk(draws[i].x, draws[i].y, draws[i].boundY - draws[i].boundX, coarse) &&
        FineViolation(draws[i].x, draws[i].y, draws[i].boundY - draws[i].boundX, fine));
    }
  }

  /** A violation means: surviving stage 0 and passing both tests. */
  lemma ViolationSplit(draws: seq<Draw>, n: nat, coarse: seq<Group>, fine: seq<Group>)
    requires Shaped(draws, n) && Fits(coarse, n) && Fits(fine, n)
    ensures And(OrderedMask(draws), BothOkMask(draws, n, coarse, fine)) == ViolationMask(draws, n, coarse, fine)
  {
  }

  /**
   * Bounds of the estimate: the count of coarse-valid draws is at most the
   * number of stage-0 survivors, which is at most the number of draws, and
   * the probability lies in [0, 1].
   */
  lemma EstimateBounds(draws: seq<Draw>, n: nat, k1: nat, k2: nat)
    requires k1 >= 1 && k2 >= 1 && Shaped(draws, n)
    ensures Estimate(draws, n, k1, k2).nCoarse <= Count(OrderedMask(draws)) <= |draws|
    ensures 0.0 <= Estimate(draws, n, k1, k2).prob <= 1.0
  {
    PartitionFits(n, k1);
    PartitionFits(n, k2);
    var coarse, fine := Partition(n, k1), Partition(n, k2);
    var valid := CoarseValidMask(draws, n, coarse);
    var bad := ViolationMask(draws, n, coarse, fine);
    CountMonotone(valid, OrderedMask(draws));
    CountMonotone(bad, valid);
    if Count(valid) > 0 {
      RatioBounds(Count(bad), Count(valid));
    }
  }

  /** A count divided by a larger positive count lies in [0, 1]. */
  lemma RatioBounds(a: nat, b: nat)
    requires a <= b && b > 0
    ensures 0.0 <= a as real / b as real <= 1.0
  {
  }

  /**
   * Zero support: n_c is the number of coarse-valid draws, and the
   * estimate is (0.0, 0) exactly when no draw is coarse-valid.
   */
  lemma EstimateSupport(draws: seq<Draw>, n: nat, k1: nat, k2: nat)
    requires k1 >= 1 && k2 >= 1 && Shaped(draws, n)
    ensures Fits(Partition(n, k1), n)
    ensures Estimate(draws, n, k1, k2).nCoarse == Count(CoarseValidMask(draws, n, Partition(n, k1)))
    ensures (Estimate(draws, n, k1, k2) == EstimationResult(0.0, 0)) <==>
      forall i :: 0 <= i < |draws| ==> !CoarseValid(draws[i], Partition(n, k1))
  {
    PartitionFits(n, k1);
    PartitionFits(n, k2);
    var valid := CoarseValidMask(draws, n, Partition(n, k1));
    CountZero(valid);
    assert forall i :: 0 <= i < |draws| ==> valid[i] == CoarseValid(draws[i], Partition(n, k1));
  }

  /**
   * A tie at exactly d counts both ways: the coarse test accepts it (`<=`)
   * and the fine test flags it (`>=`), so a coarse-valid draw whose
   * statistic equals d in some fine group is a violation.
   */
  lemma TieBoth(dr: Draw, coarse: seq<Group>, fine: seq<Group>, g: nat)
    requires |dr.y| == |dr.x| && Fits(coarse, |dr.x|) && Fits(fine, |dr.x|)
    requires CoarseValid(dr, coarse)
    requires g < |fine| && Stat(dr.x, dr.y, fine[g]) == dr.boundY - dr.boundX
    ensures Violation(dr, coarse, fine)
  {
  }

  /**
   * An instance of such a tie: with N = 1, K1 = K2 = 1, x = [1],
   * y = [1/2], bx = 0 and by = 1/2, the single draw is coarse-valid (1/2 <= 1/2)
   * and a fine violation (1/2 >= 1/2), so the estimate is (1.0, 1).
   */
  lemma TieCountsBoth()
    ensures Estimate([Draw([1.0], [0.5], 0.0, 0.5)], 1, 1, 1) == EstimationResult(1.0, 1)
  {
    var dr := Draw([1.0], [0.5], 0.0, 0.5);
    PartitionExamples();
    var gs := Partition(1, 1);
    assert gs == [Group(0, 1)];
    assert [1.0][0..1] == [1.0] && [0.5][0..1] == [0.5];
    assert Stat(dr.x, dr.y, gs[0]) == 0.5;
    assert CoarseValid(dr, gs) && Violation(dr, gs, gs);
    assert CoarseValidMask([dr], 1, gs) == [true];
    assert ViolationMask([dr], 1, gs, gs) == [true];
  }
}
