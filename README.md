# Two-stage group test estimator, modelled in Dafny

The program is a Monte Carlo estimator written in Python with NumPy. It draws
paired vectors `x`, `y` in [0,1]^N and scalars `bx`, `by`. It keeps the
draws with `by > bx`, and each kept draw gets the threshold `d = by - bx`. A
kept draw is *coarse-valid* when, for every group of `get_groups_indices(N, K1)`,
the absolute difference between the mean of `x` and the mean of `y` over the
group is at most `d`. Among the coarse-valid draws, a draw is a *fine
violation* when that difference reaches `d` in at least one group of
`get_groups_indices(N, K2)`. The estimator returns the fraction of violations
among the coarse-valid draws and their number `n_c`, or `(0.0, 0)` when no draw
is coarse-valid.

The model has three modules:

- `Grouping` (groups.dfy) covers the partitioner. `Partition(n, k)` is the
  closed-form list of groups. `GetGroupsIndices` is the source's loop, proved
  equal to `Partition`. The lemmas state that the groups tile `[0, n)`: they
  are non-empty, ascending and contiguous, every index lies in exactly one
  group, and the shape is fixed when `k <= n` and when `k > n`. A group is
  the half-open range `Group(start, end)`, the `np.arange(start, end)` of
  the source.
- `Masks` (masks.dfy) covers the NumPy boolean-mask operations the estimator
  uses: `mask.sum()` is `Count`, `a[mask]` is `Select` and `mask.mean()` is
  `Mean`. `Indices` gives the positions that a selection keeps, and
  `CountSelect` counts through a selection.
- `Simulation` (simulation.dfy) covers `simulate_process`. The random draws
  are given as a sequence of `Draw` rows, so `n_samples` is the number of
  rows. Every mask in the source is applied to `x`, `y`, `bx` and `by`
  together, so one sequence of rows stands for those four parallel arrays.
  `SimulateProcess` follows the source step by step:
  - the stage-0 mask (`Stage0`);
  - the two partitions (`GetGroupsIndices`);
  - the per-group difference matrices, filled one group column at a time
    (`GroupDiffs`);
  - the AND test (`CoarseTest`) and the early return when it passes nowhere;
  - the selection of the coarse-valid rows;
  - the OR test (`FineTest`) and the mean of the violation mask.

  Its contract says that it returns exactly `Estimate`. `Estimate` is a
  reference definition that counts coarse-valid draws and violations
  directly over the original draws, with no compaction in between.

Numbers are exact `real`s. The group mean is the sum over the group divided
by the group's width.

Two facts about the code that a reader of the docstring might not expect:
- The docstring of `get_groups_indices` (pyscript/mp_simulation.py:5) says it
  partitions the indices "into K groups". For `K > N` the code emits no
  regular group, because `N // K == 0`, and then one leftover group `[0, N)`.
  So it returns one group, not K groups of width 1. The model follows the
  code.
- The second result (line 92) is `n_c`, the number of coarse-valid draws, as
  the docstring of `simulate_process` says. It is not the number of draws
  that survive the `by > bx` filter.

## Model

| member | source | states |
|---|---|---|
| `Grouping.GetGroupsIndices` | pyscript/mp_simulation.py:4-20 | The loop's result equals the closed-form partition: regular groups `[i*base, (i+1)*base)` kept only when non-empty, then `[K*base, N)` when `N mod K > 0`. The result tiles `[0, N)`. |
| `Grouping.PartitionTiles` | pyscript/mp_simulation.py:7-18 | The groups start at 0, each is non-empty, each starts where the previous one ends, and the last ends at N. |
| `Grouping.PartitionCovers` | pyscript/mp_simulation.py:4-20 | Every index `0 <= j < N` lies in some group, no other index lies in any group, and no index lies in two groups. |
| `Grouping.PartitionBounds` | pyscript/mp_simulation.py:11-18 | Every group is a non-empty range inside `[0, N)`, and groups are strictly ascending. For `N >= 1` there are between 1 and K+1 groups; for `N = 0` there are none. |
| `Grouping.PartitionRegularShape` | pyscript/mp_simulation.py:7-18 | For `K <= N`, group `i < K` is exactly `[i*(N div K), (i+1)*(N div K))`. There are K groups when `N mod K == 0` and K+1 otherwise. |
| `Grouping.PartitionOversized` | pyscript/mp_simulation.py:7-18 | For `K > N >= 1`, the result is the single group `[0, N)`. |
| `Grouping.PartitionLeftover` | pyscript/mp_simulation.py:17-18 | When `N mod K > 0`, the last group is `[K*(N div K), N)`, and its width is `N mod K`. |
| `Grouping.PartitionExamples` | pyscript/mp_simulation.py:4-20 | `(5,1)` gives `[0,5)`. `(4,2)` gives `[0,2),[2,4)`. `(5,2)` gives `[0,2),[2,4),[4,5)`. `(3,5)` gives `[0,3)`. |
| `Grouping.ChainOrdered` | pyscript/mp_simulation.py:11-18 | A tiling of `[lo, hi)` stays within `[lo, hi)`, and each group ends no later than any later group starts. |
| `Grouping.ChainCovers` | pyscript/mp_simulation.py:11-18 | An index is in `[lo, hi)` if and only if some group of a tiling of `[lo, hi)` contains it. |
| `Masks.Count` | pyscript/mp_simulation.py:75 | `mask.sum()` is at most the mask's length. |
| `Masks.CountZero` | pyscript/mp_simulation.py:75 | `mask.sum() == 0` if and only if no flag is set. |
| `Masks.Select` | pyscript/mp_simulation.py:57 | `s[mask]` has exactly `mask.sum()` elements. |
| `Masks.Indices` | pyscript/mp_simulation.py:78 | The positions kept by a mask are in strictly increasing order, they are in range, and each of them is set in the mask. Their number is the mask's count. |
| `Masks.SelectAt` | pyscript/mp_simulation.py:57 | The k-th element of `s[mask]` is the element of `s` at the k-th set position, so selection keeps order. |
| `Masks.CountSelect` | pyscript/mp_simulation.py:78-89 | Counting a mask `q` after selecting by `m` gives the count of `m & q`. |
| `Masks.Mean` | pyscript/mp_simulation.py:90 | `mask.mean()` lies in `[0, 1]`, and multiplied by the length it gives `mask.sum()`. |
| `Masks.CountMonotone` | pyscript/mp_simulation.py:78-90 | A mask that implies another mask pointwise has no larger count. |
| `Simulation.Stage0` | pyscript/mp_simulation.py:56-58 | The kept rows number `(by > bx).sum() <= n_samples`. Each has `d > 0`. Kept row k is the k-th surviving draw, with `d = by - bx`. |
| `Simulation.PartitionFits` | pyscript/mp_simulation.py:61-62 | Every group of the partition is a non-empty range of the N coordinates, so each group mean is defined. |
| `Simulation.GroupDiffs` | pyscript/mp_simulation.py:66-71 | A fresh `rows x groups` matrix whose cell `(s, g)` holds `abs(mean(x[s] over g) - mean(y[s] over g))`, filled one group column at a time. |
| `Simulation.CoarseTest` | pyscript/mp_simulation.py:68-73 | Flag s is set if and only if row s has statistic `<= d` in every coarse group. |
| `Simulation.FineTest` | pyscript/mp_simulation.py:84-89 | Flag s is set if and only if row s has statistic `>= d` in some fine group. |
| `Simulation.SimulateProcess` | pyscript/mp_simulation.py:56-92 | The pipeline returns exactly `Estimate`. `0 <= prob <= 1`, and `n_c <= survivors <= n_samples`. |
| `Simulation.CoarseCount` | pyscript/mp_simulation.py:73-81 | The count of the coarse mask over the kept rows equals the number of draws that are coarse-valid by the per-draw definition. |
| `Simulation.CoarseValidSplit` | pyscript/mp_simulation.py:56-73 | Proof step, unfolding the definitions at the level of masks: the coarse-valid mask is the stage-0 mask AND the coarse test applied to every draw with its own `by - bx`. |
| `Simulation.ViolationCount` | pyscript/mp_simulation.py:78-90 | The count of the fine mask over the coarse-valid rows equals the number of draws that are violations by the per-draw definition. |
| `Simulation.FineCount` | pyscript/mp_simulation.py:78-89 | Counting fine violations among the selected coarse-valid rows is the same as counting kept rows that pass both tests. |
| `Simulation.KeptBoth` | pyscript/mp_simulation.py:56-89 | "Passes both tests" on the kept rows is the stage-0 selection of "passes both tests" on the draws. |
| `Simulation.ViolationSplit` | pyscript/mp_simulation.py:56-89 | Proof step, unfolding the definitions at the level of masks: the violation mask is the stage-0 mask AND both tests applied to every draw with its own `by - bx`. |
| `Simulation.EstimateBounds` | pyscript/mp_simulation.py:56-92 | `n_c <= (by > bx).sum() <= n_samples`, and `prob` lies in `[0, 1]`. |
| `Simulation.EstimateSupport` | pyscript/mp_simulation.py:75-81 | `n_c` is the number of coarse-valid draws. The result is `(0.0, 0)` if and only if no draw is coarse-valid. |
| `Simulation.TieBoth` | pyscript/mp_simulation.py:73-89 | A coarse-valid draw whose statistic in some fine group equals its `d = by - bx` is also a fine violation, because the coarse test uses `<=` and the fine test uses `>=`. |
| `Simulation.TieCountsBoth` | pyscript/mp_simulation.py:73-89 | An example of such a tie: the one draw `x=[1], y=[0.5], bx=0, by=0.5` with `N = K1 = K2 = 1` gives `(1.0, 1)`. |

## Left out

- Random generation and seeding (`np.random.seed`, `np.random.rand`, lines 47-54): the draws are a parameter of `SimulateProcess`. Whether a seed makes runs repeat is a property of NumPy, not of this code.
- Floating point: every mean, difference and absolute value is an exact `real`. IEEE-754 rounding, including rounding that could create or break a tie at `d`, is not modelled.
- The range of the draws, uniform on [0, 1], is not assumed. The model holds for any real inputs.
- The statistical claims: that about half the samples survive stage 0, and that the violation rate tends to grow with K2. They hold only in distribution, not per run.
- The `__main__` driver, the `(K1, K2)` sweep and the printing (lines 95-116): these are presentation only.
- NumPy's 2-D arrays and vectorised expressions as such: each row of `x`, `y` is a sequence, each mask is a sequence of booleans, and a column assignment of the difference matrix is a `forall` statement.
- `np.empty` leaves the matrix uninitialised, and so does the model: a new Dafny `array2` holds arbitrary values. Every cell is written before it is read, so the initial contents are never observable.
- Rows whose length is not `N`, and negative `N` in `simulate_process`: `np.random.rand` raises for a negative size (line 51), and every row it draws has length `N`. So `SimulateProcess` requires rows of length `N`, and `N` is a `nat`.
- GetGroupsIndices: takes `n: nat`, so it does not model a negative `N`. The source does not raise there: `get_groups_indices(-3, 2)` returns the single array `[-4]`.
- GetGroupsIndices: requires `k >= 1`, as do `Partition` and `SimulateProcess`. For `K = 0`, `N // K` raises. A negative `K`, which the source does not reject, is outside the documented contract of positive group counts and is not modelled. For `K < 0` the source returns no groups, because `range(K)` is empty and `N % K <= 0`. `simulate_process` would then count every survivor as coarse-valid, because `np.all` over zero columns is true (line 73).
