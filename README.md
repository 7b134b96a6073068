# Laterality indices and the virtual P-to-I transplant, in Dafny

This project models the analysis core of the WBMLangBetaERDS repository and
proves properties of it. That core has three parts:

- **The hybrid laterality index** (`Code/Analysis/LIHybrid_Age.py`), module `HybridLI`.
  - An empirical pass classifies every region of every subject by a Welch
    t-test of verb against noise trials: significant when p < 0.05, positive
    when t > 0.
  - It tallies the significant regions into four buckets: positive-right,
    negative-right, positive-left and negative-left. A region is right when
    its index is below half the number of regions.
  - The four counts become two indices, `LI` and `LI_neg`. Either is NaN when
    its denominator is zero.
  - A simulated pass reuses each subject's empirical mask. It takes every
    masked region's sign from one verb-minus-noise difference.
  - Results live in dictionaries keyed by subject ID. A repeated ID keeps its
    last row's results.
  - A subject's age is `int(sub[7:9])` of its ID.
- **The sign-count laterality index** (`Code/Analysis/noun_noise_beta_power_bars.py`), module `SignCountLI`.
  - Entries 0-28 of a 58-entry frontal difference vector count as right, the
    rest as left.
  - The index is agreeing entries minus disagreeing entries, over the number
    of entries.
  - The same script splits the frontal ROIs into hemispheres around the
    0-based index 93.
- **The virtual P-to-I transplant** (`Code/Analysis/virtual_P2I_transplant.py`), module `P2ITransplant`.
  - The fitted model's coupling matrix is cloned.
  - On the clone, the left-by-right and right-by-left frontal blocks are
    overwritten with a source group's average matrix.
  - The clone then replaces the model's matrix.
  - The script zero-pads the recording to 1500 time columns.
  - It builds a stimulus that is 5000 on time steps 100 to 139 and 0
    elsewhere.

Two modules are shared:

- `Laterality` holds the guarded division that both index formulas use
  (`num / den if den != 0 else nan`).
- `ShenFrontal` holds the list of 58 frontal Shen-atlas ROIs (the same list
  in both scripts) and numpy's order-preserving filters `a[a < b]` and
  `a[a > b]`.

The loops of `LIHybrid_Age.py` are Dafny methods with loop invariants. Each is
proved equal to a specification function:

- `ClassifyRegions` equals `EmpiricalMask`.
- `TallyEmpirical` and `TallySimulated` equal `Tally`.
- `EmpiricalLI`, `SimulatedLI` and `RunCohort` equal `Latest`, which is
  dictionary update with last-write-wins.

The lemmas about those functions state what the code promises. In the
transplant script, the fitted model is a class whose `array2` field is
replaced by a freshly built array. The noun/noise formula is pure, so it is
modelled as functions.

The code does three things a reader might not expect, and the model follows it:

- An overlapping mask is not rejected. A region listed both as positive and
  as negative is visited twice by the simulated tally.
  `HybridLI.SimulatedCountsTotal` states the count as |positive| + |negative|
  for any mask.
- Too few samples for a t-test do not raise. `ttest_ind` returns NaN for
  them, and the code then treats the region as not significant. Here the
  t-test results are inputs (see "Left out").
- In `noun_noise_beta_power_bars.py`, shifted index 93 (atlas region 94) is
  in neither hemisphere list (`SignCountLI.FrontalHemispheres`). In
  `virtual_P2I_transplant.py`, it belongs to the left list
  (`P2ITransplant.FrontalSplit`).

## Model

| member | source | states |
|---|---|---|
| Laterality.Ratio | Code/Analysis/LIHybrid_Age.py:55-61 | The guarded division is NaN exactly when the denominator is 0. It lies in [-1, 1] when the numerator is within ±denominator, and it is 1 exactly when the numerator equals the denominator. |
| ShenFrontal.FrontalRuns | Code/Analysis/noun_noise_beta_power_bars.py:18-22 | The 58 frontal ROIs are 29 atlas numbers from 2 to 92, then 94, then 28 numbers from 95 to 183. |
| ShenFrontal.ShiftedRuns | Code/Analysis/noun_noise_beta_power_bars.py:18-22 | After subtracting 1, the ROIs are 29 indices in 1..91, then 93, then 28 indices in 94..182. |
| ShenFrontal.Shift | Code/Analysis/noun_noise_beta_power_bars.py:22 | Definition of numpy's `a - 1`. Its ensures restate that definition pointwise (same length, every entry minus 1); ShiftedRuns and ShiftAppend use it. |
| ShenFrontal.Below | Code/Analysis/noun_noise_beta_power_bars.py:25 | `a[a < b]` holds exactly the values of `a` below `b`, and is no longer than `a`. BelowMultiplicity covers multiplicity and BelowSplit covers order. |
| ShenFrontal.BelowMultiplicity | Code/Analysis/noun_noise_beta_power_bars.py:25 | Every value below the bound occurs in `a[a < b]` as often as in `a`, and no other value occurs. |
| ShenFrontal.Above | Code/Analysis/noun_noise_beta_power_bars.py:26 | `a[a > b]` holds exactly the values of `a` above `b`, and is no longer than `a`. AboveMultiplicity covers multiplicity and AboveSplit covers order. |
| ShenFrontal.AboveMultiplicity | Code/Analysis/noun_noise_beta_power_bars.py:26 | Every value above the bound occurs in `a[a > b]` as often as in `a`, and no other value occurs. |
| ShenFrontal.BelowSplit | Code/Analysis/virtual_P2I_transplant.py:60 | On a list whose first k entries are below the bound and whose others are not, the filter keeps exactly the first k entries in order. |
| ShenFrontal.AboveSplit | Code/Analysis/virtual_P2I_transplant.py:61 | On a list whose first k entries are at most the bound and whose others are above it, the filter keeps exactly the entries from k on. |
| SignCountLI.RightFrontalIdx | Code/Analysis/noun_noise_beta_power_bars.py:25 | Definition of `frontal_rois[frontal_rois < 93]` on the shifted list; see FrontalHemispheres. |
| SignCountLI.LeftFrontalIdx | Code/Analysis/noun_noise_beta_power_bars.py:26 | Definition of `frontal_rois[frontal_rois > 93]` on the shifted list; see FrontalHemispheres. |
| SignCountLI.CountPositive | Code/Analysis/noun_noise_beta_power_bars.py:150-153 | Definition of `np.sum(a > 0)`, at most the length; see SignCountsCover, AllPositive and SameSignsSameCounts. |
| SignCountLI.CountNonPositive | Code/Analysis/noun_noise_beta_power_bars.py:151-154 | Definition of `np.sum(a <= 0)`, at most the length; see SignCountsCover, AllNonPositive and SameSignsSameCounts. |
| SignCountLI.RightPart | Code/Analysis/noun_noise_beta_power_bars.py:150-151 | Definition of `beta_power_diff[:29]`, clamped to shorter arrays as numpy does; see FourCountsCover and LateralityIndexIsOne. |
| SignCountLI.LeftPart | Code/Analysis/noun_noise_beta_power_bars.py:153-154 | Definition of `beta_power_diff[29:]`, empty for at most 29 entries; see FourCountsCover and LateralityIndexIsOne. |
| SignCountLI.Numerator | Code/Analysis/noun_noise_beta_power_bars.py:157 | Definition of `num`; see NumeratorIsVoteSum. |
| SignCountLI.FourCountsCover | Code/Analysis/noun_noise_beta_power_bars.py:150-158 | The four sign counts add up to `len(beta_power_diff)`, so the denominator counts each entry exactly once. |
| SignCountLI.FrontalHemispheres | Code/Analysis/noun_noise_beta_power_bars.py:17-26 | The right list is the first 29 shifted ROIs and the left list is the last 28. Shifted ROI 93 sits between them and is in neither. |
| SignCountLI.SignCountsCover | Code/Analysis/noun_noise_beta_power_bars.py:150-154 | `sum(a > 0) + sum(a <= 0)` is the length of the slice. |
| SignCountLI.AllPositive | Code/Analysis/noun_noise_beta_power_bars.py:150 | The positive count equals the length iff every entry is positive. |
| SignCountLI.AllNonPositive | Code/Analysis/noun_noise_beta_power_bars.py:151 | The non-positive count equals the length iff every entry is ≤ 0. |
| SignCountLI.LateralityIndex | Code/Analysis/noun_noise_beta_power_bars.py:135-160 | `compute_laterality_index` is NaN exactly for an empty vector and otherwise lies in [-1, 1]. |
| SignCountLI.LateralityIndexIsOne | Code/Analysis/noun_noise_beta_power_bars.py:150-160 | The index is 1 iff the vector is non-empty, every entry before 29 is positive and every entry from 29 on is ≤ 0. |
| SignCountLI.SameSignsSameCounts | Code/Analysis/noun_noise_beta_power_bars.py:150-154 | Two vectors with the same sign pattern have the same positive and non-positive counts. |
| SignCountLI.SignPatternInvariance | Code/Analysis/noun_noise_beta_power_bars.py:150-160 | The index depends only on which entries are positive. |
| SignCountLI.NumeratorIsVoteSum | Code/Analysis/noun_noise_beta_power_bars.py:157 | The numerator is the sum of per-entry votes. A vote is +1 when the sign agrees with the hemisphere and -1 otherwise. |
| SignCountLI.LateralityIndexIsMeanVote | Code/Analysis/noun_noise_beta_power_bars.py:140-160 | The index equals the mean vote over all entries, with the documented denominator. |
| HybridLI.EmpiricalMask | Code/Analysis/LIHybrid_Age.py:34-43 | Definition of the `{'positive', 'negative'}` entry of one subject; see EmpiricalMaskSpec and ClassifyRegions. |
| HybridLI.IsRight | Code/Analysis/LIHybrid_Age.py:48 | Definition of `i < len(idx) / 2` (also line 96) under exact division, as `2 * i < n`; see TallyHemisphere. |
| HybridLI.Bump | Code/Analysis/LIHybrid_Age.py:49-52 | Definition of one `counts[...] += 1`: bucket 0/2 for a positive sign, 1/3 otherwise, right/left by IsRight; see TallyAllPositive and TallyAllNegative. |
| HybridLI.Tally | Code/Analysis/LIHybrid_Age.py:46-52 | Definition of the counts after visiting the regions in order (the same loop shape at lines 94-100); see TallyTotal, TallyAppend, TallyPermutation, TallyOnlyListed and TallyHemisphere. |
| HybridLI.EmpiricalCounts | Code/Analysis/LIHybrid_Age.py:45-52 | Definition of a subject's empirical tally over its own mask and t signs; see EmpiricalCountsSplit and EmpiricalNoSignificantRegions. |
| HybridLI.SimulatedCounts | Code/Analysis/LIHybrid_Age.py:87-100 | Definition of a subject's simulated tally under a reused mask; see SimulatedCountsTotal, SimulatedCountsOnlyMasked and SimulatedCountsOrderFree. |
| HybridLI.ParseInt | Code/Analysis/LIHybrid_Age.py:130 | Definition of Python's `int(s)` on ASCII text: strip whitespace, an optional sign, decimal digits, otherwise None; see ParseTwoDigits and AgeOf. |
| HybridLI.SigRegions | Code/Analysis/LIHybrid_Age.py:34-41 | Every region listed among the first k tests has an index below k. |
| HybridLI.SigRegionsSpec | Code/Analysis/LIHybrid_Age.py:34-41 | x is listed iff x < k and test x is significant with that sign. The list is strictly increasing. |
| HybridLI.EmpiricalMaskSpec | Code/Analysis/LIHybrid_Age.py:34-43 | Region i is positive iff p < 0.05 and t > 0. It is negative iff p < 0.05 and t ≤ 0. The lists are disjoint, increasing and hold only region indices. |
| HybridLI.EmpiricalMaskNone | Code/Analysis/LIHybrid_Age.py:37-41 | A row without a p < 0.05 has an empty mask. |
| HybridLI.ClassifyRegions | Code/Analysis/LIHybrid_Age.py:29-43 | The classification loop builds exactly the empirical mask and the list of t statistics. |
| HybridLI.TallyEmpirical | Code/Analysis/LIHybrid_Age.py:46-52 | The empirical counting loop yields the tally of the visited regions, signed by `t_stats[i] > 0`. |
| HybridLI.TallySimulated | Code/Analysis/LIHybrid_Age.py:91-100 | The simulated counting loop yields the tally signed by `v_beta[s][region] - n_beta[s][region] > 0`. |
| HybridLI.TallyTotal | Code/Analysis/LIHybrid_Age.py:46-52 | Every visited region is counted exactly once. |
| HybridLI.TallyAppend | Code/Analysis/LIHybrid_Age.py:47 | Tallying `a + b` gives the sum of the tallies of `a` and `b`. |
| HybridLI.TallyAllPositive | Code/Analysis/LIHybrid_Age.py:49-50 | Regions with positive sign fill only the positive buckets, all of them. |
| HybridLI.TallyAllNegative | Code/Analysis/LIHybrid_Age.py:51-52 | Regions with non-positive sign fill only the negative buckets, all of them. |
| HybridLI.TallyHemisphere | Code/Analysis/LIHybrid_Age.py:48-52 | All-right regions leave the left buckets empty, and all-left regions leave the right buckets empty. |
| HybridLI.TallyOnlyListed | Code/Analysis/LIHybrid_Age.py:94-100 | Signs of unlisted regions do not affect the tally. |
| HybridLI.TallyPermutation | Code/Analysis/LIHybrid_Age.py:47 | Visiting a permutation of the regions gives the same counts. |
| HybridLI.LI | Code/Analysis/LIHybrid_Age.py:55-57 | `LI` is NaN iff nothing was counted and otherwise lies in [-1, 1]. It is 1 iff something was counted and the negative-right and positive-left buckets are empty. |
| HybridLI.LINeg | Code/Analysis/LIHybrid_Age.py:59-61 | `LI_neg` is NaN iff both negative buckets are empty and otherwise lies in [-1, 1]. It is 1 iff there is a negative-left count and no negative-right count. |
| HybridLI.EmpiricalCountsSplit | Code/Analysis/LIHybrid_Age.py:45-52 | The positive buckets add up to the number of positive regions, and the negative buckets to the number of negative regions. |
| HybridLI.EmpiricalNoSignificantRegions | Code/Analysis/LIHybrid_Age.py:37-61 | A subject without significant regions gets NaN for both indices. |
| HybridLI.SimulatedCountsTotal | Code/Analysis/LIHybrid_Age.py:94-104 | The simulated tally counts every masked entry once, so an overlapping region counts twice. An empty mask gives NaN for both indices. |
| HybridLI.SimulatedCountsOnlyMasked | Code/Analysis/LIHybrid_Age.py:94-100 | The simulated tally depends on the simulated rows only through the sign of the difference at masked regions. |
| HybridLI.SimulatedCountsOrderFree | Code/Analysis/LIHybrid_Age.py:94 | The masked regions may be visited in any order. |
| HybridLI.LastIndex | Code/Analysis/LIHybrid_Age.py:43 | Gives the position of the last occurrence of a subject ID, or -1 exactly when it is absent. |
| HybridLI.LastIndexDistinct | Code/Analysis/LIHybrid_Age.py:28 | With distinct IDs, each ID's last occurrence is its own position. |
| HybridLI.Latest | Code/Analysis/LIHybrid_Age.py:43 | The dictionary built by successive `d[subj] = value` has exactly the listed subjects as keys. |
| HybridLI.LatestSpec | Code/Analysis/LIHybrid_Age.py:43 | Each key maps to the value stored at its last occurrence. |
| HybridLI.EmpiricalLI | Code/Analysis/LIHybrid_Age.py:9-63 | The three returned dictionaries map each subject to the mask, `LI` and `LI_neg` of that subject's last row. |
| HybridLI.SimulatedLI | Code/Analysis/LIHybrid_Age.py:69-110 | The two returned dictionaries map each subject to `LI` and `LI_neg` of the simulated tally under the mask stored for it. |
| HybridLI.RunCohort | Code/Analysis/LIHybrid_Age.py:116-120 | The simulated pass runs under exactly the mask dictionary the empirical pass returned. |
| HybridLI.CohortFits | Code/Analysis/LIHybrid_Age.py:116-117 | The empirical mask dictionary meets the simulated pass's key and index demands whenever each kept mask fits its rows. |
| HybridLI.CohortDistinct | Code/Analysis/LIHybrid_Age.py:116-117 | With distinct IDs, subject s's simulated `LI` is computed under the empirical mask of row s. |
| HybridLI.AgeOf | Code/Analysis/LIHybrid_Age.py:130 | Two digits at positions 7 and 8 give the age 10·d7 + d8. An ID of at most 7 characters is rejected (None), as `int('')` raises. |
| HybridLI.ParseTwoDigits | Code/Analysis/LIHybrid_Age.py:130 | `int` of a two-digit string is its decimal value. |
| HybridLI.WorkedExampleEmpirical | Code/Analysis/LIHybrid_Age.py:29-61 | With four regions (0 positive-significant, 3 negative-significant), the mask is [0]/[3], the counts are (1, 0, 0, 1) and both indices are 1. |
| HybridLI.WorkedExampleSimulated | Code/Analysis/LIHybrid_Age.py:87-108 | The same mask with both simulated differences negative gives counts (0, 1, 0, 1) and both indices 0. |
| P2ITransplant.RFrontalIdx | Code/Analysis/virtual_P2I_transplant.py:60 | Definition of `R_Frontal_idx`; see RightIsLowRun and FrontalSplit. |
| P2ITransplant.LFrontalIdx | Code/Analysis/virtual_P2I_transplant.py:61 | Definition of `L_Frontal_idx`; see LeftIsHighRun and FrontalSplit. |
| P2ITransplant.WriteBlock | Code/Analysis/virtual_P2I_transplant.py:73-74 | Definition of `m[np.ix_(rows, cols)] = src[np.ix_(rows, cols)]` on values, keeping the shape; see BlocksCommute and WriteBlockInPlace. |
| P2ITransplant.Transplanted | Code/Analysis/virtual_P2I_transplant.py:66-76 | Definition of the L×R then R×L block writes, keeping the shape; see TransplantedCells, TransplantIdempotent and FittedModel.Transplant. |
| P2ITransplant.RightIsLowRun | Code/Analysis/virtual_P2I_transplant.py:60 | `R_Frontal_idx` is the first 29 ROIs, shifted. |
| P2ITransplant.LeftIsHighRun | Code/Analysis/virtual_P2I_transplant.py:61 | `L_Frontal_idx` is the last 29 ROIs, shifted. |
| P2ITransplant.FrontalSplit | Code/Analysis/virtual_P2I_transplant.py:54-61 | R and L concatenate to the shifted ROI list and have 29 entries each. Every R index is below every L index, so they are disjoint. All indices lie below 183, and 93 is on the left. |
| P2ITransplant.TransplantedCells | Code/Analysis/virtual_P2I_transplant.py:73-74 | A cell pairing one left and one right index, in either order, holds the source value. Every other cell keeps the model's value. |
| P2ITransplant.BlocksCommute | Code/Analysis/virtual_P2I_transplant.py:73-74 | The L×R and R×L block writes commute. |
| P2ITransplant.TransplantIdempotent | Code/Analysis/virtual_P2I_transplant.py:66-76 | Transplanting a second time changes nothing. |
| P2ITransplant.WriteBlockInPlace | Code/Analysis/virtual_P2I_transplant.py:73 | Assigning `m[np.ix_(rows, cols)]` sets exactly the block cells to the source's values and leaves every other cell as it was. |
| P2ITransplant.FittedModel.Transplant | Code/Analysis/virtual_P2I_transplant.py:66-76 | The model gets a fresh matrix equal to the transplant of its old one. The old matrix and the source are not changed. |
| P2ITransplant.TransplantFrontal | Code/Analysis/virtual_P2I_transplant.py:60-76 | The script's transplant with the frontal R and L lists, as a value-level transplant of the old matrix. |
| P2ITransplant.PadRecording | Code/Analysis/virtual_P2I_transplant.py:81-82 | Succeeds iff the recording has at most 1500 columns. It then returns a rows×1500 array holding the scaled data, with zeros after the data. |
| P2ITransplant.StimulusInput | Code/Analysis/virtual_P2I_transplant.py:103-104 | A nodes×hidden×time array that is 5000 at time steps 100..139 and 0 everywhere else. |

## Left out

- The Welch t-test (`ttest_ind`) is not modelled. Each region's (t, p) pair
  is an input, so the p < 0.05 and t > 0 decisions are modelled but the
  statistics themselves are not.
- NaN inputs are not modelled: a t-test that returns NaN for too few samples,
  and NaN beta values. Real comparisons here never see NaN, whereas the code
  treats a NaN p as not significant.
- Floating point is not modelled. Differences and divisions are exact reals,
  with no rounding.
- `i < len(idx) / 2` is Python true division, modelled exactly as `2 * i < n`.
- Loading data (`np.load`, `pickle`), Welch PSDs, beta-band averaging,
  DataFrames, regressions, plots and saving files are I/O or numerics outside
  this core.
- The simulation itself is not part of this model. This covers `F.test`, the
  Jansen-Rit model behind it, `dataloader`, and the mean-centred `data_mean`.
  The 1e13 scale of `PadRecording` and `hidden_size = int(tr / step_size)`
  are parameters.
- Torch dtype and device conversion (`.to(dtype, device)`) and `.detach()` are
  not modelled. The matrix is an array of reals.
- `P2ITransplant.FittedModel.Transplant` requires the source matrix to have
  the model matrix's shape and all indices in range. numpy also accepts other
  shapes as long as the indices fit, and wraps negative indices; the ROI
  lists have none.
- `HybridLI.AgeOf`: `int()` also accepts underscores between digits and
  non-ASCII digits and whitespace. Those forms are not modelled.
- `HybridLI.SimulatedLI` and `HybridLI.RunCohort`: a subject missing from the
  mask dictionary (Python KeyError) or a masked region beyond the simulated
  rows (IndexError) are crashes in the code. Here they are preconditions.
- `HybridLI.EmpiricalLI` requires one test result per region. The code
  iterates `range(len(idx))` and so needs that many.
- `PadRecording`: when the recording is wider than 1500 columns, numpy raises
  a broadcast error. Here that is the `ok == false` result.
