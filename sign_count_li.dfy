/** The sign-count laterality index of the noun/noise beta-power script
    (Code/Analysis/noun_noise_beta_power_bars.py) and that script's split of
    the frontal ROIs into hemispheres. Both are pure: a filter over a constant
    list, and sums of sign tests followed by a guarded division. */
module SignCountLI {
  import opened Laterality
  import opened ShenFrontal

  /** The 0-based index that separates the hemispheres in this script. */
  const Midline: int := 93

  /** The number of leading entries of a frontal beta-power vector that
      belong to the right hemisphere. */
  const RightCount: nat := 29

  /** `right_frontal_idx = frontal_rois[frontal_rois < 93]`, where
      `frontal_rois` is already shifted to 0-based indices. */
  function RightFrontalIdx(): seq<int>
  {
    Below(Shift(FrontalRois), Midline)
  }

  /** `left_frontal_idx = frontal_rois[frontal_rois > 93]`. */
  function LeftFrontalIdx(): seq<int>
  {
    Above(Shift(FrontalRois), Midline)
  }

  /** The right set is the first 29 shifted ROIs, the left set the last 28;
      the shifted ROI 93 (atlas region 94) sits between them and is in
      neither. */
  lemma FrontalHemispheres()
    ensures RightFrontalIdx() == Shift(FrontalRois)[..RightCount]
    ensures LeftFrontalIdx() == Shift(FrontalRois)[RightCount + 1..]
    ensures |RightFrontalIdx()| == 29 && |LeftFrontalIdx()| == 28
    ensures Shift(FrontalRois)[RightCount] == 93
    ensures 93 in Shift(FrontalRois) && 93 !in RightFrontalIdx() && 93 !in LeftFrontalIdx()
  {
    var s := Shift(FrontalRois);
    FrontalRuns();
    assert forall i :: 0 <= i < 29 ==> s[i] <= 91;
    assert forall i :: 30 <= i < 58 ==> s[i] >= 94;
    assert s[RightCount] == 93;
    BelowSplit(s, Midline, RightCount);
    AboveSplit(s, Midline, RightCount + 1);
  }

  /** `np.sum(a > 0)`. */
  function CountPositive(a: seq<real>): (r: nat)
    ensures r <= |a|
    decreases |a|
  {
    if |a| == 0 then 0
    else CountPositive(a[..|a| - 1]) + (if a[|a| - 1] > 0.0 then 1 else 0)
  }

  /** `np.sum(a <= 0)`. */
  function CountNonPositive(a: seq<real>): (r: nat)
    ensures r <= |a|
    decreases |a|
  {
    if |a| == 0 then 0
    else CountNonPositive(a[..|a| - 1]) + (if a[|a| - 1] <= 0.0 then 1 else 0)
  }

  /** `beta_power_diff[:29]`; numpy clamps the slice to a shorter array. */
  function RightPart(diff: seq<real>): seq<real>
  {
    if |diff| < RightCount then diff else diff[..RightCount]
  }

  /** `beta_power_diff[29:]`, empty for an array of at most 29 entries. */
  function LeftPart(diff: seq<real>): seq<real>
  {
    if |diff| < RightCount then [] else diff[RightCount..]
  }

  /** `compute_laterality_index`: entries positive on the right and
      non-positive on the left speak for the right hemisphere, the others
      against it, and the difference is divided by the number of entries. */
  function LateralityIndex(diff: seq<real>): (r: Index)
    ensures r.NaN? <==> |diff| == 0
    ensures r.Defined? ==> -1.0 <= r.value <= 1.0
  {
    var right, left := RightPart(diff), LeftPart(diff);
    SignCountsCover(right);
    SignCountsCover(left);
    assert right + left == diff;
    Ratio(Numerator(diff), |diff|)
  }

  /** Every entry is either positive or not: the two counts of a slice add
      up to its length, so the four counts of the index add up to the number
      of entries. */
  lemma {:induction false} SignCountsCover(a: seq<real>)
    ensures CountPositive(a) + CountNonPositive(a) == |a|
    decreases |a|
  {
    if |a| > 0 {
      SignCountsCover(a[..|a| - 1]);
    }
  }

  /** The four counts of the index add up to the number of entries, so the
      denominator `len(beta_power_diff)` counts every entry once. */
  lemma FourCountsCover(diff: seq<real>)
    ensures CountPositive(RightPart(diff)) + CountNonPositive(RightPart(diff))
            + CountPositive(LeftPart(diff)) + CountNonPositive(LeftPart(diff)) == |diff|
  {
    SignCountsCover(RightPart(diff));
    SignCountsCover(LeftPart(diff));
  }

  lemma {:induction false} AllPositive(a: seq<real>)
    ensures CountPositive(a) == |a| <==> forall i :: 0 <= i < |a| ==> a[i] > 0.0
    decreases |a|
  {
    if |a| > 0 {
      var init := a[..|a| - 1];
      AllPositive(init);
      assert forall i :: 0 <= i < |init| ==> init[i] == a[i];
    }
  }

  lemma {:induction false} AllNonPositive(a: seq<real>)
    ensures CountNonPositive(a) == |a| <==> forall i :: 0 <= i < |a| ==> a[i] <= 0.0
    decreases |a|
  {
    if |a| > 0 {
      var init := a[..|a| - 1];
      AllNonPositive(init);
      assert forall i :: 0 <= i < |init| ==> init[i] == a[i];
    }
  }

  /** The index is 1 exactly when every right entry is positive and every
      left entry is non-positive (and there is at least one entry). */
  lemma LateralityIndexIsOne(diff: seq<real>)
    ensures LateralityIndex(diff) == Defined(1.0) <==>
              |diff| > 0
              && (forall i :: 0 <= i < |diff| && i < RightCount ==> diff[i] > 0.0)
              && (forall i :: RightCount <= i < |diff| ==> diff[i] <= 0.0)
  {
    var right, left := RightPart(diff), LeftPart(diff);
    SignCountsCover(right);
    SignCountsCover(left);
    AllPositive(right);
    AllNonPositive(left);
    assert forall i :: 0 <= i < |right| ==> right[i] == diff[i];
    assert forall i :: RightCount <= i < |diff| ==> diff[i] == left[i - RightCount];
  }

  /** Sign-count equality: two vectors with the same sign pattern have the
      same counts. */
  lemma {:induction false} SameSignsSameCounts(a: seq<real>, b: seq<real>)
    requires |a| == |b|
    requires forall i :: 0 <= i < |a| ==> (a[i] > 0.0 <==> b[i] > 0.0)
    ensures CountPositive(a) == CountPositive(b)
    ensures CountNonPositive(a) == CountNonPositive(b)
    decreases |a|
  {
    if |a| > 0 {
      SameSignsSameCounts(a[..|a| - 1], b[..|b| - 1]);
    }
  }

  /** The index depends only on which entries are positive. */
  lemma SignPatternInvariance(a: seq<real>, b: seq<real>)
    requires |a| == |b|
    requires forall i :: 0 <= i < |a| ==> (a[i] > 0.0 <==> b[i] > 0.0)
    ensures LateralityIndex(a) == LateralityIndex(b)
  {
    SameSignsSameCounts(RightPart(a), RightPart(b));
    SameSignsSameCounts(LeftPart(a), LeftPart(b));
  }

  /** The vote of entry i: +1 when its sign agrees with its hemisphere
      (positive on the right, non-positive on the left), -1 otherwise. */
  function Vote(diff: seq<real>, i: nat): int
    requires i < |diff|
  {
    if (i < RightCount) == (diff[i] > 0.0) then 1 else -1
  }

  /** The sum of the votes of the first k entries. */
  function VoteSum(diff: seq<real>, k: nat): int
    requires k <= |diff|
  {
    if k == 0 then 0 else VoteSum(diff, k - 1) + Vote(diff, k - 1)
  }

  /** The numerator of the index, the right-agreeing count minus the
      disagreeing count. */
  function Numerator(diff: seq<real>): int
  {
    var right, left := RightPart(diff), LeftPart(diff);
    (CountPositive(right) + CountNonPositive(left)) - (CountNonPositive(right) + CountPositive(left))
  }

  /** Reference definition: the index is the mean vote of the entries. */
  lemma LateralityIndexIsMeanVote(diff: seq<real>)
    ensures LateralityIndex(diff) == Ratio(VoteSum(diff, |diff|), |diff|)
  {
    NumeratorIsVoteSum(diff);
    assert LateralityIndex(diff) == Ratio(Numerator(diff), |diff|);
  }

  /** The numerator is the sum of the votes. */
  lemma NumeratorIsVoteSum(diff: seq<real>)
    ensures Numerator(diff) == VoteSum(diff, |diff|)
  {
    if |diff| < RightCount {
      VoteSumRight(diff, |diff|);
      assert RightPart(diff) == diff[..|diff|];
    } else {
      VoteSumLeft(diff, |diff|);
      assert RightPart(diff) == diff[..RightCount];
      assert LeftPart(diff) == diff[RightCount..|diff|];
    }
  }

  lemma {:induction false} VoteSumRight(diff: seq<real>, k: nat)
    requires k <= |diff| && k <= RightCount
    ensures VoteSum(diff, k) == CountPositive(diff[..k]) - CountNonPositive(diff[..k])
  {
    if k > 0 {
      VoteSumRight(diff, k - 1);
      assert diff[..k][..k - 1] == diff[..k - 1];
    }
  }

  lemma {:induction false} VoteSumLeft(diff: seq<real>, k: nat)
    requires RightCount <= k <= |diff|
    ensures VoteSum(diff, k) == CountPositive(diff[..RightCount]) - CountNonPositive(diff[..RightCount])
                                + CountNonPositive(diff[RightCount..k]) - CountPositive(diff[RightCount..k])
  {
    if k == RightCount {
      VoteSumRight(diff, k);
    } else {
      VoteSumLeft(diff, k - 1);
      assert diff[RightCount..k][..k - 1 - RightCount] == diff[RightCount..k - 1];
    }
  }
}
