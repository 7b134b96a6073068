/** The 58 frontal regions of interest of the Shen atlas, numbered from 1 as
    the atlas does, and the order-preserving filters that both analysis
    scripts apply to them (numpy's boolean-mask indexing `a[a < b]`). */
module ShenFrontal {

  /** The frontal ROI list, 1-based atlas numbers in increasing order. It is
      written as its two runs, the atlas numbers up to 92 and those from 94
      on, only so that facts about single entries stay cheap to prove; the
      list itself is the 58-entry list of both scripts. */
  const FrontalRois: seq<int> := LowRois + HighRois

  const LowRois: seq<int> :=
    [2, 7, 10, 17, 18, 24, 25, 26, 28, 30, 31, 33,
     37, 38, 42, 50, 56, 59, 61, 62, 65, 66, 68, 71,
     77, 78, 83, 91, 92]

  const HighRois: seq<int> :=
    [94, 96, 98, 99, 100, 101, 102, 103,
     108, 110, 113, 117, 125, 126, 129, 132, 133, 135, 137,
     140, 142, 150, 158, 161, 172, 178, 180, 182, 183]

  /** The two runs: 29 atlas numbers from 2 to 92, then 94 followed by 28
      atlas numbers from 95 to 183. */
  lemma FrontalRuns()
    ensures |LowRois| == 29 && |HighRois| == 29 && |FrontalRois| == 58
    ensures forall i :: 0 <= i < 29 ==> 2 <= LowRois[i] <= 92
    ensures HighRois[0] == 94 && forall i :: 1 <= i < 29 ==> 95 <= HighRois[i] <= 183
    ensures forall i :: 0 <= i < 58 ==> FrontalRois[i] == if i < 29 then LowRois[i] else HighRois[i - 29]
  {
  }

  /** The same runs as 0-based indices: 29 indices from 1 to 91, then 93
      followed by 28 indices from 94 to 182. */
  lemma ShiftedRuns()
    ensures Shift(FrontalRois) == Shift(LowRois) + Shift(HighRois)
    ensures |Shift(LowRois)| == 29 && |Shift(HighRois)| == 29
    ensures forall i :: 0 <= i < 29 ==> 1 <= Shift(LowRois)[i] <= 91
    ensures Shift(HighRois)[0] == 93 && forall i :: 1 <= i < 29 ==> 94 <= Shift(HighRois)[i] <= 182
  {
    ShiftAppend(LowRois, HighRois);
    assert forall i :: 0 <= i < 29 ==> 1 <= Shift(LowRois)[i] <= 91 by {
      FrontalRuns();
    }
    assert forall i :: 1 <= i < 29 ==> 94 <= Shift(HighRois)[i] <= 182 by {
      FrontalRuns();
    }
  }

  lemma ShiftAppend(a: seq<int>, b: seq<int>)
    ensures Shift(a + b) == Shift(a) + Shift(b)
  {
  }

  /** `a[a < bound]`: the entries below the bound, in their original order. */
  function Below(a: seq<int>, bound: int): (r: seq<int>)
    ensures |r| <= |a|
    ensures forall x :: x in r <==> x in a && x < bound
    decreases |a|
  {
    if |a| == 0 then []
    else Below(a[..|a| - 1], bound) + (if a[|a| - 1] < bound then [a[|a| - 1]] else [])
  }

  /** `a[a > bound]`: the entries above the bound, in their original order. */
  function Above(a: seq<int>, bound: int): (r: seq<int>)
    ensures |r| <= |a|
    ensures forall x :: x in r <==> x in a && x > bound
    decreases |a|
  {
    if |a| == 0 then []
    else Above(a[..|a| - 1], bound) + (if a[|a| - 1] > bound then [a[|a| - 1]] else [])
  }

  /** `a[a < bound]` keeps every occurrence of a value below the bound: each
      such value occurs in the result as often as in `a`, others not at all. */
  lemma {:induction false} BelowMultiplicity(a: seq<int>, bound: int)
    ensures forall x :: multiset(Below(a, bound))[x] == if x < bound then multiset(a)[x] else 0
    decreases |a|
  {
    if |a| > 0 {
      var init, last := a[..|a| - 1], a[|a| - 1];
      BelowMultiplicity(init, bound);
      assert a == init + [last];
      assert multiset(a) == multiset(init) + multiset{last};
    }
  }

  /** `a[a > bound]` keeps every occurrence of a value above the bound. */
  lemma {:induction false} AboveMultiplicity(a: seq<int>, bound: int)
    ensures forall x :: multiset(Above(a, bound))[x] == if x > bound then multiset(a)[x] else 0
    decreases |a|
  {
    if |a| > 0 {
      var init, last := a[..|a| - 1], a[|a| - 1];
      AboveMultiplicity(init, bound);
      assert a == init + [last];
      assert multiset(a) == multiset(init) + multiset{last};
    }
  }

  /** `a - 1` elementwise: atlas numbers to 0-based row indices. */
  function Shift(a: seq<int>): (r: seq<int>)
    ensures |r| == |a|
    ensures forall k :: 0 <= k < |a| ==> r[k] == a[k] - 1
  {
    seq(|a|, k requires 0 <= k < |a| => a[k] - 1)
  }

  /** On a list whose first k entries are below the bound and whose other
      entries are not, `Below` keeps exactly the first k entries. */
  lemma {:induction false} BelowSplit(a: seq<int>, bound: int, k: nat)
    requires k <= |a|
    requires forall i :: 0 <= i < k ==> a[i] < bound
    requires forall i :: k <= i < |a| ==> a[i] >= bound
    ensures Below(a, bound) == a[..k]
    decreases |a|
  {
    if |a| > 0 {
      var init := a[..|a| - 1];
      if |a| == k {
        BelowSplit(init, bound, k - 1);
        assert init[..k - 1] + [a[k - 1]] == a[..k];
      } else {
        BelowSplit(init, bound, k);
        assert init[..k] == a[..k];
      }
    }
  }

  /** On a list whose first k entries are at most the bound and whose other
      entries are above it, `Above` keeps exactly the entries from k on. */
  lemma {:induction false} AboveSplit(a: seq<int>, bound: int, k: nat)
    requires k <= |a|
    requires forall i :: 0 <= i < k ==> a[i] <= bound
    requires forall i :: k <= i < |a| ==> a[i] > bound
    ensures Above(a, bound) == a[k..]
    decreases |a|
  {
    if |a| > 0 {
      var init := a[..|a| - 1];
      if |a| == k {
        AboveSplit(init, bound, k - 1);
      } else {
        AboveSplit(init, bound, k);
        assert init[k..] + [a[|a| - 1]] == a[k..];
      }
    }
  }
}
