/** The hybrid laterality index of Code/Analysis/LIHybrid_Age.py.

    An empirical pass classifies each region of each subject by the result of
    a Welch t-test (verb trials against noise trials): significant when
    p < 0.05, positive when the statistic is positive. The significant
    regions are tallied into four hemisphere-by-sign buckets and reduced to
    two indices. A simulated pass reuses the empirical significance mask and
    takes each masked region's sign from a single verb-minus-noise
    difference. The t-test itself is an input: one (t, p) pair per region. */
module HybridLI {
  import opened Laterality

  type Subject = string

  /** The outcome of `ttest_ind(v_beta[s][i], n_beta[s][i], equal_var=False)`. */
  datatype TestResult = TestResult(t: real, p: real)

  /** The per-subject significance mask: `{'positive': [...], 'negative': [...]}`. */
  datatype Mask = Mask(positive: seq<nat>, negative: seq<nat>)

  /** The tally `[pos_right, neg_right, pos_left, neg_left]`. */
  datatype Counts = Counts(posRight: nat, negRight: nat, posLeft: nat, negLeft: nat)

  const Alpha: real := 0.05

  /** Region test r is significant with the given sign. */
  predicate Significant(r: TestResult, positive: bool)
  {
    r.p < Alpha && (r.t > 0.0) == positive
  }

  /** The significant regions of the given sign among the first k, in
      increasing order, as the classification loop appends them. */
  function SigRegions(row: seq<TestResult>, k: nat, positive: bool): (r: seq<nat>)
    requires k <= |row|
    ensures RegionsBelow(r, k)
  {
    if k == 0 then []
    else SigRegions(row, k - 1, positive) + (if Significant(row[k - 1], positive) then [k - 1] else [])
  }

  /** Membership, order and range of the significant-region lists. */
  lemma {:induction false} SigRegionsSpec(row: seq<TestResult>, k: nat, positive: bool)
    requires k <= |row|
    ensures forall x: nat :: x in SigRegions(row, k, positive) <==> x < k && Significant(row[x], positive)
    ensures forall a, b :: 0 <= a < b < |SigRegions(row, k, positive)| ==>
              SigRegions(row, k, positive)[a] < SigRegions(row, k, positive)[b]
  {
    if k > 0 {
      SigRegionsSpec(row, k - 1, positive);
    }
  }

  /** The empirical mask of one subject. */
  function EmpiricalMask(row: seq<TestResult>): Mask
  {
    Mask(SigRegions(row, |row|, true), SigRegions(row, |row|, false))
  }

  /** `sig_positive_regions + sig_negative_regions`: the regions a tally visits. */
  function MaskRegions(m: Mask): seq<nat>
  {
    m.positive + m.negative
  }

  /** Region i is positive-significant iff p < 0.05 and t > 0, and
      negative-significant iff p < 0.05 and t <= 0; the two lists are
      disjoint, strictly increasing and hold only indices of regions. */
  lemma EmpiricalMaskSpec(row: seq<TestResult>)
    ensures forall i: nat :: i in EmpiricalMask(row).positive <==> i < |row| && row[i].p < Alpha && row[i].t > 0.0
    ensures forall i: nat :: i in EmpiricalMask(row).negative <==> i < |row| && row[i].p < Alpha && row[i].t <= 0.0
    ensures forall i: nat :: !(i in EmpiricalMask(row).positive && i in EmpiricalMask(row).negative)
    ensures StrictlyIncreasing(EmpiricalMask(row).positive) && StrictlyIncreasing(EmpiricalMask(row).negative)
    ensures RegionsBelow(MaskRegions(EmpiricalMask(row)), |row|)
  {
    SigRegionsSpec(row, |row|, true);
    SigRegionsSpec(row, |row|, false);
  }

  predicate StrictlyIncreasing(a: seq<nat>)
  {
    forall i, j :: 0 <= i < j < |a| ==> a[i] < a[j]
  }

  /** Every listed region indexes a sequence of length n. */
  predicate RegionsBelow(regions: seq<nat>, n: nat)
  {
    forall k :: 0 <= k < |regions| ==> regions[k] < n
  }

  /** `t_stats` as the classification loop builds it. */
  function TStats(row: seq<TestResult>): (r: seq<real>)
    ensures |r| == |row|
  {
    seq(|row|, i requires 0 <= i < |row| => row[i].t)
  }

  /** `v_beta[s][region] - n_beta[s][region]`, for every region both rows hold. */
  function Diffs(v: seq<real>, nb: seq<real>): (r: seq<real>)
    ensures |r| == if |v| < |nb| then |v| else |nb|
  {
    seq(if |v| < |nb| then |v| else |nb|, i requires 0 <= i < |v| && i < |nb| => v[i] - nb[i])
  }

  /** Which regions count as positive for a tally: value > 0. */
  function Positives(values: seq<real>): (r: seq<bool>)
    ensures |r| == |values|
  {
    seq(|values|, i requires 0 <= i < |values| => values[i] > 0.0)
  }

  /** `right = i < len(idx) / 2`, under real division. */
  predicate IsRight(i: nat, n: nat)
  {
    2 * i < n
  }

  function Total(c: Counts): nat
  {
    c.posRight + c.negRight + c.posLeft + c.negLeft
  }

  function Add(a: Counts, b: Counts): Counts
  {
    Counts(a.posRight + b.posRight, a.negRight + b.negRight, a.posLeft + b.posLeft, a.negLeft + b.negLeft)
  }

  /** One increment: `counts[0 if right else 2] += 1` for a positive region,
      `counts[1 if right else 3] += 1` otherwise. */
  function Bump(c: Counts, right: bool, positive: bool): Counts
  {
    if positive then
      (if right then c.(posRight := c.posRight + 1) else c.(posLeft := c.posLeft + 1))
    else
      (if right then c.(negRight := c.negRight + 1) else c.(negLeft := c.negLeft + 1))
  }

  /** The counts a tally loop reaches after visiting `regions` in order,
      where `positive[r]` says whether region r falls into a positive bucket
      and n is the number of regions. */
  function Tally(regions: seq<nat>, positive: seq<bool>, n: nat): Counts
    requires RegionsBelow(regions, |positive|)
    decreases |regions|
  {
    if |regions| == 0 then Counts(0, 0, 0, 0)
    else
      var last := regions[|regions| - 1];
      Bump(Tally(regions[..|regions| - 1], positive, n), IsRight(last, n), positive[last])
  }

  /** Every visited region is counted exactly once. */
  lemma {:induction false} TallyTotal(regions: seq<nat>, positive: seq<bool>, n: nat)
    requires RegionsBelow(regions, |positive|)
    ensures Total(Tally(regions, positive, n)) == |regions|
    decreases |regions|
  {
    if |regions| > 0 {
      TallyTotal(regions[..|regions| - 1], positive, n);
    }
  }

  /** The tally of two lists visited one after the other is the sum of
      their tallies. */
  lemma {:induction false} TallyAppend(a: seq<nat>, b: seq<nat>, positive: seq<bool>, n: nat)
    requires RegionsBelow(a, |positive|) && RegionsBelow(b, |positive|)
    ensures RegionsBelow(a + b, |positive|)
    ensures Tally(a + b, positive, n) == Add(Tally(a, positive, n), Tally(b, positive, n))
    decreases |b|
  {
    if |b| > 0 {
      var b' := b[..|b| - 1];
      assert (a + b)[..|a + b| - 1] == a + b';
      assert (a + b)[|a + b| - 1] == b[|b| - 1];
      TallyAppend(a, b', positive, n);
    } else {
      assert a + b == a;
    }
  }

  /** Regions whose sign is positive land only in the positive buckets. */
  lemma {:induction false} TallyAllPositive(regions: seq<nat>, positive: seq<bool>, n: nat)
    requires RegionsBelow(regions, |positive|)
    requires forall k :: 0 <= k < |regions| ==> positive[regions[k]]
    ensures Tally(regions, positive, n).negRight == 0 && Tally(regions, positive, n).negLeft == 0
    ensures Tally(regions, positive, n).posRight + Tally(regions, positive, n).posLeft == |regions|
    decreases |regions|
  {
    if |regions| > 0 {
      TallyAllPositive(regions[..|regions| - 1], positive, n);
    }
  }

  /** Regions whose sign is not positive land only in the negative buckets. */
  lemma {:induction false} TallyAllNegative(regions: seq<nat>, positive: seq<bool>, n: nat)
    requires RegionsBelow(regions, |positive|)
    requires forall k :: 0 <= k < |regions| ==> !positive[regions[k]]
    ensures Tally(regions, positive, n).posRight == 0 && Tally(regions, positive, n).posLeft == 0
    ensures Tally(regions, positive, n).negRight + Tally(regions, positive, n).negLeft == |regions|
    decreases |regions|
  {
    if |regions| > 0 {
      TallyAllNegative(regions[..|regions| - 1], positive, n);
    }
  }

  /** Right regions land only in the right buckets, left regions only in the
      left buckets. */
  lemma {:induction false} TallyHemisphere(regions: seq<nat>, positive: seq<bool>, n: nat)
    requires RegionsBelow(regions, |positive|)
    ensures (forall k :: 0 <= k < |regions| ==> IsRight(regions[k], n)) ==>
              Tally(regions, positive, n).posLeft == 0 && Tally(regions, positive, n).negLeft == 0
    ensures (forall k :: 0 <= k < |regions| ==> !IsRight(regions[k], n)) ==>
              Tally(regions, positive, n).posRight == 0 && Tally(regions, positive, n).negRight == 0
    decreases |regions|
  {
    if |regions| > 0 {
      TallyHemisphere(regions[..|regions| - 1], positive, n);
    }
  }

  /** Only the listed regions are counted: signs of unlisted regions do not
      affect the tally. */
  lemma {:induction false} TallyOnlyListed(regions: seq<nat>, p1: seq<bool>, p2: seq<bool>, n: nat)
    requires RegionsBelow(regions, |p1|) && RegionsBelow(regions, |p2|)
    requires forall k :: 0 <= k < |regions| ==> p1[regions[k]] == p2[regions[k]]
    ensures Tally(regions, p1, n) == Tally(regions, p2, n)
    decreases |regions|
  {
    if |regions| > 0 {
      TallyOnlyListed(regions[..|regions| - 1], p1, p2, n);
    }
  }

  /** Visiting the same regions in any order gives the same counts. */
  lemma {:induction false} TallyPermutation(a: seq<nat>, b: seq<nat>, positive: seq<bool>, n: nat)
    requires RegionsBelow(a, |positive|) && multiset(a) == multiset(b)
    ensures RegionsBelow(b, |positive|)
    ensures Tally(a, positive, n) == Tally(b, positive, n)
    decreases |a|
  {
    forall k | 0 <= k < |b| ensures b[k] < |positive| {
      assert b[k] in multiset(a);
    }
    if |a| == 0 {
      assert b == [];
    } else {
      var x := a[|a| - 1];
      var a' := a[..|a| - 1];
      assert x in multiset(b);
      var j :| 0 <= j < |b| && b[j] == x;
      var b' := b[..j] + b[j + 1..];
      MultisetRemove(a, b, j);
      TallyRemove(b, j, positive, n);
      TallyPermutation(a', b', positive, n);
      TallyAppend(a', [x], positive, n);
      assert a' + [x] == a;
    }
  }

  /** Removing the element at position j of b from both multisets of a
      permutation pair leaves a permutation pair. */
  lemma MultisetRemove(a: seq<nat>, b: seq<nat>, j: nat)
    requires |a| > 0 && j < |b| && b[j] == a[|a| - 1] && multiset(a) == multiset(b)
    ensures multiset(a[..|a| - 1]) == multiset(b[..j] + b[j + 1..])
  {
    var x := b[j];
    assert a == a[..|a| - 1] + [x];
    assert b == b[..j] + [x] + b[j + 1..];
    assert multiset(a) == multiset(a[..|a| - 1]) + multiset{x};
    assert multiset(b) == multiset(b[..j] + b[j + 1..]) + multiset{x};
    var ma, mb := multiset(a[..|a| - 1]), multiset(b[..j] + b[j + 1..]);
    assert forall y :: ma[y] == (ma + multiset{x})[y] - multiset{x}[y];
    assert forall y :: mb[y] == (mb + multiset{x})[y] - multiset{x}[y];
  }

  /** The tally of b is the tally of b without its j-th region plus that
      region's own increment. */
  lemma TallyRemove(b: seq<nat>, j: nat, positive: seq<bool>, n: nat)
    requires RegionsBelow(b, |positive|) && j < |b|
    ensures RegionsBelow(b[..j] + b[j + 1..], |positive|)
    ensures Tally(b, positive, n) == Add(Tally(b[..j] + b[j + 1..], positive, n), Tally([b[j]], positive, n))
  {
    var pre, x, post := b[..j], [b[j]], b[j + 1..];
    assert b == pre + x + post;
    assert RegionsBelow(pre, |positive|) && RegionsBelow(post, |positive|);
    TallyAppend(pre, x, positive, n);
    TallyAppend(pre + x, post, positive, n);
    TallyAppend(pre, post, positive, n);
  }

  /** `LI = (counts[0] + counts[3] - (counts[1] + counts[2])) / sum(counts)`,
      NaN when nothing was counted. */
  function LI(c: Counts): (r: Index)
    ensures r.NaN? <==> Total(c) == 0
    ensures r.Defined? ==> -1.0 <= r.value <= 1.0
    ensures r == Defined(1.0) <==> Total(c) > 0 && c.negRight == 0 && c.posLeft == 0
  {
    Ratio(c.posRight + c.negLeft - (c.negRight + c.posLeft), Total(c))
  }

  /** `LI_neg = (counts[3] - counts[1]) / (counts[3] + counts[1])`, NaN when no
      region fell into a negative bucket. */
  function LINeg(c: Counts): (r: Index)
    ensures r.NaN? <==> c.negRight == 0 && c.negLeft == 0
    ensures r.Defined? ==> -1.0 <= r.value <= 1.0
    ensures r == Defined(1.0) <==> c.negLeft > 0 && c.negRight == 0
  {
    Ratio(c.negLeft - c.negRight, c.negLeft + c.negRight)
  }

  /** The empirical tally of one subject. */
  function EmpiricalCounts(row: seq<TestResult>, n: nat): Counts
  {
    Tally(MaskRegions(EmpiricalMask(row)), Positives(TStats(row)), n)
  }

  /** Positive-list regions fall only into the positive buckets and
      negative-list regions only into the negative buckets, so the four
      counts add up to the number of significant regions. */
  lemma EmpiricalCountsSplit(row: seq<TestResult>, n: nat)
    ensures EmpiricalCounts(row, n).posRight + EmpiricalCounts(row, n).posLeft
              == |EmpiricalMask(row).positive|
    ensures EmpiricalCounts(row, n).negRight + EmpiricalCounts(row, n).negLeft
              == |EmpiricalMask(row).negative|
    ensures Total(EmpiricalCounts(row, n)) == |EmpiricalMask(row).positive| + |EmpiricalMask(row).negative|
  {
    var m := EmpiricalMask(row);
    var signs := Positives(TStats(row));
    EmpiricalMaskSpec(row);
    assert forall k :: 0 <= k < |m.positive| ==> m.positive[k] in m.positive;
    assert forall k :: 0 <= k < |m.negative| ==> m.negative[k] in m.negative;
    TallyAllPositive(m.positive, signs, n);
    TallyAllNegative(m.negative, signs, n);
    TallyAppend(m.positive, m.negative, signs, n);
  }

  /** A subject without significant regions gets NaN for both indices. */
  lemma EmpiricalNoSignificantRegions(row: seq<TestResult>, n: nat)
    requires forall i :: 0 <= i < |row| ==> !(row[i].p < Alpha)
    ensures LI(EmpiricalCounts(row, n)) == NaN
    ensures LINeg(EmpiricalCounts(row, n)) == NaN
  {
    var c := EmpiricalCounts(row, n);
    assert Total(c) == 0 by {
      EmpiricalMaskNone(row);
      EmpiricalCountsSplit(row, n);
    }
    NothingCounted(c);
  }

  lemma NothingCounted(c: Counts)
    requires Total(c) == 0
    ensures LI(c) == NaN && LINeg(c) == NaN
  {
  }

  lemma EmpiricalMaskNone(row: seq<TestResult>)
    requires forall i :: 0 <= i < |row| ==> !(row[i].p < Alpha)
    ensures EmpiricalMask(row) == Mask([], [])
  {
    SigRegionsNone(row, |row|, true);
    SigRegionsNone(row, |row|, false);
  }

  lemma {:induction false} SigRegionsNone(row: seq<TestResult>, k: nat, positive: bool)
    requires k <= |row|
    requires forall i :: 0 <= i < k ==> !(row[i].p < Alpha)
    ensures SigRegions(row, k, positive) == []
  {
    if k > 0 {
      SigRegionsNone(row, k - 1, positive);
    }
  }

  /** The mask fits the subject's simulated rows: `v_beta[s][region]` and
      `n_beta[s][region]` exist for every masked region. */
  predicate MaskFits(m: Mask, v: seq<real>, nb: seq<real>)
  {
    RegionsBelow(MaskRegions(m), |v|) && RegionsBelow(MaskRegions(m), |nb|)
  }

  /** The simulated tally of one subject under a reused mask. */
  function SimulatedCounts(m: Mask, v: seq<real>, nb: seq<real>, n: nat): Counts
    requires MaskFits(m, v, nb)
  {
    Tally(MaskRegions(m), Positives(Diffs(v, nb)), n)
  }

  /** The simulated tally counts every masked region once, whichever list
      it came from; an empty mask yields NaN for both indices. */
  lemma SimulatedCountsTotal(m: Mask, v: seq<real>, nb: seq<real>, n: nat)
    requires MaskFits(m, v, nb)
    ensures Total(SimulatedCounts(m, v, nb, n)) == |m.positive| + |m.negative|
    ensures m.positive == [] && m.negative == [] ==>
              LI(SimulatedCounts(m, v, nb, n)) == NaN && LINeg(SimulatedCounts(m, v, nb, n)) == NaN
  {
    var c := SimulatedCounts(m, v, nb, n);
    TallyTotal(MaskRegions(m), Positives(Diffs(v, nb)), n);
    assert Total(c) == |m.positive| + |m.negative|;
  }

  /** The simulated tally depends on the simulated rows only at masked
      regions, and only through the sign of verb minus noise. */
  lemma SimulatedCountsOnlyMasked(m: Mask, v1: seq<real>, nb1: seq<real>, v2: seq<real>, nb2: seq<real>, n: nat)
    requires MaskFits(m, v1, nb1) && MaskFits(m, v2, nb2)
    requires forall k :: 0 <= k < |MaskRegions(m)| ==>
               (v1[MaskRegions(m)[k]] - nb1[MaskRegions(m)[k]] > 0.0
                <==> v2[MaskRegions(m)[k]] - nb2[MaskRegions(m)[k]] > 0.0)
    ensures SimulatedCounts(m, v1, nb1, n) == SimulatedCounts(m, v2, nb2, n)
  {
    TallyOnlyListed(MaskRegions(m), Positives(Diffs(v1, nb1)), Positives(Diffs(v2, nb2)), n);
  }

  /** The regions of a mask may be visited in any order. */
  lemma SimulatedCountsOrderFree(m: Mask, regions: seq<nat>, v: seq<real>, nb: seq<real>, n: nat)
    requires MaskFits(m, v, nb)
    requires multiset(regions) == multiset(MaskRegions(m))
    ensures RegionsBelow(regions, |Positives(Diffs(v, nb))|)
    ensures Tally(regions, Positives(Diffs(v, nb)), n) == SimulatedCounts(m, v, nb, n)
  {
    TallyPermutation(MaskRegions(m), regions, Positives(Diffs(v, nb)), n);
  }

  /** The classification loop of one subject (lines 29-41). */
  method ClassifyRegions(row: seq<TestResult>) returns (positive: seq<nat>, negative: seq<nat>, tStats: seq<real>)
    ensures Mask(positive, negative) == EmpiricalMask(row)
    ensures tStats == TStats(row)
  {
    positive, negative, tStats := [], [], [];
    var i := 0;
    while i < |row|
      invariant 0 <= i <= |row|
      invariant positive == SigRegions(row, i, true)
      invariant negative == SigRegions(row, i, false)
      invariant tStats == TStats(row)[..i]
    {
      var test := row[i];
      tStats := tStats + [test.t];
      if test.p < Alpha {
        if test.t > 0.0 {
          positive := positive + [i];
        } else {
          negative := negative + [i];
        }
      }
      i := i + 1;
    }
  }

  /** The empirical tally loop (lines 46-52): the bucket sign of region i
      comes from `t_stats[i] > 0`. */
  method TallyEmpirical(regions: seq<nat>, tStats: seq<real>, n: nat) returns (c: Counts)
    requires RegionsBelow(regions, |tStats|)
    ensures c == Tally(regions, Positives(tStats), n)
  {
    c := Counts(0, 0, 0, 0);
    var k := 0;
    while k < |regions|
      invariant 0 <= k <= |regions|
      invariant c == Tally(regions[..k], Positives(tStats), n)
    {
      var i := regions[k];
      var right := 2 * i < n;
      if tStats[i] > 0.0 {
        if right { c := c.(posRight := c.posRight + 1); } else { c := c.(posLeft := c.posLeft + 1); }
      } else {
        if right { c := c.(negRight := c.negRight + 1); } else { c := c.(negLeft := c.negLeft + 1); }
      }
      assert regions[..k + 1][..k] == regions[..k];
      k := k + 1;
    }
    assert regions[..k] == regions;
  }

  /** The simulated tally loop (lines 94-100): the bucket sign of a region
      comes from `v_beta[s][region] - n_beta[s][region] > 0`. */
  method TallySimulated(regions: seq<nat>, v: seq<real>, nb: seq<real>, n: nat) returns (c: Counts)
    requires RegionsBelow(regions, |v|) && RegionsBelow(regions, |nb|)
    ensures RegionsBelow(regions, |Diffs(v, nb)|)
    ensures c == Tally(regions, Positives(Diffs(v, nb)), n)
  {
    c := Counts(0, 0, 0, 0);
    var k := 0;
    while k < |regions|
      invariant 0 <= k <= |regions|
      invariant c == Tally(regions[..k], Positives(Diffs(v, nb)), n)
    {
      var region := regions[k];
      var diff := v[region] - nb[region];
      var right := 2 * region < n;
      if diff > 0.0 {
        if right { c := c.(posRight := c.posRight + 1); } else { c := c.(posLeft := c.posLeft + 1); }
      } else {
        if right { c := c.(negRight := c.negRight + 1); } else { c := c.(negLeft := c.negLeft + 1); }
      }
      assert regions[..k + 1][..k] == regions[..k];
      k := k + 1;
    }
    assert regions[..k] == regions;
  }

  /** The position of the last occurrence of k in xs, or -1: the row whose
      results a dictionary keyed by subject keeps when an ID repeats. */
  function LastIndex(xs: seq<Subject>, k: Subject): (r: int)
    ensures -1 <= r < |xs|
    ensures r >= 0 <==> k in xs
    ensures r >= 0 ==> xs[r] == k && forall j :: r < j < |xs| ==> xs[j] != k
    decreases |xs|
  {
    if |xs| == 0 then -1
    else if xs[|xs| - 1] == k then |xs| - 1
    else LastIndex(xs[..|xs| - 1], k)
  }

  /** With distinct IDs, every subject's entry comes from its own row. */
  lemma LastIndexDistinct(xs: seq<Subject>, s: nat)
    requires s < |xs|
    requires forall i, j :: 0 <= i < j < |xs| ==> xs[i] != xs[j]
    ensures LastIndex(xs, xs[s]) == s
  {
  }

  /** The dictionary a loop `d[keys[s]] = vals[s]` builds from an empty
      one: a repeated key keeps the value of its last occurrence. */
  function Latest<V>(keys: seq<Subject>, vals: seq<V>): (r: map<Subject, V>)
    requires |keys| == |vals|
    ensures forall k :: k in r <==> k in keys
    decreases |keys|
  {
    if |keys| == 0 then map[]
    else Latest(keys[..|keys| - 1], vals[..|keys| - 1])[keys[|keys| - 1] := vals[|keys| - 1]]
  }

  /** Each key of the dictionary maps to the value at its last occurrence. */
  lemma {:induction false} LatestSpec<V>(keys: seq<Subject>, vals: seq<V>)
    requires |keys| == |vals|
    ensures forall k :: k in keys ==> Latest(keys, vals)[k] == vals[LastIndex(keys, k)]
    decreases |keys|
  {
    if |keys| > 0 {
      var m := |keys| - 1;
      var init, initVals := keys[..m], vals[..m];
      LatestSpec(init, initVals);
      assert keys == init + [keys[m]];
      forall k | k in keys ensures Latest(keys, vals)[k] == vals[LastIndex(keys, k)] {
        if k != keys[m] {
          assert k in init;
        }
      }
    }
  }

  /** Appending one key and value is one dictionary update. */
  lemma LatestAppend<V>(keys: seq<Subject>, vals: seq<V>, s: nat)
    requires |keys| == |vals| && s < |keys|
    ensures Latest(keys[..s + 1], vals[..s + 1]) == Latest(keys[..s], vals[..s])[keys[s] := vals[s]]
  {
    assert keys[..s + 1][..s] == keys[..s];
    assert vals[..s + 1][..s] == vals[..s];
  }

  /** The empirical mask of each of the first m rows. */
  function MasksOf(rows: seq<seq<TestResult>>, m: nat): (r: seq<Mask>)
    requires m <= |rows|
    ensures |r| == m
  {
    seq(m, j requires 0 <= j < m => EmpiricalMask(rows[j]))
  }

  /** The empirical tally of each of the first m rows. */
  function CountsOf(rows: seq<seq<TestResult>>, n: nat, m: nat): (r: seq<Counts>)
    requires m <= |rows|
    ensures |r| == m
  {
    seq(m, j requires 0 <= j < m => EmpiricalCounts(rows[j], n))
  }

  /** The simulation pass's precondition: every subject has an entry in
      `significant_regions`, and its mask indexes that subject's rows. */
  predicate SimulationFits(v: seq<seq<real>>, nb: seq<seq<real>>, subjects: seq<Subject>, sig: map<Subject, Mask>)
  {
    |subjects| <= |v| && |subjects| <= |nb|
    && forall s :: 0 <= s < |subjects| ==> subjects[s] in sig && MaskFits(sig[subjects[s]], v[s], nb[s])
  }

  /** The simulated tally of each subject, under the mask stored for it. */
  function SimCountsOf(v: seq<seq<real>>, nb: seq<seq<real>>, n: nat, subjects: seq<Subject>,
                       sig: map<Subject, Mask>): (r: seq<Counts>)
    requires SimulationFits(v, nb, subjects, sig)
    ensures |r| == |subjects|
  {
    seq(|subjects|, j requires 0 <= j < |subjects| => SimulatedCounts(sig[subjects[j]], v[j], nb[j], n))
  }

  function LIs(cs: seq<Counts>): (r: seq<Index>)
    ensures |r| == |cs|
  {
    seq(|cs|, j requires 0 <= j < |cs| => LI(cs[j]))
  }

  function LINegs(cs: seq<Counts>): (r: seq<Index>)
    ensures |r| == |cs|
  {
    seq(|cs|, j requires 0 <= j < |cs| => LINeg(cs[j]))
  }

  /** `compute_empirical_LI` (lines 9-63): each dictionary is the
      per-subject dictionary of that subject's own row of test results;
      `n` is `len(idx)`, the number of tests in a row. */
  method EmpiricalLI(rows: seq<seq<TestResult>>, n: nat, subjects: seq<Subject>)
    returns (sig: map<Subject, Mask>, li: map<Subject, Index>, liNeg: map<Subject, Index>)
    requires |subjects| <= |rows|
    requires forall s :: 0 <= s < |subjects| ==> |rows[s]| == n
    ensures sig == Latest(subjects, MasksOf(rows, |subjects|))
    ensures li == Latest(subjects, LIs(CountsOf(rows, n, |subjects|)))
    ensures liNeg == Latest(subjects, LINegs(CountsOf(rows, n, |subjects|)))
  {
    ghost var masks, lis, liNegs := MasksOf(rows, |subjects|), LIs(CountsOf(rows, n, |subjects|)),
                                    LINegs(CountsOf(rows, n, |subjects|));
    sig, li, liNeg := map[], map[], map[];
    var s := 0;
    while s < |subjects|
      invariant 0 <= s <= |subjects|
      invariant sig == Latest(subjects[..s], masks[..s])
      invariant li == Latest(subjects[..s], lis[..s])
      invariant liNeg == Latest(subjects[..s], liNegs[..s])
    {
      var subj := subjects[s];
      var positive, negative, tStats := ClassifyRegions(rows[s]);
      sig := sig[subj := Mask(positive, negative)];
      EmpiricalMaskSpec(rows[s]);
      var counts := TallyEmpirical(positive + negative, tStats, n);
      li := li[subj := LI(counts)];
      liNeg := liNeg[subj := LINeg(counts)];
      LatestAppend(subjects, masks, s);
      LatestAppend(subjects, lis, s);
      LatestAppend(subjects, liNegs, s);
      s := s + 1;
    }
    assert subjects[..s] == subjects;
    assert masks[..s] == masks && lis[..s] == lis && liNegs[..s] == liNegs;
  }

  /** `compute_simulated_LI` (lines 69-110): for each subject, only the
      regions of the mask stored for it are counted; `n` is `len(idx)`. A
      subject without an entry (KeyError) or a region beyond the subject's
      rows (IndexError) is excluded by the precondition. */
  method SimulatedLI(v: seq<seq<real>>, nb: seq<seq<real>>, n: nat, subjects: seq<Subject>,
                     sig: map<Subject, Mask>)
    returns (li: map<Subject, Index>, liNeg: map<Subject, Index>)
    requires SimulationFits(v, nb, subjects, sig)
    ensures li == Latest(subjects, LIs(SimCountsOf(v, nb, n, subjects, sig)))
    ensures liNeg == Latest(subjects, LINegs(SimCountsOf(v, nb, n, subjects, sig)))
  {
    ghost var lis, liNegs := LIs(SimCountsOf(v, nb, n, subjects, sig)), LINegs(SimCountsOf(v, nb, n, subjects, sig));
    li, liNeg := map[], map[];
    var s := 0;
    while s < |subjects|
      invariant 0 <= s <= |subjects|
      invariant li == Latest(subjects[..s], lis[..s])
      invariant liNeg == Latest(subjects[..s], liNegs[..s])
    {
      var subj := subjects[s];
      var mask := sig[subj];
      var counts := TallySimulated(mask.positive + mask.negative, v[s], nb[s], n);
      li := li[subj := LI(counts)];
      liNeg := liNeg[subj := LINeg(counts)];
      LatestAppend(subjects, lis, s);
      LatestAppend(subjects, liNegs, s);
      s := s + 1;
    }
    assert subjects[..s] == subjects;
    assert lis[..s] == lis && liNegs[..s] == liNegs;
  }

  /** One cohort (lines 116-120): the empirical pass, then the simulated
      pass under the empirical pass's own mask. The simulated pass needs
      the mask kept for each subject to index that subject's simulated rows. */
  method RunCohort(empRows: seq<seq<TestResult>>, simV: seq<seq<real>>, simN: seq<seq<real>>,
                   n: nat, subjects: seq<Subject>)
    returns (sig: map<Subject, Mask>, liEmp: map<Subject, Index>, liNegEmp: map<Subject, Index>,
             liSim: map<Subject, Index>, liNegSim: map<Subject, Index>)
    requires |subjects| <= |empRows| && |subjects| <= |simV| && |subjects| <= |simN|
    requires forall s :: 0 <= s < |subjects| ==> |empRows[s]| == n
    requires forall s :: 0 <= s < |subjects| ==>
               MaskFits(EmpiricalMask(empRows[LastIndex(subjects, subjects[s])]), simV[s], simN[s])
    ensures sig == Latest(subjects, MasksOf(empRows, |subjects|))
    ensures liEmp == Latest(subjects, LIs(CountsOf(empRows, n, |subjects|)))
    ensures liNegEmp == Latest(subjects, LINegs(CountsOf(empRows, n, |subjects|)))
    ensures SimulationFits(simV, simN, subjects, sig)
    ensures liSim == Latest(subjects, LIs(SimCountsOf(simV, simN, n, subjects, sig)))
    ensures liNegSim == Latest(subjects, LINegs(SimCountsOf(simV, simN, n, subjects, sig)))
  {
    sig, liEmp, liNegEmp := EmpiricalLI(empRows, n, subjects);
    CohortFits(empRows, simV, simN, subjects);
    liSim, liNegSim := SimulatedLI(simV, simN, n, subjects, sig);
  }

  /** The mask dictionary of the empirical pass satisfies the simulated
      pass's precondition whenever each subject's kept mask fits its rows. */
  lemma CohortFits(empRows: seq<seq<TestResult>>, simV: seq<seq<real>>, simN: seq<seq<real>>, subjects: seq<Subject>)
    requires |subjects| <= |empRows| && |subjects| <= |simV| && |subjects| <= |simN|
    requires forall s :: 0 <= s < |subjects| ==>
               MaskFits(EmpiricalMask(empRows[LastIndex(subjects, subjects[s])]), simV[s], simN[s])
    ensures SimulationFits(simV, simN, subjects, Latest(subjects, MasksOf(empRows, |subjects|)))
  {
    var masks := MasksOf(empRows, |subjects|);
    var sig := Latest(subjects, masks);
    LatestSpec(subjects, masks);
    forall s | 0 <= s < |subjects|
      ensures subjects[s] in sig && MaskFits(sig[subjects[s]], simV[s], simN[s])
    {
      var k := subjects[s];
      assert k in subjects;
      var j := LastIndex(subjects, k);
      assert sig[k] == masks[j] == EmpiricalMask(empRows[j]);
    }
  }

  /** With distinct subject IDs, each subject's simulated index is computed
      under the empirical mask of that subject's own row. */
  lemma CohortDistinct(empRows: seq<seq<TestResult>>, simV: seq<seq<real>>, simN: seq<seq<real>>,
                       n: nat, subjects: seq<Subject>, s: nat)
    requires |subjects| <= |empRows| && |subjects| <= |simV| && |subjects| <= |simN|
    requires forall i, j :: 0 <= i < j < |subjects| ==> subjects[i] != subjects[j]
    requires forall i :: 0 <= i < |subjects| ==> MaskFits(EmpiricalMask(empRows[i]), simV[i], simN[i])
    requires s < |subjects|
    ensures SimulationFits(simV, simN, subjects, Latest(subjects, MasksOf(empRows, |subjects|)))
    ensures Latest(subjects, MasksOf(empRows, |subjects|))[subjects[s]] == EmpiricalMask(empRows[s])
    ensures Latest(subjects, LIs(SimCountsOf(simV, simN, n, subjects, Latest(subjects, MasksOf(empRows, |subjects|)))))[subjects[s]]
            == LI(SimulatedCounts(EmpiricalMask(empRows[s]), simV[s], simN[s], n))
  {
    forall i | 0 <= i < |subjects| ensures LastIndex(subjects, subjects[i]) == i {
      LastIndexDistinct(subjects, i);
    }
    CohortFits(empRows, simV, simN, subjects);
    var sig := Latest(subjects, MasksOf(empRows, |subjects|));
    LatestSpec(subjects, MasksOf(empRows, |subjects|));
    LatestSpec(subjects, LIs(SimCountsOf(simV, simN, n, subjects, sig)));
    assert subjects[s] in subjects;
  }

  /** `int(sub[7:9])` in `prepare_data`: the age field of a subject ID.
      Python's `int` accepts surrounding whitespace and a sign; an empty or
      otherwise malformed slice raises an error, here `None`. */
  function AgeOf(id: Subject): (r: Option<int>)
    ensures |id| >= 9 && IsDigit(id[7]) && IsDigit(id[8]) ==> r == Some(10 * DigitValue(id[7]) + DigitValue(id[8]))
    ensures |id| <= 7 ==> r == None
  {
    var lo := if |id| < 7 then |id| else 7;
    var hi := if |id| < 9 then |id| else 9;
    if |id| >= 9 && IsDigit(id[7]) && IsDigit(id[8]) then
      assert id[lo..hi] == [id[7], id[8]];
      ParseTwoDigits(id[7], id[8]);
      ParseInt(id[lo..hi])
    else ParseInt(id[lo..hi])
  }

  datatype Option<T> = None | Some(value: T)

  predicate IsDigit(c: char)
  {
    '0' <= c <= '9'
  }

  function DigitValue(c: char): nat
    requires IsDigit(c)
  {
    (c as int - '0' as int) as nat
  }

  predicate IsSpace(c: char)
  {
    c == ' ' || c == '\t' || c == '\n' || c == '\r' || c as int == 11 || c as int == 12
  }

  /** `s.strip()` for ASCII whitespace. */
  function Strip(s: string): (r: string)
    ensures |r| <= |s|
    decreases |s|
  {
    if |s| > 0 && IsSpace(s[0]) then Strip(s[1..])
    else if |s| > 0 && IsSpace(s[|s| - 1]) then Strip(s[..|s| - 1])
    else s
  }

  /** The value of a non-empty run of decimal digits. */
  function DecimalValue(s: string): nat
    requires forall i :: 0 <= i < |s| ==> IsDigit(s[i])
    decreases |s|
  {
    if |s| == 0 then 0 else 10 * DecimalValue(s[..|s| - 1]) + DigitValue(s[|s| - 1])
  }

  lemma ParseTwoDigits(a: char, b: char)
    requires IsDigit(a) && IsDigit(b)
    ensures ParseInt([a, b]) == Some(10 * DigitValue(a) + DigitValue(b))
  {
    assert Strip([a, b]) == [a, b];
    assert [a, b][..1] == [a];
    assert DecimalValue([a]) == DigitValue(a);
  }

  /** Python's `int(s)` on ASCII input without underscores. */
  function ParseInt(s: string): Option<int>
  {
    var t := Strip(s);
    var negative := |t| > 0 && t[0] == '-';
    var digits := if |t| > 0 && (t[0] == '-' || t[0] == '+') then t[1..] else t;
    if |digits| > 0 && forall i :: 0 <= i < |digits| ==> IsDigit(digits[i]) then
      Some(if negative then -(DecimalValue(digits) as int) else DecimalValue(digits))
    else None
  }

  /** A worked example with four regions: region 0 (positive, right) and
      region 3 (negative, left) are significant, which gives
      LI = LI_neg = 1. */
  const ExampleRow: seq<TestResult> :=
    [TestResult(5.0, 0.01), TestResult(0.0, 0.5), TestResult(0.0, 0.5), TestResult(-5.0, 0.01)]

  lemma WorkedExampleEmpirical()
    ensures EmpiricalMask(ExampleRow) == Mask([0], [3])
    ensures EmpiricalCounts(ExampleRow, 4) == Counts(1, 0, 0, 1)
    ensures LI(EmpiricalCounts(ExampleRow, 4)) == Defined(1.0)
    ensures LINeg(EmpiricalCounts(ExampleRow, 4)) == Defined(1.0)
  {
    ExampleMask();
    ExampleCounts();
    assert MaskRegions(Mask([0], [3])) == [0, 3];
    var c := EmpiricalCounts(ExampleRow, 4);
    assert c == Counts(1, 0, 0, 1);
    assert LI(c) == Ratio(2, 2);
    assert LINeg(c) == Ratio(1, 1);
  }

  /** Region 0 is the only positive and region 3 the only negative
      significant region of the example row. */
  lemma ExampleMask()
    ensures EmpiricalMask(ExampleRow) == Mask([0], [3])
  {
    var row := ExampleRow;
    assert SigRegions(row, 1, true) == [0] && SigRegions(row, 1, false) == [];
    assert SigRegions(row, 2, true) == [0] && SigRegions(row, 2, false) == [];
    assert SigRegions(row, 3, true) == [0] && SigRegions(row, 3, false) == [];
    assert SigRegions(row, 4, true) == [0] && SigRegions(row, 4, false) == [3];
  }

  /** Region 0 (t > 0, right) and region 3 (t <= 0, left) tallied. */
  lemma ExampleCounts()
    ensures Tally([0, 3], Positives(TStats(ExampleRow)), 4) == Counts(1, 0, 0, 1)
  {
    var signs := Positives(TStats(ExampleRow));
    assert signs[0] && !signs[3];
    assert [0, 3][..1] == [0];
    assert [0][..0] == [];
    assert Tally([0], signs, 4) == Counts(1, 0, 0, 0);
  }

  /** The same mask under simulated differences -2 at region 0 and -3 at
      region 3: both regions fall into negative buckets, whatever list they
      came from, and LI = LI_neg = 0. */
  lemma WorkedExampleSimulated()
    ensures SimulatedCounts(Mask([0], [3]), [0.0, 0.0, 0.0, 0.0], [2.0, 0.0, 0.0, 3.0], 4) == Counts(0, 1, 0, 1)
    ensures LI(Counts(0, 1, 0, 1)) == Defined(0.0) && LINeg(Counts(0, 1, 0, 1)) == Defined(0.0)
  {
    var v, nb := [0.0, 0.0, 0.0, 0.0], [2.0, 0.0, 0.0, 3.0];
    var signs := Positives(Diffs(v, nb));
    assert !signs[0] && !signs[3];
    assert MaskRegions(Mask([0], [3])) == [0, 3];
    assert [0, 3][..1] == [0];
    assert [0][..0] == [];
    assert Tally([0], signs, 4) == Counts(0, 1, 0, 0);
    assert Tally([0, 3], signs, 4) == Bump(Tally([0], signs, 4), false, false);
  }
}
