/** The virtual P-to-I transplant of Code/Analysis/virtual_P2I_transplant.py.

    The fitted model's pyramidal-to-inhibitory coupling matrix is cloned; on
    the clone, only the two inter-hemispheric frontal blocks (left rows by
    right columns, and right rows by left columns) are overwritten with the
    source group's average matrix; the clone then replaces the model's
    matrix. The script also zero-pads the recording to 1500 time columns and
    builds a stimulus that is 5000 on time steps 100 to 139 and 0 elsewhere. */
module P2ITransplant {
  import opened ShenFrontal

  /** `R_Frontal_idx = NEW_Frontal_roi[NEW_Frontal_roi < 94] - 1`. */
  function RFrontalIdx(): seq<int>
  {
    Shift(Below(FrontalRois, 94))
  }

  /** `L_Frontal_idx = NEW_Frontal_roi[NEW_Frontal_roi > 93] - 1`. */
  function LFrontalIdx(): seq<int>
  {
    Shift(Above(FrontalRois, 93))
  }

  /** The right list is the first run of the frontal ROIs, shifted. */
  lemma RightIsLowRun()
    ensures RFrontalIdx() == Shift(LowRois)
  {
    FrontalRuns();
    BelowSplit(FrontalRois, 94, 29);
    assert FrontalRois[..29] == LowRois;
  }

  /** The left list is the second run of the frontal ROIs, shifted. */
  lemma LeftIsHighRun()
    ensures LFrontalIdx() == Shift(HighRois)
  {
    FrontalRuns();
    AboveSplit(FrontalRois, 93, 29);
    assert FrontalRois[29..] == HighRois;
  }

  /** The two index lists split the 58 shifted frontal ROIs, 29 each, with
      every right index below every left index; so they are disjoint. In
      this script the shifted ROI 93 (atlas region 94) falls on the left. */
  lemma FrontalSplit()
    ensures RFrontalIdx() + LFrontalIdx() == Shift(FrontalRois)
    ensures |RFrontalIdx()| == 29 && |LFrontalIdx()| == 29
    ensures forall i, j :: 0 <= i < 29 && 0 <= j < 29 ==> 0 <= RFrontalIdx()[i] < LFrontalIdx()[j] < 183
    ensures IndicesBelow(RFrontalIdx(), 183) && IndicesBelow(LFrontalIdx(), 183)
    ensures forall x :: !(x in RFrontalIdx() && x in LFrontalIdx())
    ensures 93 in LFrontalIdx()
  {
    RightIsLowRun();
    LeftIsHighRun();
    ShiftedRuns();
    var r, l := Shift(LowRois), Shift(HighRois);
    assert r + l == Shift(FrontalRois);
    assert l[0] == 93;
  }

  /** A dense matrix, row by row. */
  type Matrix = seq<seq<real>>

  predicate Rectangular(m: Matrix, rows: nat, cols: nat)
  {
    |m| == rows && forall i :: 0 <= i < |m| ==> |m[i]| == cols
  }

  /** Every index of the list addresses one of `bound` rows or columns. */
  predicate IndicesBelow(idx: seq<int>, bound: nat)
  {
    forall x :: x in idx ==> 0 <= x < bound
  }

  /** `m[np.ix_(rows, cols)] = src[np.ix_(rows, cols)]` on values: the cells
      of the block take the source's values, every other cell keeps its own. */
  function WriteBlock(m: Matrix, src: Matrix, rows: seq<int>, cols: seq<int>): (r: Matrix)
    requires Rectangular(src, |m|, if |m| == 0 then 0 else |m[0]|)
    requires Rectangular(m, |m|, if |m| == 0 then 0 else |m[0]|)
    ensures Rectangular(r, |m|, if |m| == 0 then 0 else |m[0]|)
  {
    seq(|m|, i requires 0 <= i < |m| =>
      seq(|m[i]|, j requires 0 <= j < |m[i]| =>
        if i in rows && j in cols then src[i][j] else m[i][j]))
  }

  /** Both inter-hemispheric blocks, L x R and then R x L. */
  function Transplanted(m: Matrix, src: Matrix, right: seq<int>, left: seq<int>): (r: Matrix)
    requires Rectangular(src, |m|, if |m| == 0 then 0 else |m[0]|)
    requires Rectangular(m, |m|, if |m| == 0 then 0 else |m[0]|)
    ensures Rectangular(r, |m|, if |m| == 0 then 0 else |m[0]|)
  {
    WriteBlock(WriteBlock(m, src, left, right), src, right, left)
  }

  /** Cell by cell: a pair of one left and one right index (either way round)
      takes the source's value, every other cell keeps the model's. */
  lemma TransplantedCells(m: Matrix, src: Matrix, right: seq<int>, left: seq<int>, i: nat, j: nat)
    requires Rectangular(src, |m|, if |m| == 0 then 0 else |m[0]|)
    requires Rectangular(m, |m|, if |m| == 0 then 0 else |m[0]|)
    requires i < |m| && j < |m[i]|
    ensures Transplanted(m, src, right, left)[i][j]
            == if (i in left && j in right) || (i in right && j in left) then src[i][j] else m[i][j]
  {
  }

  /** The two block writes commute. */
  lemma BlocksCommute(m: Matrix, src: Matrix, right: seq<int>, left: seq<int>)
    requires Rectangular(src, |m|, if |m| == 0 then 0 else |m[0]|)
    requires Rectangular(m, |m|, if |m| == 0 then 0 else |m[0]|)
    ensures WriteBlock(WriteBlock(m, src, left, right), src, right, left)
            == WriteBlock(WriteBlock(m, src, right, left), src, left, right)
  {
    var a := WriteBlock(WriteBlock(m, src, left, right), src, right, left);
    var b := WriteBlock(WriteBlock(m, src, right, left), src, left, right);
    forall i | 0 <= i < |m| ensures a[i] == b[i] {
      assert |a[i]| == |b[i]|;
      forall j | 0 <= j < |a[i]| ensures a[i][j] == b[i][j] {
      }
    }
  }

  /** Transplanting a second time changes nothing. */
  lemma TransplantIdempotent(m: Matrix, src: Matrix, right: seq<int>, left: seq<int>)
    requires Rectangular(src, |m|, if |m| == 0 then 0 else |m[0]|)
    requires Rectangular(m, |m|, if |m| == 0 then 0 else |m[0]|)
    ensures Transplanted(Transplanted(m, src, right, left), src, right, left) == Transplanted(m, src, right, left)
  {
    var once := Transplanted(m, src, right, left);
    var twice := Transplanted(once, src, right, left);
    forall i | 0 <= i < |m| ensures twice[i] == once[i] {
      forall j | 0 <= j < |once[i]| ensures twice[i][j] == once[i][j] {
        TransplantedCells(m, src, right, left, i, j);
        TransplantedCells(once, src, right, left, i, j);
      }
    }
  }

  /** The contents of a two-dimensional array. */
  ghost function Cells(a: array2<real>): (r: Matrix)
    reads a
    ensures Rectangular(r, a.Length0, a.Length1)
  {
    seq(a.Length0, i requires 0 <= i < a.Length0 reads a =>
      seq(a.Length1, j requires 0 <= j < a.Length1 reads a => a[i, j]))
  }

  /** An array that agrees cell by cell with a block write of a matrix holds
      that block write. */
  lemma CellsOfBlockWrite(a: array2<real>, src: array2<real>, before: Matrix, rows: seq<int>, cols: seq<int>)
    requires src.Length0 == a.Length0 && src.Length1 == a.Length1
    requires Rectangular(before, a.Length0, a.Length1)
    requires forall i, j :: 0 <= i < a.Length0 && 0 <= j < a.Length1 ==>
               a[i, j] == if i in rows && j in cols then src[i, j] else before[i][j]
    ensures Cells(a) == WriteBlock(before, Cells(src), rows, cols)
  {
    var lhs, rhs := Cells(a), WriteBlock(before, Cells(src), rows, cols);
    forall i | 0 <= i < a.Length0 ensures lhs[i] == rhs[i] {
      assert |lhs[i]| == |rhs[i]|;
    }
  }

  /** `a[np.ix_(rows, cols)] = src[np.ix_(rows, cols)]`, in place. */
  method WriteBlockInPlace(a: array2<real>, src: array2<real>, rows: seq<int>, cols: seq<int>)
    requires a != src && src.Length0 == a.Length0 && src.Length1 == a.Length1
    requires IndicesBelow(rows, a.Length0) && IndicesBelow(cols, a.Length1)
    modifies a
    ensures forall i, j :: 0 <= i < a.Length0 && 0 <= j < a.Length1 ==>
              a[i, j] == if i in rows && j in cols then src[i, j] else old(a[i, j])
  {
    var p := 0;
    while p < |rows|
      invariant 0 <= p <= |rows|
      invariant forall i, j :: 0 <= i < a.Length0 && 0 <= j < a.Length1 ==>
                  a[i, j] == if i in rows[..p] && j in cols then src[i, j] else old(a[i, j])
    {
      var r := rows[p];
      assert r in rows;
      var q := 0;
      while q < |cols|
        invariant 0 <= q <= |cols|
        invariant forall i, j :: 0 <= i < a.Length0 && 0 <= j < a.Length1 ==>
                    a[i, j] == if (i in rows[..p] && j in cols) || (i == r && j in cols[..q])
                               then src[i, j] else old(a[i, j])
      {
        assert cols[q] in cols;
        a[r, cols[q]] := src[r, cols[q]];
        assert cols[..q + 1] == cols[..q] + [cols[q]];
        q := q + 1;
      }
      assert cols[..q] == cols;
      assert rows[..p + 1] == rows[..p] + [r];
      p := p + 1;
    }
    assert rows[..p] == rows;
  }

  /** The fitted model object; only its coupling matrix `sc_m_b` is modelled. */
  class FittedModel {
    var scMB: array2<real>

    constructor (scMB: array2<real>)
      ensures this.scMB == scMB
    {
      this.scMB := scMB;
    }

    /** Lines 66-76: clone the matrix, overwrite the L x R and R x L blocks of
        the clone with the source group's matrix, then install the clone. */
    method Transplant(source: array2<real>, right: seq<int>, left: seq<int>)
      requires source.Length0 == scMB.Length0 && source.Length1 == scMB.Length1
      requires IndicesBelow(right, scMB.Length0) && IndicesBelow(right, scMB.Length1)
      requires IndicesBelow(left, scMB.Length0) && IndicesBelow(left, scMB.Length1)
      modifies this
      ensures fresh(scMB) && scMB.Length0 == old(scMB.Length0) && scMB.Length1 == old(scMB.Length1)
      ensures unchanged(old(scMB)) && unchanged(source)
      ensures forall i, j :: 0 <= i < scMB.Length0 && 0 <= j < scMB.Length1 ==>
                scMB[i, j] == if (i in left && j in right) || (i in right && j in left)
                              then source[i, j] else old(scMB)[i, j]
      ensures Cells(scMB) == Transplanted(old(Cells(scMB)), Cells(source), right, left)
    {
      var fitted := scMB;
      var clone := new real[fitted.Length0, fitted.Length1];
      var i := 0;
      while i < fitted.Length0
        invariant 0 <= i <= fitted.Length0
        invariant forall x, y :: 0 <= x < i && 0 <= y < fitted.Length1 ==> clone[x, y] == fitted[x, y]
      {
        var j := 0;
        while j < fitted.Length1
          invariant 0 <= j <= fitted.Length1
          invariant forall x, y :: 0 <= x < i && 0 <= y < fitted.Length1 ==> clone[x, y] == fitted[x, y]
          invariant forall y :: 0 <= y < j ==> clone[i, y] == fitted[i, y]
        {
          clone[i, j] := fitted[i, j];
          j := j + 1;
        }
        i := i + 1;
      }
      ghost var fittedCells := Cells(fitted);
      assert Cells(clone) == fittedCells by {
        forall x | 0 <= x < fitted.Length0 ensures Cells(clone)[x] == fittedCells[x] { }
      }
      WriteBlockInPlace(clone, source, left, right);
      CellsOfBlockWrite(clone, source, fittedCells, left, right);
      ghost var half := Cells(clone);
      WriteBlockInPlace(clone, source, right, left);
      CellsOfBlockWrite(clone, source, half, right, left);
      scMB := clone;
    }
  }

  /** The script's call: the YC average matrix transplanted between the
      frontal hemispheres of a model over at least 183 regions. */
  method TransplantFrontal(model: FittedModel, avgSourceP2I: array2<real>)
    requires model.scMB.Length0 == model.scMB.Length1 >= 183
    requires avgSourceP2I.Length0 == model.scMB.Length0 && avgSourceP2I.Length1 == model.scMB.Length1
    modifies model
    ensures fresh(model.scMB) && unchanged(old(model.scMB))
    ensures Cells(model.scMB) == Transplanted(old(Cells(model.scMB)), Cells(avgSourceP2I), RFrontalIdx(), LFrontalIdx())
  {
    FrontalSplit();
    model.Transplant(avgSourceP2I, RFrontalIdx(), LFrontalIdx());
  }

  /** The simulated length of a recording, in time columns. */
  const TimeColumns: nat := 1500

  /** One recorded sample times the scale factor (`meg_data * 1.0e13`). */
  function Scaled(v: real, scale: real): real
  {
    v * scale
  }

  /** Lines 81-82: `meg_sub = np.zeros((rows, 1500))` and
      `meg_sub[:, :cols] = meg_data * scale`. A recording wider than 1500
      columns does not fit the slice and numpy raises; here `ok` is false. */
  method PadRecording(data: array2<real>, scale: real) returns (ok: bool, padded: array2<real>)
    ensures fresh(padded)
    ensures ok <==> data.Length1 <= TimeColumns
    ensures ok ==> padded.Length0 == data.Length0 && padded.Length1 == TimeColumns
    ensures ok ==> forall i, t :: 0 <= i < padded.Length0 && 0 <= t < TimeColumns ==>
                     padded[i, t] == if t < data.Length1 then Scaled(data[i, t], scale) else 0.0
  {
    padded := new real[data.Length0, TimeColumns]((_, _) => 0.0);
    ok := data.Length1 <= TimeColumns;
    if !ok {
      return;
    }
    var i := 0;
    while i < data.Length0
      invariant 0 <= i <= data.Length0
      invariant forall x, t :: 0 <= x < data.Length0 && 0 <= t < TimeColumns ==>
                  padded[x, t] == if x < i && t < data.Length1 then Scaled(data[x, t], scale) else 0.0
    {
      var t := 0;
      while t < data.Length1
        invariant 0 <= t <= data.Length1
        invariant forall x, y :: 0 <= x < data.Length0 && 0 <= y < TimeColumns ==>
                    padded[x, y] == if (x < i || (x == i && y < t)) && y < data.Length1
                                    then Scaled(data[x, y], scale) else 0.0
      {
        padded[i, t] := Scaled(data[i, t], scale);
        t := t + 1;
      }
      i := i + 1;
    }
  }

  const StimulusStart: nat := 100
  const StimulusEnd: nat := 140
  const StimulusAmplitude: real := 5000.0

  /** Lines 103-104: `u = np.zeros((nodes, hidden, time))` and
      `u[:, :, 100:140] = 5000`; numpy clamps the slice when there are fewer
      than 140 time steps. */
  method StimulusInput(nodes: nat, hidden: nat, time: nat) returns (u: array3<real>)
    ensures fresh(u) && u.Length0 == nodes && u.Length1 == hidden && u.Length2 == time
    ensures forall i, h, t :: 0 <= i < nodes && 0 <= h < hidden && 0 <= t < time ==>
              u[i, h, t] == if StimulusStart <= t < StimulusEnd then StimulusAmplitude else 0.0
  {
    u := new real[nodes, hidden, time]((_, _, _) => 0.0);
    var stop := if time < StimulusEnd then time else StimulusEnd;
    var i := 0;
    while i < nodes
      invariant 0 <= i <= nodes
      invariant forall x, h, t :: 0 <= x < nodes && 0 <= h < hidden && 0 <= t < time ==>
                  u[x, h, t] == if x < i && StimulusStart <= t < StimulusEnd then StimulusAmplitude else 0.0
    {
      var h := 0;
      while h < hidden
        invariant 0 <= h <= hidden
        invariant forall x, y, t :: 0 <= x < nodes && 0 <= y < hidden && 0 <= t < time ==>
                    u[x, y, t] == if (x < i || (x == i && y < h)) && StimulusStart <= t < StimulusEnd
                                  then StimulusAmplitude else 0.0
      {
        var t := StimulusStart;
        while t < stop
          invariant StimulusStart <= t && (t <= stop || stop < StimulusStart)
          invariant forall x, y, z :: 0 <= x < nodes && 0 <= y < hidden && 0 <= z < time ==>
                      u[x, y, z] == if ((x < i || (x == i && y < h)) || (x == i && y == h && z < t))
                                       && StimulusStart <= z < StimulusEnd
                                    then StimulusAmplitude else 0.0
        {
          u[i, h, t] := StimulusAmplitude;
          t := t + 1;
        }
        h := h + 1;
      }
      i := i + 1;
    }
  }
}
