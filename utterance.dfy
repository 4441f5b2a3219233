/** The per-utterance block of the extraction driver: derive the column
    count from the mel length, slice the alignment, extract raw durations,
    reconcile them, and check the final length and sum. */
module Utterance {
  import opened Outcomes
  import opened Sums
  import opened Extractor
  import opened Reconciler

  /** int(np.ceil(melLength / r)): the fewest alignment columns whose r
      frames each cover melLength frames. */
  function AlignmentColumns(melLength: nat, r: nat): (c: nat)
    requires r >= 1
    ensures c * r >= melLength
    ensures c * r < melLength + r
  {
    (melLength + r - 1) / r
  }

  /** How many entries the Python slice x[:n] keeps of an axis of length len. */
  function SliceLength(n: nat, len: nat): (k: nat)
    ensures k <= n && k <= len
    ensures k == n || k == len
  {
    if n <= len then n else len
  }

  /** alignment[:n, :m]: the first n rows, each cut to its first m weights,
      with Python's clamping of slice bounds to the array's shape. */
  function Slice(a: Alignment, n: nat, m: nat): (s: Alignment)
    ensures |s.cells| == SliceLength(n, |a.cells|)
    ensures s.width == SliceLength(m, a.width)
    ensures forall i, j :: 0 <= i < |s.cells| && 0 <= j < s.width ==> s.cells[i][j] == a.cells[i][j]
  {
    var h := SliceLength(n, |a.cells|);
    var w := SliceLength(m, a.width);
    Grid(seq(h, i requires 0 <= i < h => a.cells[i][..w]), w)
  }

  /** Reconciling raw counts whose total is exactly the column count
      ceil(melLength / r) never fails the coverage check, and leaves a
      surplus of less than one reduction factor. */
  lemma CeilingCoverage(raw: seq<int>, r: nat, melLength: nat)
    requires r >= 1
    requires Sum(raw) == AlignmentColumns(melLength, r)
    ensures melLength <= r * Sum(raw) < melLength + r
    ensures ReconcileDurations(raw, r, melLength) != Failure(InsufficientCoverage)
  {
    ReconcileCoverage(raw, r, melLength);
  }

  /** A matrix with fewer columns than ceil(melLength / r) cannot cover
      melLength frames. */
  lemma ShortMatrixUncovered(columns: nat, r: nat, melLength: nat)
    requires r >= 1
    requires columns < AlignmentColumns(melLength, r)
    ensures columns * r < melLength
  {
    MulMonotone(columns, AlignmentColumns(melLength, r) - 1, r);
  }

  /** Reconciling the raw counts of an alignment cut to `columns` columns,
      at most the ceiling: coverage fails exactly when the matrix was short of
      columns; the edge check fails exactly when there is a surplus and both
      edge characters won no column; a success is one non-negative duration
      per character summing to the mel length. */
  lemma ReconcileAfterSlicing(raw: seq<int>, r: nat, melLength: nat, columns: nat)
    requires r >= 1
    requires forall i :: 0 <= i < |raw| ==> raw[i] >= 0
    requires Sum(raw) == columns <= AlignmentColumns(melLength, r)
    ensures var out := ReconcileDurations(raw, r, melLength);
      && (out == Failure(InsufficientCoverage) <==> columns < AlignmentColumns(melLength, r))
      && (out == Failure(NegativeEdge) <==>
            && columns == AlignmentColumns(melLength, r)
            && |raw| > 0
            && columns * r > melLength
            && raw[0] == 0 && raw[|raw| - 1] == 0)
      && (out.Success? ==>
            && |out.value| == |raw|
            && Sum(out.value) == melLength
            && forall i :: 0 <= i < |raw| ==> out.value[i] >= 0)
  {
    ReconcileCoverage(raw, r, melLength);
    if columns < AlignmentColumns(melLength, r) {
      ShortMatrixUncovered(columns, r, melLength);
    } else {
      CeilingCoverage(raw, r, melLength);
      if |raw| > 0 {
        ReconcileSmallSurplus(raw, r, melLength);
      }
    }
    if ReconcileDurations(raw, r, melLength).Success? {
      ReconcileSound(raw, r, melLength);
    }
  }

  /** One utterance: alignment is the decoder's attention history, rows
      being input characters and columns decoder steps. The Python
      assertions and exceptions of the block become the Failure cases; the
      final sum assertion is proved to hold. */
  method ExtractDuration(a: Alignment, realCharLength: nat, realMelLength: nat, r: nat)
    returns (res: Result<array<int>>)
    ensures res.Success? ==> res.value.Length == realCharLength
    ensures res.Success? ==> Sum(res.value[..]) == realMelLength
    ensures res.Success? ==> forall i :: 0 <= i < res.value.Length ==> res.value[i] >= 0
    ensures res.Success? ==> (r >= 1 && var s := Slice(a, realCharLength, AlignmentColumns(realMelLength, r));
      (s.width > 0 ==> |s.cells| > 0) && ReconcileDurations(RawDurations(s), r, realMelLength) == Success(res.value[..]))
    ensures res.Success? ==> fresh(res.value)
    ensures res == Failure(ReductionFactorZero) <==> r == 0
    ensures res == Failure(EmptyColumn) <==>
      && r >= 1
      && SliceLength(realCharLength, |a.cells|) == 0
      && SliceLength(AlignmentColumns(realMelLength, r), a.width) > 0
    ensures res == Failure(InsufficientCoverage) <==>
      && r >= 1
      && !(SliceLength(realCharLength, |a.cells|) == 0
           && SliceLength(AlignmentColumns(realMelLength, r), a.width) > 0)
      && a.width < AlignmentColumns(realMelLength, r)
    ensures res == Failure(NegativeEdge) <==>
      && r >= 1
      && a.width >= AlignmentColumns(realMelLength, r)
      && SliceLength(realCharLength, |a.cells|) > 0
      && AlignmentColumns(realMelLength, r) * r > realMelLength
      && var raw := RawDurations(Slice(a, realCharLength, AlignmentColumns(realMelLength, r)));
         raw[0] == 0 && raw[|raw| - 1] == 0
    ensures res.Success? || res == Failure(LengthMismatch) ==>
      (res == Failure(LengthMismatch) <==> |a.cells| < realCharLength)
  {
    if r == 0 {
      return Failure(ReductionFactorZero);
    }
    var alignmentMelLength := AlignmentColumns(realMelLength, r);
    var sliced := Slice(a, realCharLength, alignmentMelLength);
    var extracted := GetDurationFromAlignment(sliced);
    if extracted.Failure? {
      return extracted;
    }
    var raw := extracted.value;
    ReconcileAfterSlicing(raw[..], r, realMelLength, sliced.width);
    var reconciled := Reconcile(raw, r, realMelLength);
    if reconciled.Failure? {
      return reconciled;
    }
    var d := reconciled.value;
    if d.Length != realCharLength {
      return Failure(LengthMismatch);
    }
    return Success(d);
  }
}
