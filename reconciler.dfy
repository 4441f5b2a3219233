/** The reconciler: scale raw per-column counts by the reduction factor and
    trim the surplus over the true mel length from the two edge units. */
module Reconciler {
  import opened Outcomes
  import opened Sums

  /** Every count multiplied by the reduction factor (d * r in numpy). */
  function Scale(s: seq<int>, r: int): (t: seq<int>)
    ensures |t| == |s|
    ensures forall i :: 0 <= i < |s| ==> t[i] == s[i] * r
  {
    seq(|s|, i requires 0 <= i < |s| => s[i] * r)
  }

  /** Scaling every count scales every partial total. */
  lemma {:induction false} SumToScale(s: seq<int>, r: int, n: nat)
    requires n <= |s|
    ensures SumTo(Scale(s, r), n) == r * SumTo(s, n)
  {
    if n > 0 {
      SumToScale(s, r, n - 1);
      assert Scale(s, r)[n - 1] == s[n - 1] * r;
      assert r * SumTo(s, n) == r * SumTo(s, n - 1) + r * s[n - 1];
    }
  }

  /** Scaling every count scales the total. */
  lemma SumScale(s: seq<int>, r: int)
    ensures Sum(Scale(s, r)) == r * Sum(s)
  {
    SumToScale(s, r, |s|);
  }

  /** Remove `rest` frames from the edges: all from the last unit if it has
      more than `rest`, else all from the first unit if it has more, else
      rest / 2 from the last and the other rest - rest / 2 from the first.
      With a single unit the first and the last are the same cell, and the
      second subtraction sees the result of the first. */
  function TrimEdges(d: seq<int>, rest: int): (t: seq<int>)
    requires |d| > 0
    ensures |t| == |d|
    ensures forall i :: 0 < i < |d| - 1 ==> t[i] == d[i]
  {
    var last := |d| - 1;
    if d[last] > rest then d[last := d[last] - rest]
    else if d[0] > rest then d[0 := d[0] - rest]
    else
      var t := d[last := d[last] - rest / 2];
      t[0 := t[0] - (rest - rest / 2)]
  }

  /** Whatever branch is taken, exactly `rest` frames are removed. */
  lemma TrimEdgesSum(d: seq<int>, rest: int)
    requires |d| > 0
    ensures Sum(TrimEdges(d, rest)) == Sum(d) - rest
  {
    var last := |d| - 1;
    var t := TrimEdges(d, rest);
    if d[last] > rest {
      assert Sum(t) == Sum(d) - rest by {
        assert t == d[last := d[last] - rest];
        SumUpdate(d, last, d[last] - rest);
      }
    } else if d[0] > rest {
      assert Sum(t) == Sum(d) - rest by {
        assert t == d[0 := d[0] - rest];
        SumUpdate(d, 0, d[0] - rest);
      }
    } else {
      var half := rest / 2;
      var t1 := d[last := d[last] - half];
      assert Sum(t1) == Sum(d) - half by {
        SumUpdate(d, last, d[last] - half);
      }
      assert Sum(t) == Sum(t1) - (rest - half) by {
        assert t == t1[0 := t1[0] - (rest - half)];
        SumUpdate(t1, 0, t1[0] - (rest - half));
      }
    }
  }

  /** The trimming priority, branch by branch: the last unit alone, else the
      first unit alone (each left strictly positive and its partner edge
      untouched), else a split with rest / 2 off the last unit and the
      larger half off the first. */
  lemma TrimEdgesPriority(d: seq<int>, rest: int)
    requires |d| > 0
    ensures var t, last := TrimEdges(d, rest), |d| - 1;
      && (d[last] > rest ==>
            t[last] == d[last] - rest > 0 && (last > 0 ==> t[0] == d[0]))
      && (d[last] <= rest && d[0] > rest ==>
            t[0] == d[0] - rest > 0 && (last > 0 ==> t[last] == d[last]))
      && (d[last] <= rest && d[0] <= rest && last > 0 ==>
            t[last] == d[last] - rest / 2 && t[0] == d[0] - (rest - rest / 2))
      && (d[last] <= rest && d[0] <= rest && last == 0 ==>
            t[0] == d[0] - rest)
  {
  }

  /** Starting from non-negative edges, an edge can go negative only in the
      split branch. */
  lemma TrimEdgesNegativeOnlyInSplit(d: seq<int>, rest: int)
    requires |d| > 0 && d[0] >= 0 && d[|d| - 1] >= 0
    requires TrimEdges(d, rest)[0] < 0 || TrimEdges(d, rest)[|d| - 1] < 0
    ensures d[|d| - 1] <= rest && d[0] <= rest
  {
  }

  /** The reconciliation the per-utterance block performs on a raw duration
      vector, as a value: scale, fail if the total falls short of the mel
      length, keep the scaled vector if it matches, else trim the surplus
      and fail if an edge went negative. */
  function ReconcileDurations(raw: seq<int>, r: int, melLength: nat): (out: Result<seq<int>>)
    ensures out.Failure? ==> out.error == InsufficientCoverage || out.error == NegativeEdge
    ensures out.Success? ==> |out.value| == |raw|
  {
    var d := Scale(raw, r);
    var total := Sum(d);
    if total < melLength then Failure(InsufficientCoverage)
    else if total == melLength then Success(d)
    else
      var t := TrimEdges(d, total - melLength);
      if t[|t| - 1] >= 0 && t[0] >= 0 then Success(t) else Failure(NegativeEdge)
  }

  /** What a successful reconciliation guarantees: one duration per raw
      count, durations summing to the mel length, non-negative edges, and
      every interior unit keeping its scaled count. */
  lemma ReconcileSound(raw: seq<int>, r: int, melLength: nat)
    requires ReconcileDurations(raw, r, melLength).Success?
    ensures var d := ReconcileDurations(raw, r, melLength).value;
      && |d| == |raw|
      && Sum(d) == melLength
      && (r * Sum(raw) > melLength ==> |d| > 0 && d[0] >= 0 && d[|d| - 1] >= 0)
      && forall i :: 0 < i < |raw| - 1 ==> d[i] == raw[i] * r
  {
    var d := Scale(raw, r);
    SumScale(raw, r);
    if Sum(d) > melLength {
      TrimEdgesSum(d, Sum(d) - melLength);
    }
  }

  /** The coverage assertion fails exactly when r times the raw total is
      below the mel length. */
  lemma ReconcileCoverage(raw: seq<int>, r: int, melLength: nat)
    ensures ReconcileDurations(raw, r, melLength) == Failure(InsufficientCoverage)
        <==> r * Sum(raw) < melLength
  {
    SumScale(raw, r);
  }

  /** When the scaled total already equals the mel length the scaled vector
      is returned unchanged. */
  lemma ReconcileExact(raw: seq<int>, r: int, melLength: nat)
    requires r * Sum(raw) == melLength
    ensures ReconcileDurations(raw, r, melLength) == Success(Scale(raw, r))
  {
    SumScale(raw, r);
  }

  /** Multiplying by a natural number keeps the order. The solver proves
      this on its own; the lemma exists only as a hint that names the
      product inequality for its callers. */
  lemma MulMonotone(x: nat, y: nat, r: int)
    requires r >= 0
    requires x <= y
    ensures x * r <= y * r
  {
  }

  /** Trimming a surplus smaller than r from edges that are each either 0 or
      at least r: an edge goes negative exactly when both edges are 0, and
      otherwise no entry becomes negative. */
  lemma TrimSmallSurplus(d: seq<int>, rest: int, r: int)
    requires |d| > 0 && 0 < rest < r
    requires forall i :: 0 <= i < |d| ==> d[i] >= 0
    requires d[0] == 0 || d[0] >= r
    requires d[|d| - 1] == 0 || d[|d| - 1] >= r
    ensures var t := TrimEdges(d, rest);
      && (t[0] < 0 || t[|d| - 1] < 0 <==> d[0] == 0 && d[|d| - 1] == 0)
      && (t[0] >= 0 && t[|d| - 1] >= 0 ==> forall i :: 0 <= i < |d| ==> t[i] >= 0)
  {
  }

  /** In the usual situation, where the surplus is below one reduction
      factor (the column count is the ceiling of mel length / r), trimming
      fails exactly when there is a surplus and neither the first nor the
      last unit won any column; otherwise every duration is non-negative. */
  lemma ReconcileSmallSurplus(raw: seq<int>, r: int, melLength: nat)
    requires r >= 1 && |raw| > 0
    requires forall i :: 0 <= i < |raw| ==> raw[i] >= 0
    requires melLength <= r * Sum(raw) < melLength + r
    ensures ReconcileDurations(raw, r, melLength) == Failure(NegativeEdge)
        <==> r * Sum(raw) > melLength && raw[0] == 0 && raw[|raw| - 1] == 0
    ensures ReconcileDurations(raw, r, melLength).Success? ==>
      forall i :: 0 <= i < |raw| ==> ReconcileDurations(raw, r, melLength).value[i] >= 0
  {
    SumScale(raw, r);
    var d := Scale(raw, r);
    var last := |raw| - 1;
    forall i | 0 <= i < |raw|
      ensures d[i] >= 0
      ensures raw[i] == 0 || d[i] >= r
    {
      MulMonotone(0, raw[i], r);
      if raw[i] > 0 {
        MulMonotone(1, raw[i], r);
      }
    }
    if Sum(d) > melLength {
      TrimSmallSurplus(d, Sum(d) - melLength, r);
    }
  }

  /** Raw [2, 2, 1] at r = 2 scales to [4, 4, 2], one frame over a mel length
      of 9; the last unit has more than that and alone loses it. */
  lemma ExampleTrimLast()
    ensures ReconcileDurations([2, 2, 1], 2, 9) == Success([4, 4, 1])
  {
    var d := Scale([2, 2, 1], 2);
    assert d == [4, 4, 2];
    assert Sum(d) == 10 by {
      assert SumTo(d, 2) == 8;
    }
    assert TrimEdges(d, 1) == [4, 4, 1];
  }

  /** Raw [1, 3, 1] at r = 2 scales to [2, 6, 2], three frames over a mel
      length of 7 with edges of 2 each: the split takes 1 from the last unit
      and 2 from the first. */
  lemma ExampleSplit()
    ensures ReconcileDurations([1, 3, 1], 2, 7) == Success([0, 6, 1])
  {
    var d := Scale([1, 3, 1], 2);
    assert d == [2, 6, 2];
    assert Sum(d) == 10 by {
      assert SumTo(d, 2) == 8;
    }
    assert TrimEdges(d, 3) == [0, 6, 1];
  }

  /** d * r: a new array holding every count times the reduction factor,
      with the running total of the new entries (np.sum(d)). */
  method ScaleCounts(raw: array<int>, r: nat) returns (d: array<int>, total: int)
    ensures fresh(d)
    ensures d[..] == Scale(raw[..], r)
    ensures total == Sum(d[..])
  {
    d := new int[raw.Length];
    total := 0;
    for i := 0 to raw.Length
      invariant forall k :: 0 <= k < i ==> d[k] == raw[k] * r
      invariant total == SumTo(d[..], i)
    {
      ghost var before := d[..];
      d[i] := raw[i] * r;
      SumToAgree(d[..], before, i);
      total := total + d[i];
    }
  }

  /** The in-place trimming: d[-1] -= rest, or d[0] -= rest, or
      d[-1] -= rest // 2 followed by d[0] -= rest - rest // 2. */
  method TrimInPlace(d: array<int>, rest: int)
    requires d.Length > 0
    modifies d
    ensures d[..] == TrimEdges(old(d[..]), rest)
  {
    var last := d.Length - 1;
    if d[last] > rest {
      d[last] := d[last] - rest;
    } else if d[0] > rest {
      d[0] := d[0] - rest;
    } else {
      d[last] := d[last] - rest / 2;
      d[0] := d[0] - (rest - rest / 2);
    }
  }

  /** The reconciliation block of the per-utterance loop, lifted out: a new
      array holds the scaled counts, the coverage assertion becomes
      InsufficientCoverage, the surplus is trimmed in place from d[-1] and
      d[0], and the edge assertion becomes NegativeEdge. */
  method Reconcile(raw: array<int>, r: nat, melLength: nat) returns (res: Result<array<int>>)
    ensures res.Failure? ==> ReconcileDurations(raw[..], r, melLength) == Failure(res.error)
    ensures res.Success? ==> ReconcileDurations(raw[..], r, melLength) == Success(res.value[..])
    ensures res.Success? ==> res.value.Length == raw.Length && Sum(res.value[..]) == melLength
    ensures res.Success? ==> fresh(res.value)
  {
    ghost var out := ReconcileDurations(raw[..], r, melLength);
    var d, total := ScaleCounts(raw, r);
    if total < melLength {
      return Failure(InsufficientCoverage);
    }
    if total > melLength {
      TrimInPlace(d, total - melLength);
      assert out == if d[d.Length - 1] >= 0 && d[0] >= 0 then Success(d[..]) else Failure(NegativeEdge);
      if !(d[d.Length - 1] >= 0 && d[0] >= 0) {
        return Failure(NegativeEdge);
      }
    }
    assert out == Success(d[..]);
    ReconcileSound(raw[..], r, melLength);
    return Success(d);
  }
}
