/** The raw extractor: for every decoder step (column) of an attention
    alignment, the input unit (row) that received the strongest attention
    wins one frame. */
module Extractor {
  import opened Outcomes
  import opened Sums

  /** A 2-D array of attention weights, held as a value (the extractor never
      writes to it): one sequence of weights per row, that is per input
      character, each holding one weight per column, that is per decoder
      step. The width is kept apart so that an array with no rows still has
      a number of columns. */
  datatype Grid = Grid(cells: seq<seq<real>>, width: nat)

  /** A grid whose rows all have its width, as every numpy 2-D array does. */
  type Alignment = g: Grid | forall i :: 0 <= i < |g.cells| ==> |g.cells[i]| == g.width
    witness Grid([], 0)

  /** Column j of the alignment, alignment[:, j]. */
  function Column(a: Alignment, j: nat): (c: seq<real>)
    requires j < a.width
    ensures |c| == |a.cells| && forall i :: 0 <= i < |a.cells| ==> c[i] == a.cells[i][j]
  {
    seq(|a.cells|, i requires 0 <= i < |a.cells| => a.cells[i][j])
  }

  /** The maximum of a non-empty column, as numpy's max() returns it. */
  function Max(c: seq<real>): (m: real)
    requires |c| > 0
    ensures m in c
    ensures forall i :: 0 <= i < |c| ==> c[i] <= m
  {
    if |c| == 1 then c[0]
    else
      var m' := Max(c[..|c| - 1]);
      if c[|c| - 1] > m' then c[|c| - 1] else m'
  }

  /** The position of the first occurrence of x in c, as list.index returns
      it; |c| when x does not occur (where list.index would raise). */
  function IndexOf(c: seq<real>, x: real): (k: nat)
    ensures k <= |c|
    ensures k < |c| ==> c[k] == x
    ensures forall i :: 0 <= i < k ==> c[i] != x
  {
    if c == [] then 0
    else if c[0] == x then 0
    else 1 + IndexOf(c[1..], x)
  }

  /** k is a row holding the column maximum, and no earlier row does. */
  ghost predicate IsFirstArgmax(c: seq<real>, k: int) {
    && 0 <= k < |c|
    && (forall i :: 0 <= i < |c| ==> c[i] <= c[k])
    && (forall i :: 0 <= i < k ==> c[i] < c[k])
  }

  /** The row that wins a column: list(c).index(c.max()). It is the one and
      only first-occurrence argmax, so ties go to the lowest row. */
  function IndexOfMax(c: seq<real>): (k: nat)
    requires |c| > 0
    ensures IsFirstArgmax(c, k)
    ensures forall k' :: IsFirstArgmax(c, k') ==> k' == k
  {
    IndexOf(c, Max(c))
  }

  /** A reference definition of the winning row among the first n entries:
      one left-to-right pass that moves to a later row only when it holds a
      strictly larger weight. */
  function ArgmaxScan(c: seq<real>, n: nat): (k: nat)
    requires 0 < n <= |c|
    ensures k < n
    ensures forall i :: 0 <= i < n ==> c[i] <= c[k]
    ensures forall i :: 0 <= i < k ==> c[i] < c[k]
  {
    if n == 1 then 0
    else
      var k := ArgmaxScan(c, n - 1);
      if c[n - 1] > c[k] then n - 1 else k
  }

  /** The winning row of each of the first `cols` columns, in column order. */
  function Winners(a: Alignment, cols: nat): (w: seq<nat>)
    requires cols <= a.width
    requires cols > 0 ==> |a.cells| > 0
    ensures |w| == cols
    ensures forall j :: 0 <= j < cols ==> w[j] < |a.cells|
  {
    if cols == 0 then []
    else Winners(a, cols - 1) + [ArgmaxScan(Column(a, cols - 1), |a.cells|)]
  }

  /** Counts of each row index 0..n-1 among the first j winners, built one
      winner at a time the way the extractor's loop increments D[max_index]. */
  function Tally(w: seq<nat>, j: nat, n: nat): (h: seq<int>)
    requires j <= |w|
    requires forall i :: 0 <= i < |w| ==> w[i] < n
    ensures |h| == n
  {
    if j == 0 then Zeros(n)
    else
      var h := Tally(w, j - 1, n);
      h[w[j - 1] := h[w[j - 1]] + 1]
  }

  /** One more winner adds one to its own counter and changes no other. */
  lemma TallyStep(w: seq<nat>, j: nat, n: nat)
    requires j < |w|
    requires forall i :: 0 <= i < |w| ==> w[i] < n
    ensures forall i :: 0 <= i < n ==>
      Tally(w, j + 1, n)[i] == Tally(w, j, n)[i] + (if i == w[j] then 1 else 0)
  {
  }

  /** Entry i of the tally is the number of times i occurs among the first
      j winners. */
  lemma {:induction false} TallyCounts(w: seq<nat>, j: nat, n: nat, i: nat)
    requires j <= |w|
    requires forall k :: 0 <= k < |w| ==> w[k] < n
    requires i < n
    ensures Tally(w, j, n)[i] == multiset(w[..j])[i]
  {
    if j > 0 {
      TallyCounts(w, j - 1, n, i);
      assert w[..j] == w[..j - 1] + [w[j - 1]];
    }
  }

  /** Each of the first j winners is counted exactly once. */
  lemma {:induction false} TallySum(w: seq<nat>, j: nat, n: nat)
    requires j <= |w|
    requires forall k :: 0 <= k < |w| ==> w[k] < n
    ensures Sum(Tally(w, j, n)) == j
  {
    if j == 0 {
      SumToZeros(n, n);
    } else {
      TallySum(w, j - 1, n);
      var h := Tally(w, j - 1, n);
      SumUpdate(h, w[j - 1], h[w[j - 1]] + 1);
    }
  }

  /** Winners [0, 0, 1, 1, 2] over three rows give raw durations [2, 2, 1]. */
  lemma ExampleTally()
    ensures Tally([0, 0, 1, 1, 2], 5, 3) == [2, 2, 1]
  {
    assert Tally([0, 0, 1, 1, 2], 2, 3) == [2, 0, 0];
  }

  /** A column split evenly between two rows goes to the first of them. */
  lemma ExampleTie()
    ensures IndexOfMax([0.25, 0.5, 0.5]) == 1
  {
    assert IsFirstArgmax([0.25, 0.5, 0.5], 1);
  }

  /** The raw duration vector of an alignment: the tally of all its winners. */
  ghost function RawDurations(a: Alignment): (d: seq<int>)
    requires a.width > 0 ==> |a.cells| > 0
    ensures |d| == |a.cells|
  {
    var w := Winners(a, a.width);
    Tally(w, |w|, |a.cells|)
  }

  /** Properties of the raw vector: one count per row, the counts add up to
      the number of columns, and count i is the number of columns won by row i. */
  lemma RawDurationsMeaning(a: Alignment)
    requires a.width > 0 ==> |a.cells| > 0
    ensures Sum(RawDurations(a)) == a.width
    ensures forall i :: 0 <= i < |a.cells| ==>
      RawDurations(a)[i] == multiset(Winners(a, a.width))[i] >= 0
  {
    var w := Winners(a, a.width);
    var m: multiset<nat> := multiset(w);
    TallySum(w, a.width, |a.cells|);
    forall i: nat | i < |a.cells|
      ensures RawDurations(a)[i] == m[i]
    {
      TallyCounts(w, a.width, |a.cells|, i);
      assert w[..a.width] == w;
    }
  }

  /** A fresh array of n zero counters. */
  method NewCounters(n: nat) returns (d: array<int>)
    ensures fresh(d) && d[..] == Zeros(n)
  {
    d := new int[n](_ => 0);
    assert forall i :: 0 <= i < n ==> d[i] == 0;
  }

  /** The winner recorded for column j is that column's first-occurrence argmax. */
  lemma {:induction false} WinnersAt(a: Alignment, cols: nat, j: nat)
    requires cols <= a.width
    requires cols > 0 ==> |a.cells| > 0
    requires j < cols
    ensures Winners(a, cols)[j] == ArgmaxScan(Column(a, j), |a.cells|)
  {
    if j < cols - 1 {
      WinnersAt(a, cols - 1, j);
    }
  }

  /** The row that wins column j, list(alignment[:, j]).index(alignment[:, j].max()). */
  method ColumnWinner(a: Alignment, j: nat) returns (k: nat)
    requires j < a.width && |a.cells| > 0
    ensures IsFirstArgmax(Column(a, j), k)
    ensures k == Winners(a, a.width)[j] && k < |a.cells|
  {
    var c := Column(a, j);
    k := IndexOfMax(c);
    WinnersAt(a, a.width, j);
    assert IsFirstArgmax(c, ArgmaxScan(c, |c|));
  }

  /** The scan of get_duration_from_alignment: a fresh counter per row, and
      one increment per column at the column's first-occurrence argmax. */
  method CountWinners(a: Alignment) returns (d: array<int>)
    requires a.width > 0 ==> |a.cells| > 0
    ensures fresh(d) && d[..] == RawDurations(a)
  {
    d := NewCounters(|a.cells|);
    ghost var w := Winners(a, a.width);
    for j := 0 to a.width
      invariant forall i :: 0 <= i < |a.cells| ==> d[i] == Tally(w, j, |a.cells|)[i]
    {
      var k := ColumnWinner(a, j);
      TallyStep(w, j, |a.cells|);
      d[k] := d[k] + 1;
    }
  }

  /** get_duration_from_alignment: one counter per row of the alignment,
      counting the columns the row wins. A column of an array with no rows
      has no maximum, which is an error. */
  method GetDurationFromAlignment(a: Alignment) returns (res: Result<array<int>>)
    ensures res.Failure? <==> |a.cells| == 0 && a.width > 0
    ensures res.Failure? ==> res.error == EmptyColumn
    ensures res.Success? ==> res.value.Length == |a.cells|
    ensures res.Success? ==> res.value[..] == RawDurations(a)
    ensures res.Success? ==> Sum(res.value[..]) == a.width
    ensures res.Success? ==> forall i :: 0 <= i < |a.cells| ==> res.value[i] >= 0
    ensures res.Success? ==> fresh(res.value)
  {
    if |a.cells| == 0 && a.width > 0 {
      // the first column's max() finds no element
      return Failure(EmptyColumn);
    }
    var d := CountWinners(a);
    RawDurationsMeaning(a);
    return Success(d);
  }
}
