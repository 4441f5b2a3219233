# Alignment-to-duration extraction

A Dafny model of the duration extractor of the self-attention Tacotron 2
application. The extractor reads the attention alignment that the trained
synthesis model produces for one utterance. Rows are input characters and
columns are decoder steps, and one column stands for `r` mel frames (the
reduction factor). The extractor turns the alignment into an integer duration
per character. The durations must sum to the true number of mel frames.

The model has two stages and one driver:

- `Extractor` (`get_duration_from_alignment`) scans the columns. For each
  column it picks the row that holds the column maximum, taking the first such
  row as `list(col).index(col.max())` does, and increments that row's counter
  in an array. Its specification counts the winners given by an independent
  one-pass argmax, and the scan is proved to agree with it.
- `Reconciler` is the scale/trim/check block of the per-utterance loop, lifted
  into a method of its own. It multiplies every count by `r` into a new array,
  keeping a running total as it goes. It fails if the total falls short of the
  mel length. Otherwise it removes the surplus in place: from the last unit
  if that unit has more than the surplus, else from the first unit if it has
  more, else by a split of `rest // 2` off the last unit and the rest off the
  first. It then fails if either edge went negative.
- `Utterance` is the per-utterance driver. It computes `ceil(mel length / r)`
  columns and slices the alignment to the character and column counts
  (`alignment[:chars, :columns]`), with Python's clamping of slice bounds. It runs both stages and checks that there is one
  duration per character. The final sum assertion is proved rather than
  checked.

Python assertions and exceptions become `Failure` values (`Outcomes.Error`):

- `ReductionFactorZero`: the ceiling of a division by zero.
- `EmptyColumn`: the `max()` of a column when the matrix has no rows.
- `InsufficientCoverage`: the coverage assertion.
- `NegativeEdge`: the edge assertion.
- `LengthMismatch`: the length assertion.

The alignment is a value: a sequence of rows of `real` weights, all of one
stated width, so that an array with no rows still has columns. Nothing writes
to it, and its weights are only compared. The duration vector is an `array`
that the code fills, scales into a new array and then trims in place.
Durations are unbounded `int`.

Behaviour that follows the code and is easy to misread:

- An alignment with no columns gives a vector of zeros, not an error. Only a
  column with no rows raises.
- The edge assertion can fail even when the two edges together hold the
  surplus. With edges 0 and 10 and a surplus of 10, the split takes 5 from
  each, and the first edge drops to -5.
- When the column count is the ceiling, the surplus is below `r`. Trimming
  then fails exactly when there is a surplus and neither the first nor the
  last character won any column (`ReconcileSmallSurplus`). The coverage check
  fails exactly when the matrix has fewer columns than the ceiling.
- With one character, the first and the last durations are the same cell. The
  split subtracts both halves from it.

## Model

| member | source | states |
|---|---|---|
| `Extractor.Column` | deepinsight_speech/apps/selfattention_tacotron2/extract_duration.py:27 | `alignment[:, i]` has one entry per row, entry k being the row's weight in column i |
| `Extractor.Max` | deepinsight_speech/apps/selfattention_tacotron2/extract_duration.py:27 | the column maximum occurs in the column and is at least every entry |
| `Extractor.IndexOf` | deepinsight_speech/apps/selfattention_tacotron2/extract_duration.py:27 | `list.index`: the result holds the value and no earlier position does; the length of the list when the value is absent |
| `Extractor.IndexOfMax` | deepinsight_speech/apps/selfattention_tacotron2/extract_duration.py:27 | `index(max)` is the one and only row that holds the maximum with every earlier row strictly smaller (ties go to the lowest row) |
| `Extractor.ArgmaxScan` | deepinsight_speech/apps/selfattention_tacotron2/extract_duration.py:27 | the reference winner: a row among the first n whose weight is at least every weight there and strictly above every earlier one |
| `Extractor.Winners` | deepinsight_speech/apps/selfattention_tacotron2/extract_duration.py:26-27 | one winner per column, each a valid row index |
| `Extractor.WinnersAt` | deepinsight_speech/apps/selfattention_tacotron2/extract_duration.py:26-27 | the winner recorded for column j is the reference argmax of column j |
| `Extractor.ColumnWinner` | deepinsight_speech/apps/selfattention_tacotron2/extract_duration.py:27 | the row `index(max)` picks for column j satisfies the first-argmax property and is exactly the reference winner of column j |
| `Extractor.TallyStep` | deepinsight_speech/apps/selfattention_tacotron2/extract_duration.py:28 | one more column adds one to its winner's counter and changes no other |
| `Extractor.Tally` | deepinsight_speech/apps/selfattention_tacotron2/extract_duration.py:24-28 | the counters after the first j winners: one counter per row, starting from zeros and adding one at each winner; their meaning is stated by `TallyCounts` and `TallySum` |
| `Extractor.TallyCounts` | deepinsight_speech/apps/selfattention_tacotron2/extract_duration.py:24-28 | after j increments, counter i equals the number of times i occurs among the first j winners |
| `Extractor.TallySum` | deepinsight_speech/apps/selfattention_tacotron2/extract_duration.py:24-28 | after j increments the counters sum to j (each column adds exactly one) |
| `Extractor.RawDurationsMeaning` | deepinsight_speech/apps/selfattention_tacotron2/extract_duration.py:24-30 | the raw vector sums to the column count, and entry i is the non-negative number of columns won by row i |
| `Extractor.RawDurations` | deepinsight_speech/apps/selfattention_tacotron2/extract_duration.py:22-30 | the vector `get_duration_from_alignment` returns for an alignment: one count per row, the tally of all its column winners |
| `Extractor.NewCounters` | deepinsight_speech/apps/selfattention_tacotron2/extract_duration.py:24 | a new array of one zero per row |
| `Extractor.CountWinners` | deepinsight_speech/apps/selfattention_tacotron2/extract_duration.py:24-28 | the loop leaves in a new array exactly the raw durations: counter i is the tally of the columns row i wins |
| `Extractor.GetDurationFromAlignment` | deepinsight_speech/apps/selfattention_tacotron2/extract_duration.py:22-30 | fails (with EmptyColumn) exactly when there are columns but no rows; otherwise returns a new array of one counter per row, equal to the raw durations, summing to the column count, all non-negative |
| `Extractor.ExampleTally` | deepinsight_speech/apps/selfattention_tacotron2/extract_duration.py:26-28 | winners 0,0,1,1,2 over three rows give counts 2,2,1 |
| `Extractor.ExampleTie` | deepinsight_speech/apps/selfattention_tacotron2/extract_duration.py:27 | a tie between rows 1 and 2 goes to row 1 |
| `Reconciler.Scale` | deepinsight_speech/apps/selfattention_tacotron2/extract_duration.py:151 | `d * r` keeps the length and multiplies each entry by r |
| `Sums.Sum` | deepinsight_speech/apps/selfattention_tacotron2/extract_duration.py:152-153 | `np.sum`: the left-to-right total, non-negative when every entry is |
| `Reconciler.SumScale` | deepinsight_speech/apps/selfattention_tacotron2/extract_duration.py:151-153 | the scaled total is r times the raw total |
| `Reconciler.TrimEdges` | deepinsight_speech/apps/selfattention_tacotron2/extract_duration.py:158-164 | trimming keeps the length and never touches an interior entry |
| `Reconciler.TrimEdgesSum` | deepinsight_speech/apps/selfattention_tacotron2/extract_duration.py:156-165 | in every branch, including a one-element vector, exactly `rest` is removed |
| `Reconciler.TrimEdgesPriority` | deepinsight_speech/apps/selfattention_tacotron2/extract_duration.py:158-164 | last edge alone (left positive, first untouched) if it exceeds rest; else first edge alone (left positive) if it exceeds rest; else rest // 2 off the last and rest - rest // 2 off the first, both off the one cell when there is one element |
| `Reconciler.TrimEdgesNegativeOnlyInSplit` | deepinsight_speech/apps/selfattention_tacotron2/extract_duration.py:158-166 | from non-negative edges, a negative edge arises only when neither edge exceeds rest |
| `Reconciler.ReconcileDurations` | deepinsight_speech/apps/selfattention_tacotron2/extract_duration.py:151-166 | the scale, coverage, trim and edge checks as a value: it can fail only with the coverage or the edge error, and a success has one duration per raw count; its full behaviour is stated by `ReconcileSound`, `ReconcileCoverage`, `ReconcileExact` and `ReconcileSmallSurplus` |
| `Reconciler.ReconcileSound` | deepinsight_speech/apps/selfattention_tacotron2/extract_duration.py:151-177 | a successful reconciliation keeps the length and sums to the mel length; after trimming both edges are non-negative; interior entries keep their scaled values |
| `Reconciler.ReconcileCoverage` | deepinsight_speech/apps/selfattention_tacotron2/extract_duration.py:152-154 | the coverage failure happens exactly when r times the raw total is below the mel length |
| `Reconciler.ReconcileExact` | deepinsight_speech/apps/selfattention_tacotron2/extract_duration.py:155 | when the scaled total equals the mel length the scaled vector is returned unchanged |
| `Reconciler.TrimSmallSurplus` | deepinsight_speech/apps/selfattention_tacotron2/extract_duration.py:158-166 | with a surplus below r and edges that are each 0 or at least r, an edge goes negative exactly when both edges are 0; otherwise no entry is negative |
| `Reconciler.ReconcileSmallSurplus` | deepinsight_speech/apps/selfattention_tacotron2/extract_duration.py:155-166 | with non-negative counts and a surplus below r, the edge failure happens exactly when there is a surplus and both edge counts are zero; on success every duration is non-negative |
| `Reconciler.ExampleTrimLast` | deepinsight_speech/apps/selfattention_tacotron2/extract_duration.py:158-159 | raw 2,2,1 at r = 2 against 9 frames gives 4,4,1 |
| `Reconciler.ExampleSplit` | deepinsight_speech/apps/selfattention_tacotron2/extract_duration.py:162-164 | raw 1,3,1 at r = 2 against 7 frames gives 0,6,1 through the split |
| `Reconciler.ScaleCounts` | deepinsight_speech/apps/selfattention_tacotron2/extract_duration.py:151-153 | a new array holding r times each count, and its running total equal to the sum of that array |
| `Reconciler.TrimInPlace` | deepinsight_speech/apps/selfattention_tacotron2/extract_duration.py:156-164 | the in-place edge updates leave the array equal to the trimmed vector |
| `Reconciler.Reconcile` | deepinsight_speech/apps/selfattention_tacotron2/extract_duration.py:151-166 | the array method fails or succeeds exactly as ReconcileDurations does, with the same error or the same contents; on success it is a new array, not the input, with the input's length and summing to the mel length |
| `Utterance.AlignmentColumns` | deepinsight_speech/apps/selfattention_tacotron2/extract_duration.py:143-147 | the ceiling: the least column count whose r frames each cover the mel length |
| `Utterance.SliceLength` | deepinsight_speech/apps/selfattention_tacotron2/extract_duration.py:148 | a Python slice `[:n]` keeps min(n, len) entries |
| `Utterance.Slice` | deepinsight_speech/apps/selfattention_tacotron2/extract_duration.py:148 | `alignment[:n, :m]` has the clamped numbers of rows and columns and keeps every weight it retains at its place |
| `Utterance.CeilingCoverage` | deepinsight_speech/apps/selfattention_tacotron2/extract_duration.py:143-154 | raw counts totalling the ceiling pass the coverage check and leave a surplus below r |
| `Utterance.ShortMatrixUncovered` | deepinsight_speech/apps/selfattention_tacotron2/extract_duration.py:143-154 | fewer columns than the ceiling cannot cover the mel length |
| `Utterance.ReconcileAfterSlicing` | deepinsight_speech/apps/selfattention_tacotron2/extract_duration.py:143-177 | for counts of a sliced alignment: coverage fails exactly when the alignment has fewer columns than the ceiling; the edge check fails exactly when there is a surplus and both edge characters won no column; a success is non-negative and sums to the mel length |
| `Utterance.ExtractDuration` | deepinsight_speech/apps/selfattention_tacotron2/extract_duration.py:141-177 | on success: a new array holding exactly the reconciled raw durations of `alignment[:chars, :ceil(mel / r)]`, one non-negative duration per character, summing to the mel length. Each failure kind is characterised exactly: a zero factor; no rows but some columns; fewer columns than the ceiling; a surplus with both edge characters winning no column; and, once the earlier checks pass, fewer rows than characters |

## Left out

- Model construction, checkpoint loading and the `tf.function` inference that produces the alignment (lines 110-138). These are calls into TensorFlow, and the alignment is a parameter here.
- The dataset loader, batching and the two loops over batches and utterances (lines 97-107, 120-126, 140). Utterances are independent, so one utterance is modelled.
- Option parsing, YAML configuration and directory creation (lines 33-94). The reduction factor is a parameter.
- Saving the durations as `.npy` with a cast to 32-bit integers, and the alignment plot (lines 179-201). This is file output.
- The numba `@jit` decorator and the `tqdm` progress bar. They change only speed and display.
- The assertion messages. A failure carries only its kind.
- Utterance.ExtractDuration: treats `int(np.ceil(melLength / r))` as the exact integer ceiling. Floating-point rounding for lengths beyond 2^53 is not modelled.
- Utterance.ExtractDuration: does not model NaN alignment values. Under NaN, `max` and `index` can disagree, and `index` can raise.
- Reconciler.Reconcile: durations are unbounded integers, so 64-bit overflow of `d * r` is not modelled.
- Extractor.GetDurationFromAlignment: with no rows and some columns, the source raises on the first column, after allocating the counters. The model reports EmptyColumn before the loop. The outcome is the same.
- Extractor.GetDurationFromAlignment: takes the alignment as a value, not as a numpy array in memory. Nothing writes to the alignment, so only its storage and the view semantics of numpy slicing are not captured.
