# Histograms of moving distance

`calc_histogram.py` rates generated gestures by how fast their joints move.
Each gesture is a recording of joint positions, one row per frame. The
velocity measure takes, for every joint and every pair of adjacent frames,
the size of the joint's displacement times 30. The acceleration measure
takes, for every joint and every three adjacent frames, the size of the
change of velocity: the norm of the positions' second difference, times
30 · 30. The script pools these values over all recordings of one condition
and counts them into a grid of bins of the given width. The grid starts at 0
and ends at the first multiple of the width at or above 49 (50 for a width
of 10). It then writes one CSV line per bin: the bin's lower edge, one count
per joint, and a Total count.

This project models that computation and proves what it produces. It has six
modules:

- `Results`: the `Option` and `Result` wrappers, and the errors the code can raise.
- `Matrices`: a frames-by-columns `Matrix`. Its width is kept apart from its
  rows, so an array with no frames still has a shape. The whole-array NumPy
  steps used are `np.diff`, `m[:, k:]`, scaling, column extraction and
  `np.concatenate`.
- `Kinematics`: `compute_velocity` and `compute_acceleration`. Each is a
  method that fills a preallocated `array2<real>` in nested loops, just as
  the code fills `np.zeros(...)`. Each is proved equal to a field function:
  - `VelocityField`: `30 * ||slice(i+1) - slice(i)||`
  - `AccelerationField`: `30 * 30 * ||slice(i+2) - 2 slice(i+1) + slice(i)||`

  Here slice(i) is joint j's `dim`-wide slice of frame i.
- `Histograms`: the grid `np.arange(0, 49 + width, width)` in exact
  arithmetic, and `np.histogram`'s counting over it. Bins are half-open,
  except the last, which also holds its upper edge.
- `Names`: the sorted order in which files are read (Python string order),
  and the report's path `out_dir/cond_name/hmd_<measure[:3]>_<width>.csv`.
- `Report`: `make_histogram` without its I/O.
  - `MakeHistogram` keeps the code's loops over files, joints and bins. It
    is proved equal to the function `HistogramReport`.
  - The lemmas characterise when the report fails, with which error, and
    how its lines are laid out.

Inputs that are I/O in the program are parameters of the model:
- the loaded arrays, each paired with its file name;
- the norm `np.linalg.norm`, as a function `norm: seq<real> -> real`;
- the text of the width, as `str(width)` prints it.

The lemmas that need the norm's meaning assume `IsEuclideanNorm(norm)`: the
norm is non-negative and its square is the sum of squares.

Where the code and its documentation part ways, the model follows the code:
- `compute_velocity` starts with `data.reshape(data.shape[0], -1)`, and NumPy
  raises for this when a recording has no frames (the `-1` cannot be
  inferred). The velocity measure therefore fails on an empty recording
  (`EmptyReshape`). The acceleration measure has no reshape: it yields no
  rows for fewer than three frames.
- The header line is `",Total"` and names no joint.
- A zero width makes `np.arange` raise (`ZeroWidth`).
- A negative width gives at most one edge and no bins, so the report is
  the header alone.
- With no joint columns left after the strip, `np.sum([], axis=0)` is a
  scalar, and `np.stack(..., axis=1)` raises (`NoJoints`).
- No files at all, or recordings with different joint counts, make
  `np.concatenate` raise (`NothingToConcatenate`, `ColumnMismatch`).

## Model

| member | source | states |
|---|---|---|
| Kinematics.ComputeVelocity | calc_histogram.py:18-48 | a recording with no frames raises at the reshape; otherwise the result is the velocity field: `max(F-1,0)` rows, `cols // dim` columns, entry (i,j) is 30 times the norm of joint j's displacement from frame i to i+1 |
| Kinematics.ComputeAcceleration | calc_histogram.py:51-78 | the result is the acceleration field: `max(F-2,0)` rows, `cols // dim` columns, entry (i,j) is 30·30 times the norm of joint j's second difference over frames i, i+1 and i+2 |
| Kinematics.NormsOfJoints | calc_histogram.py:35-45 | the nested loops fill the zero-initialised matrix with the norm of every row's every `dim`-wide joint slice, `cols // dim` joints per row |
| Kinematics.ScaledNormsAreVelocity | calc_histogram.py:33-48 | the joint norms of `np.diff`'s rows, scaled by 30, are the velocity field |
| Kinematics.ScaledNormsAreAcceleration | calc_histogram.py:63-78 | the joint norms of `np.diff(n=2)`'s rows, scaled by 30 twice, are the acceleration field |
| Kinematics.DiffSlice | calc_histogram.py:33-45 | the slice `vels[i, j*dim : j*dim+dim]` of `np.diff`'s row i is joint j's displacement from frame i to frame i+1, and it lies inside the row |
| Kinematics.Diff2Slice | calc_histogram.py:63-75 | the slice `accs[i, j*dim : j*dim+dim]` of `np.diff(n=2)`'s row i is joint j's second difference `data[i+2] - 2 data[i+1] + data[i]`, and it lies inside the row |
| Kinematics.CurvatureIsDisplacementChange | calc_histogram.py:63 | the second difference is the displacement from frames i+1 to i+2 minus the displacement from i to i+1 |
| Kinematics.VelocityZero | calc_histogram.py:45-48 | every velocity entry is ≥ 0, and it is 0 exactly when the joint's slice is the same in both frames |
| Kinematics.AccelerationZero | calc_histogram.py:75-78 | every acceleration entry is ≥ 0, and it is 0 exactly when every coordinate of the joint's second difference is 0 |
| Kinematics.FieldsNonNegative | calc_histogram.py:45-78 | both fields are non-negative everywhere |
| Kinematics.NormZero | calc_histogram.py:45 | a Euclidean norm is ≥ 0, and it is 0 exactly when the vector is zero |
| Kinematics.VelocityIgnoresTrailingColumns | calc_histogram.py:36-45 | two recordings that agree on the first `(cols // dim) * dim` columns have the same velocity field |
| Kinematics.AccelerationIgnoresTrailingColumns | calc_histogram.py:66-75 | the same for the acceleration field |
| Matrices.Diff | calc_histogram.py:33 | `np.diff` keeps the width and leaves `max(F-1,0)` rows |
| Matrices.Concatenate | calc_histogram.py:144 | no matrices, or matrices of different widths, raise; otherwise the rows of every matrix in turn, of the common width, as many rows as all the parts together |
| Matrices.StackRowsShape | calc_histogram.py:144 | stacking valid matrices of one width gives rows of that width, and keeps non-negative entries non-negative |
| Names.SortByNameSorted | calc_histogram.py:131 | `sorted(...)` puts the file names in ascending Python string order and keeps every file exactly once |
| Names.SortByName | calc_histogram.py:131 | `sorted(...)` keeps every file exactly once (a permutation); SortByNameSorted shows the result is in name order |
| Names.NameLeTotal | calc_histogram.py:131 | any two names are ordered one way or the other |
| Names.NameLeTransitive | calc_histogram.py:131 | the name order is transitive |
| Names.NameLeAntisymmetric | calc_histogram.py:131 | names ordered both ways are equal |
| Names.Join | calc_histogram.py:97 | `os.path.join` leaves the second part at the end of the path, after the first part unless the second is absolute |
| Names.OutputPath | calc_histogram.py:95-97 | the report's path ends in the file name and starts with `out_dir/cond_name` |
| Names.FileName | calc_histogram.py:95-96 | the name is `hmd_`, then the first three letters of the measure (all of a shorter one), then `_`, the width text and `.csv` |
| Names.FileNamesDistinct | calc_histogram.py:95-96 | the measures give `hmd_vel_<width>.csv` and `hmd_acc_<width>.csv`, and two (measure, width) settings share a file name exactly when they are the same setting |
| Report.FileDistances | calc_histogram.py:136-140 | one file's distances fail exactly for velocity on a file without frames; otherwise they have `(max(cols-8,0)) // 3` columns and `max(F - order, 0)` rows |
| Report.FileStep | calc_histogram.py:138-140 | the strip of 8 columns followed by the chosen measure's method gives that file's distances |
| Report.Distances | calc_histogram.py:135-142 | the per-file distances fail exactly when some file fails, always with the reshape error; otherwise there is one per file, in file order |
| Report.Pooled | calc_histogram.py:131-144 | the concatenation of the distances of the files in sorted order is a rectangular matrix whenever it exists; PooledRows, PooledNonNegative and ReportOutcome give its rows, its sign and its failures |
| Report.FileLoop | calc_histogram.py:135-142 | the loop that appends each file's distances, stopping at the first error, gives the distances of all files |
| Report.JointLoop | calc_histogram.py:148-153 | the loop that appends one histogram per joint column gives every joint's histogram |
| Report.LineLoop | calc_histogram.py:161-167 | the loop over bins, and the inner loop over the counts of one bin, give one line per bin holding the bin's lower edge and its row of counts |
| Report.MakeHistogram | calc_histogram.py:103-182 | the whole computation, with its loops, gives exactly the report that `HistogramReport` describes, errors included |
| Report.HistogramReport | calc_histogram.py:127-129 | an unknown measure raises before any file is read |
| Report.ReportOutcome | calc_histogram.py:103-167 | the report fails exactly when one of the code's error conditions holds, with that condition's error, checked in the code's order: unknown measure, velocity on an empty recording, no files, different joint counts, zero width, no joints |
| Report.SortedDistancesFail | calc_histogram.py:131-142 | over the sorted files, the measure fails exactly when it is velocity and some recording has no frames |
| Report.SortedSameFiles | calc_histogram.py:131 | sorting keeps the number of files and exactly the same files |
| Report.ReportLayout | calc_histogram.py:133-167 | a report is the `",Total"` header followed by exactly `num_bins` lines; line i+1 holds the edge `i * width` and row i of the table; a negative width leaves only the header, and a positive one gives at least one bin line |
| Report.TableRow | calc_histogram.py:151-159 | in each bin's row, joint j's entry is the number of pooled values of column j that the bin holds, and the Total entry is the sum of the joint entries |
| Report.Totals | calc_histogram.py:156 | `np.sum(..., axis=0)` gives one total per bin; TableRow and TotalIsPooledHistogram show each total is the sum of the joint counts and the histogram of all pooled values |
| Report.Table | calc_histogram.py:156-159 | the stacked table has one row per bin and `num_joints + 1` entries per row; TableRow shows what the entries are |
| Report.JointTotals | calc_histogram.py:147-153 | for a positive width, a joint's counts sum to at most its number of samples, and to all of them exactly when none exceeds the last edge |
| Report.PooledNonNegative | calc_histogram.py:140-144 | every pooled distance is ≥ 0 |
| Report.PooledRows | calc_histogram.py:131-144 | the pooled matrix has `max(F - order, 0)` rows per file of F frames, summed over the files |
| Report.FrameSumSorted | calc_histogram.py:131 | sorting the files does not change the summed row count |
| Report.TotalIsPooledHistogram | calc_histogram.py:151-156 | the Total column is the histogram of all pooled values taken together |
| Histograms.GridIsArange | calc_histogram.py:147 | edge k exists exactly when `k * width` lies before the stop `49 + width`: below it for a positive width, above it for a negative one |
| Histograms.EdgeCount | calc_histogram.py:147 | for a positive width the grid has n ≥ 2 edges, where n is the least count with `n * width ≥ 49 + width`; for a negative width it has at most one |
| Histograms.GridCovers | calc_histogram.py:147-161 | for a positive width the grid starts at 0, increases, has `EdgeCount - 1 ≥ 1` bins, and ends at a last edge in `[49, 49 + width)` |
| Histograms.NegativeWidthHasNoBins | calc_histogram.py:147-161 | a negative width gives at most one edge, hence no bins |
| Histograms.EdgesIncreasing | calc_histogram.py:147 | every grid built here increases |
| Histograms.Locate | calc_histogram.py:151 | a sample is put only into a bin that holds it |
| Histograms.Histogram | calc_histogram.py:151 | `np.histogram` gives one count per bin; HistogramCounts shows what each count is |
| Histograms.LocateFinds | calc_histogram.py:151 | a sample is counted exactly when it lies between the first and the last edge |
| Histograms.LocateExact | calc_histogram.py:151 | a sample is put into bin k exactly when bin k holds it |
| Histograms.InBinUnique | calc_histogram.py:151 | no sample is in two bins |
| Histograms.HistogramCounts | calc_histogram.py:151 | bin k of `np.histogram` counts exactly the samples in `[e_k, e_{k+1})`, or in `[e_{n-2}, e_{n-1}]` for the last bin |
| Histograms.HistogramTotal | calc_histogram.py:151 | a histogram's counts sum to the number of samples between the first and the last edge |
| Histograms.InRangeCountBound | calc_histogram.py:151 | at most every sample is in range, and all are exactly when each one is |
| Histograms.CountInConcat | calc_histogram.py:151 | counting two sample lists together is counting them apart and adding, bin by bin |
| Histograms.HistogramConcat | calc_histogram.py:151-156 | the histogram of two sample lists together is the sum of their histograms |

## Left out

- File listing and loading (`glob`, `np.load`): the model takes the loaded
  arrays with their file names. An array that `[:, 8:]` cannot slice (not
  two-dimensional) is not modelled; every recording is a rectangular matrix.
- Writing the CSV and creating directories in `save_result`: the report is
  returned as a list of line records. The path is computed by
  `Names.OutputPath`.
- Number formatting: `str()` of the edges, the counts and the width is not
  modelled. A line is the record `Bin(edge, counts)`, and the width's text is
  a parameter of `Names.FileName`.
- IEEE floating point: edges, distances and the grid length use exact reals.
  `np.arange`'s rounding with fractional widths is not captured.
- `np.linalg.norm`: Dafny has no square root. The norm is a parameter, and
  the lemmas about zero and sign assume it is Euclidean.
- Kinematics.ComputeVelocity: only two-dimensional input is modelled, so the
  reshape is the identity whenever it does not raise.
- Report.FileStep: only the default `dim=3` is used, as `make_histogram` calls
  the measures without `dim`. The Kinematics methods take any positive `dim`.
- The plot (`visualize`), its division by the total count and the console
  prints: output only.
- `main` and its argument parsing and directory walking.
- `bvh2npy.py`: it only drives motion-capture libraries that are not part of
  this model, and saves files.
