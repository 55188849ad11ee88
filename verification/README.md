# bayesline2psd chain reader and PSD evaluator, in Dafny

`bayesline2psd` turns the posterior chains written by the BayesLine noise model into
power-spectral-density (PSD) estimates on a frequency grid. It has three stages, and
this project models each of them.

1. **Reading a chain.** A chain file has one sample per text line. The reader keeps
   the record at index `i` when `i >= burnin` and `i % downsample == 0`. It drops the
   record's leading scalar, parses the remaining tokens as numbers and regroups them.
   A spline record becomes `(frequency, lnPSD)` knots. A line record becomes
   `(frequency, amplitude, quality)` lines. Both regroupings use strided slices zipped
   together, so one or two leftover tokens at the end are dropped silently.
2. **The line model.** `line(freqs, f, a, q)` has a hard window of half-width
   `df = f / max(50, q/100)` around `f`. Inside the window the value is a clipped
   weight times `a f^2 / q^2 / (x^2 (x^2 - f^2)^2)`. Every grid point outside the window
   is exactly 0.
3. **PSD evaluation.** For each spline sample, the spline part is `exp` of the
   interpolating cubic spline at each grid frequency. The line part is the sum of
   `line(...)` over the sample's lines, starting from zeros. `samples2psd` first checks
   that both chains have the same number of samples, then adds the two matrices
   entrywise.

Modules:

- `Results`: `Option` and `Result`.
- `Grouping`: strided slices, truncating zips, the `Knot`/`Line` records and their
  inverse flat layouts.
- `Chain`: selection, parsing and the chain readers, including their two abort paths.
- `LineModel`: the single-line model.
- `Psd`: the spline, line and summed matrices.

Parsing one token (`parse`), the exponential (`exp`) and the spline fit (`fit`) are
function-valued parameters. A lemma that depends on their values states what it
assumes about them: `PositiveExp` and `GrowingExp` are the two assumptions used for
`exp`.

The selection rule applies the modulus to the raw record index, not to the offset
from the burn-in. The docstrings say one record out of every `downsample` remaining
ones is retained. The code does that too, but with the phase set by the raw index:
with burn-in 1 and factor 2 it keeps records 2, 4, … (`Chain.RawIndexModulus`). The
model follows the code. Python's `%` floors and Dafny's is Euclidean, but for any
non-zero divisor the two agree on whether the remainder is zero. So `Kept` needs no
sign correction.

## Model

| member | source | states |
|---|---|---|
| Grouping.Drop | bayesline2psd/utils.py:34 | the slice `s[start:]`: empty past the end, otherwise the elements from `start` on, in order |
| Grouping.EveryOther | bayesline2psd/utils.py:34 | the slice `s[::2]`: `ceil(n/2)` elements, element `k` being `s[2k]` |
| Grouping.EveryThird | bayesline2psd/utils.py:47 | the slice `s[::3]`: `ceil(n/3)` elements, element `k` being `s[3k]` |
| Grouping.ZipKnots | bayesline2psd/utils.py:34 | two-way `zip` truncates to the shorter input and pairs equal positions |
| Grouping.ZipLines | bayesline2psd/utils.py:47 | three-way `zip` truncates to the shortest input and groups equal positions |
| Grouping.Pairs | bayesline2psd/utils.py:34 | a spline record with `n` fields gives `n / 2` knots, knot `k` being fields `2k` and `2k+1` |
| Grouping.Triples | bayesline2psd/utils.py:47 | a line record with `n` fields gives `n / 3` lines, line `k` being fields `3k`, `3k+1` and `3k+2` |
| Grouping.PairsIsStridedZip | bayesline2psd/utils.py:34 | the knot regrouping equals `zip(fields[::2], fields[1::2])` on every input |
| Grouping.TriplesIsStridedZip | bayesline2psd/utils.py:47 | the line regrouping equals `zip(fields[::3], fields[1::3], fields[2::3])` on every input |
| Grouping.PairsOfFlatten | bayesline2psd/utils.py:34 | reading back a written spline record returns exactly the knots that were written |
| Grouping.TriplesOfFlatten | bayesline2psd/utils.py:47 | reading back a written line record returns exactly the lines that were written |
| Grouping.FlattenOfPairs | bayesline2psd/utils.py:34 | the knots keep the longest even-length prefix of the fields, unchanged; only an odd trailing field is lost |
| Grouping.FlattenOfTriples | bayesline2psd/utils.py:47 | the lines keep the longest prefix whose length is a multiple of three, unchanged; only one or two trailing fields are lost |
| Grouping.PairsIgnoresOddTail | bayesline2psd/utils.py:34 | an extra trailing field after an even number of fields does not change the spline sample: the odd field count is not checked |
| Chain.KeptIndices | bayesline2psd/utils.py:31-32 | the kept indices below `n` are exactly those with `i >= burnin` and `i % downsample == 0`, in increasing order |
| Chain.Fields | bayesline2psd/utils.py:33 | `split()[1:]`: the record without its leading scalar, empty for an empty record |
| Chain.ParseAll | bayesline2psd/utils.py:33 | parsing the fields succeeds if and only if every token parses, and then yields each token's value in order |
| Chain.Select | bayesline2psd/utils.py:29-35 | the record-by-record `samples.append` loop yields at most one sample per kept index, and exactly one per kept index when every kept record is numeric; `Chain.SelectIsKept` gives the samples' values |
| Chain.SelectIsKept | bayesline2psd/utils.py:29-36 | when no record aborts, the samples collected record by record are, in order, the decoded records at exactly the kept indices |
| Chain.ReadChain | bayesline2psd/utils.py:29-36 | the read succeeds if and only if no record aborts; a failed read names the first aborting record and says whether it failed on a zero factor or on a bad token; a successful read returns one decoded sample per kept index, in order |
| Chain.ReadSplineChain | bayesline2psd/utils.py:25-36 | `splinepath2samples`: the same success and failure cases; on success, sample `k` is the knots of the `k`-th kept record's fields |
| Chain.ReadLineChain | bayesline2psd/utils.py:38-49 | `linespath2samples`: the same success and failure cases; on success, sample `k` is the lines of the `k`-th kept record's fields, and a record with no fields gives an empty sample |
| Chain.DefaultsKeepAll | bayesline2psd/utils.py:17-18 | with burn-in 0 and factor 1 every index is kept, in order |
| Chain.DefaultReadKeepsEveryRecord | bayesline2psd/utils.py:17-18 | with the defaults, the `k`-th sample comes from the `k`-th record |
| Chain.RawIndexModulus | bayesline2psd/utils.py:32 | with burn-in 1 and factor 2, five records keep indices 2 and 4: the modulus is on the raw index |
| LineModel.Spread | bayesline2psd/utils.py:95 | `max(50, q/100)`: at least both arguments and equal to one of them |
| LineModel.WindowIsPositive | bayesline2psd/utils.py:96-97 | if a non-zero frequency lies in the window, then the centre, the half-width and the frequency are all positive |
| LineModel.Weight | bayesline2psd/utils.py:101-102 | the weight never exceeds 1; it is the raw exponential when that is at most 1, and exactly 1 otherwise |
| LineModel.DenominatorPositive | bayesline2psd/utils.py:104-107 | at an in-window point that is neither 0 nor the centre, `x^2 (x^2 - f^2)^2` is positive |
| LineModel.Mask | bayesline2psd/utils.py:97 | the mask is true exactly at the grid points inside the closed window `[f - df, f + df]` |
| LineModel.Compress | bayesline2psd/utils.py:98 | `freqs[truth]`: as many elements as true mask entries, each taken from a selected position, and the element at a selected position `i` placed at the number of selected positions before `i`, so order is kept |
| LineModel.Scatter | bayesline2psd/utils.py:107 | `psd[truth] = vals` over `zeros_like`: as long as the mask, 0 at every unselected position, and at a selected position `i` the value whose index is the number of selected positions before `i` |
| LineModel.Resonances | bayesline2psd/utils.py:101-107 | the vectorised formula over the compressed grid is the pointwise resonance at each of its frequencies; `LineModel.MaskedWriteIsPointwise` ties it, `Compress` and `Scatter` to the full grid |
| LineModel.InsideIsRegular | bayesline2psd/utils.py:97-98 | the compressed grid `freqs[truth]` holds only in-window frequencies at which the formula is finite |
| LineModel.MaskedWriteIsPointwise | bayesline2psd/utils.py:92-107 | writing the compressed values back through `psd[truth]` over zeros gives, at every grid point, the pointwise model (resonance inside the window, 0 outside) |
| LineModel.LineVector | bayesline2psd/utils.py:88-108 | `line()` is as long as the grid, exactly 0 outside the window, and equal to the pointwise resonance inside it |
| LineModel.WeightSaturates | bayesline2psd/utils.py:101-102 | with an exponential that is at least 1 on non-negative arguments, the clipped weight is exactly 1 at every in-window point, edges included |
| LineModel.ResonanceIsBare | bayesline2psd/utils.py:101-107 | hence an in-window value is the bare term `a f^2 / q^2 / (x^2 (x^2 - f^2)^2)` |
| LineModel.ResonanceNonnegative | bayesline2psd/utils.py:101-107 | with a positive exponential and a non-negative amplitude, an in-window value is non-negative |
| LineModel.LineNonnegative | bayesline2psd/utils.py:88-108 | under the same assumptions, every entry of `line()` is non-negative |
| LineModel.HundredHertzLine | bayesline2psd/utils.py:95-98 | a 100 Hz line with quality 100 has the closed window [98, 102]; a 200 Hz point gets 0; a grid point at 100 Hz makes the formula undefined |
| Psd.AddMatrices | bayesline2psd/utils.py:56 | the sum of two equally shaped matrices keeps the shape and adds entry by entry |
| Psd.Accumulate | bayesline2psd/utils.py:83-84 | adding `line()` for each line of a sample into a row adds, at each frequency, the sum of the lines' pointwise values |
| Psd.LineRow | bayesline2psd/utils.py:79-84 | a line row starts from zeros: it is the total line power at each frequency, and all zeros for a sample with no lines |
| Psd.LinesMatrix | bayesline2psd/utils.py:73-86 | `linessamples2psd` is an nsamp x nfreq matrix whose entry (i, j) is sample `i`'s total line power at frequency `j` |
| Psd.SplineMatrix | bayesline2psd/utils.py:58-71 | `splinesamples2psd` is an nsamp x nfreq matrix whose entry (i, j) is `exp` of sample `i`'s fitted spline at frequency `j` |
| Psd.Samples2Psd | bayesline2psd/utils.py:51-56 | fails if and only if the chains differ in length; otherwise it is a matrix whose entry (i, j) is the spline value plus the line power |
| Psd.LinesAtOutsideWindows | bayesline2psd/utils.py:83-84 | a frequency outside every line's window receives no line power |
| Psd.LinesAtNonnegative | bayesline2psd/utils.py:83-84 | with a positive exponential and non-negative amplitudes, the line power is non-negative |
| Psd.LinesAtAppend | bayesline2psd/utils.py:83-84 | the line power of two groups of lines is the sum of their separate powers |
| Psd.SplineRowsIndependent | bayesline2psd/utils.py:65-69 | each spline row depends only on its own sample |
| Psd.LineRowsIndependent | bayesline2psd/utils.py:80-84 | each line row depends only on its own sample |
| Psd.PsdPositive | bayesline2psd/utils.py:51-56 | with a positive exponential, equal chain lengths and non-negative amplitudes, the call succeeds and every PSD entry is positive |
| Psd.MismatchedChains | bayesline2psd/utils.py:55 | three spline samples against two line samples fail with the lengths 3 and 2 |

## Left out

- File access: opening the file, iterating over its lines, and `strip().split()`. A
  chain is given as its records, each already split into tokens.
- `float()` on a token is the parameter `parse`. Which strings Python accepts (`nan`,
  `inf`, exponents, underscores) is not modelled.
- `UnivariateSpline(..., k=3, s=0)` is the parameter `fit`. Its own failures are not
  modelled. These include fewer than four knots and frequencies that do not increase.
- `np.exp` is the parameter `exp`.
- All arithmetic is on exact reals, not IEEE doubles, and `1e-2` is the exact 0.01.
  Overflow, rounding and NaN are not modelled.
- The `verbose` printing in both PSD loops is not modelled.
- `np.empty` followed by a full overwrite is modelled as building the matrix directly.
- `zip` follows its Python 2 meaning, a list. Under Python 3 `zip` returns an iterator,
  which this `np.array(..., dtype=...)` call does not expand into records; that
  behaviour is not modelled.
- `samples2psd`'s `assert` is always active. Running Python with `-O` would skip the
  check.
- `setup.py` is not part of this model. It is packaging only.
- Chain.ReadChain: the error's record index is added by the model. Python's
  `ValueError` and `ZeroDivisionError` do not carry an index.
- LineModel.LineVector: requires that every in-window grid point is neither 0 nor the line
  centre, and that `q` is non-zero whenever the window holds a point. At such a point
  numpy divides by zero and returns `inf`/`nan` with a warning rather than an error,
  and that value is not modelled.
- Psd.Accumulate: carries the same finiteness requirement for every line of the sample,
  for the same reason.
- Psd.LineRow: carries the same finiteness requirement for every line of the sample.
- Psd.LinesMatrix: carries the same finiteness requirement for every line of every
  sample.
- Psd.Samples2Psd: requires finiteness only when the chain lengths agree. On a length
  mismatch it fails before any evaluation, as the source does.
- Psd.Samples2Psd: the two lengths carried by `ShapeMismatch` come from the model.
  The source's `assert` has a fixed message and carries no lengths.
