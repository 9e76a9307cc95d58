# meas_modelfit: model evaluator and Minuit objective, in Dafny

This project models the core of the multifit model-fitting code. It has three files.

- **Layout.dfy.** The prefix-sum arithmetic behind the flat pixel buffers. Each slice is
  `[Offset(i), Offset(i+1))` and the total is `pixSum`. The lemmas show that the slices are
  contiguous, ordered and disjoint, and that together they cover `[0, pixSum)`.
- **Evaluator.dfy.** The `ModelEvaluator` class (`src/ModelEvaluator.cc`).
  - `setExposureList` keeps only the exposures whose clipped footprint has more than `nMinPix`
    pixels. It sums their pixel counts and allocates the data, variance, model-image and derivative
    buffers. It hands every projection its slice, compresses each exposure into that slice, and
    clears the `validProducts` bitmask.
  - The three `compute*` methods form a cache keyed on independent bits. Each recomputes only when
    its bit is clear: it calls every projection once in list order, divides by sigma, and sets its
    bit. The class invariant `Valid()` says that a product whose bit is set equals what a
    recomputation at the current parameters would give.
  - A projection's own compute routine is a value of type `Quantity`: a function from exposure,
    column, pixel and parameters to the unweighted value. Each projection writes only its own slice.
  - Every projection call appends itself to a ghost log `calls`: the projection methods
    `ProjectImage` and `ProjectDerivative` extend the log as they write their slice, so a call that
    a `compute*` method makes shows up in the log. This is what lets the contracts state "no
    projection is called" (the log and the product's buffer are unchanged) and "each projection is
    called once, in order" (the log grows by exactly one entry per projection, in list order).
- **Fitter.dfy.** The objective and the fitter setup (`src/MinuitFitter.cc`).
  - The `ChisqFunction` class holds its `dirty` flag and its parameter-change check. It pushes the
    minimiser's flat parameter vector into the evaluator, split into a linear segment and a
    nonlinear segment.
  - Its value is `0.5 r.r` and its gradient is `[-(L^T r); -(N^T r)]`, where `r` is the weighted
    data minus the weighted model image.
  - The pure parts are functions with lemmas. The most important lemma, `GradientIsSlope`, shows
    that moving the model image by `t` along parameter `i`'s derivative column changes the
    objective exactly as the quadratic `value + g_i t + (c.c/2) t^2`. So gradient entry `i` is the
    slope of the objective in that direction.
  - The setup that both `apply` methods perform before the minimiser runs is also modelled: the
    size check and the initial vector.

Pixel values are `real`. Real arithmetic has no square root, so each pixel's sigma is supplied with
the pixel, and every kept exposure must have, at every pixel, a positive sigma whose square is the
pixel's variance. The evaluator's invariant keeps `sigma[k] * sigma[k] == varianceVector[k]`.

## Model

| member | source | states |
|---|---|---|
| Layout.TotalSnoc | src/ModelEvaluator.cc:96-103 | Adding an accepted footprint adds its pixel count to `pixSum`. |
| Layout.OffsetStep | src/ModelEvaluator.cc:127-128 | Slice `i` ends where slice `i+1` starts, `nPix` pixels later (`pixelEnd = pixelStart + nPix`). |
| Layout.OffsetEnds | src/ModelEvaluator.cc:117-153 | The first slice starts at 0 and the last one ends at `pixSum`. |
| Layout.OffsetMonotone | src/ModelEvaluator.cc:117-153 | Slice starts never decrease along the projection list. |
| Layout.SliceWithin | src/ModelEvaluator.cc:117-153 | Every slice lies inside `[0, pixSum)`. |
| Layout.SlicesDisjoint | src/ModelEvaluator.cc:117-153 | An earlier slice ends before a later one begins. |
| Layout.SliceOf | src/ModelEvaluator.cc:117-153 | Every buffer index below `pixSum` falls inside some slice. |
| Layout.SliceUnique | src/ModelEvaluator.cc:117-153 | No buffer index falls inside two slices. |
| Layout.ConcatLength | src/ModelEvaluator.cc:107-109 | The concatenated footprints are exactly `pixSum` long. |
| Layout.ConcatAt | src/ModelEvaluator.cc:131-136 | Pixel `m` of footprint `i` sits at buffer index `pixelStart_i + m`. |
| Evaluator.AcceptedIff | src/ModelEvaluator.cc:95-103 | An exposure is kept if and only if it is in the input and its clipped footprint has strictly more than `nMinPix` pixels. |
| Evaluator.ThresholdIsExclusive | src/ModelEvaluator.cc:96 | A footprint of exactly `nMinPix` pixels is rejected; one of `nMinPix + 1` pixels is kept. |
| Evaluator.AcceptedAppend | src/ModelEvaluator.cc:82-104 | Filtering is order-preserving and distributes over concatenation of exposure lists. |
| Evaluator.AcceptedLayout | src/ModelEvaluator.cc:96-157 | The projections pair one-to-one, in order, with the kept exposures, and they tile the buffers. Sigma has one positive entry per pixel, and its square is the laid-out variance. |
| Evaluator.FlattenSlice | src/ModelEvaluator.cc:131-136 | Slice `i` of the flattened pixels is exactly footprint `i`. |
| Evaluator.CountsSnoc | src/ModelEvaluator.cc:100-102 | Appending an exposure appends its pixel count. |
| Evaluator.ArrangeTiled | src/ModelEvaluator.cc:120-153 | The slicing loop walks the projections and the kept exposures in lockstep, and the slices tile the buffer. |
| Evaluator.ArrangeContiguous | src/ModelEvaluator.cc:117-153 | The slices start at 0; each is `[pixelStart, pixelStart + nPix)` and each starts where the previous ended; the last ends at `pixSum`. |
| Evaluator.ArrangeDisjoint | src/ModelEvaluator.cc:117-153 | Slices of different projections do not overlap. |
| Evaluator.ArrangeCovers | src/ModelEvaluator.cc:117-153 | Every buffer index belongs to exactly one slice, and it holds the matching footprint pixel. |
| Evaluator.FlattenPositive | src/ModelEvaluator.cc:156-157 | Sigma, taken from the compressed pixels, is positive at every pixel and is the square root of the variance there. |
| Evaluator.RenderedLength | src/ModelEvaluator.cc:174 | The rendered model image has `getNPixels()` entries. |
| Evaluator.RenderedColumnsLength | src/ModelEvaluator.cc:194 | A rendered derivative has one column per parameter, each `getNPixels()` long. |
| Evaluator.RenderedAt | src/ModelEvaluator.cc:169-173 | Buffer index `pixelStart_i + m` of the rendered image holds projection `i`'s value at pixel `m`. |
| Evaluator.TiledSlice | src/ModelEvaluator.cc:117-153 | In a tiled list, projection `i`'s slice is `[Offset(i), Offset(i+1))` and lies inside the buffer. |
| Evaluator.RenderedHolds | src/ModelEvaluator.cc:169-173 | The rendered image agrees with every projection on that projection's slice. |
| Evaluator.RenderColumnsHold | src/ModelEvaluator.cc:189-193 | The rendered derivative columns have the buffer's length and agree with every projection on its slice. |
| Evaluator.Weighted | src/ModelEvaluator.cc:174-175 | The weighted vector has the input's length, and each entry times sigma gives back the buffer entry. |
| Evaluator.WeightedByVariance | src/ModelEvaluator.cc:156-157 | When sigma is the root of the variance, dividing by sigma is dividing by the square root of the variance: `w[k]^2 * variance[k] == v[k]^2`. |
| Evaluator.DivideLeadingColumns | src/ModelEvaluator.cc:196-198 | Weighting some columns keeps the number of columns and their lengths. |
| Evaluator.DivideColumns | src/ModelEvaluator.cc:196-198 | The column loop divides exactly the first `count` columns by sigma and leaves the rest untouched. |
| Evaluator.NonlinearLoopBoundDefect | src/ModelEvaluator.cc:217-221 | With the linear count as the loop bound, the nonlinear weighting is right only when the two counts are equal. With fewer linear parameters a later column is left unweighted; with more, the loop leaves the matrix. |
| Evaluator.NonlinearLoopBoundExample | src/ModelEvaluator.cc:217-221 | Counterexample: no linear parameter, one nonlinear column `[2]` and sigma `[2]`. As written the column stays `[2]`; the intended result is `[1]`. |
| Evaluator.CompressImage | src/ModelEvaluator.cc:131-136 | Compressing an exposure writes its pixel values and variances into its slice of the data and variance vectors, and nothing else. |
| Evaluator.SelectExposures | src/ModelEvaluator.cc:72-104 | The selection loop yields the kept exposures, one projection per kept exposure in the same order, and `pixSum` as the sum of their pixel counts. |
| Evaluator.CompressStep | src/ModelEvaluator.cc:126-136 | One slicing iteration extends the filled prefix of the data and variance vectors by one footprint. |
| Evaluator.BindSlices | src/ModelEvaluator.cc:117-153 | The slicing loop binds each projection to its slice, and the data and variance vectors become the concatenated footprints. |
| Evaluator.LayOut | src/ModelEvaluator.cc:69-153 | The buffers are fresh and distinct. Data, variance and model image are `pixSum` long; the derivative buffers are `nLinear x pixSum` and `nNonlinear x pixSum`. Data and variance hold the compressed pixels. |
| Evaluator.ModelEvaluator.ExpectedModelImage | src/ModelEvaluator.cc:174-175 | A fresh model image has `getNPixels()` entries. |
| Evaluator.ModelEvaluator.ExpectedDerivative | src/ModelEvaluator.cc:194-198 | A fresh derivative has one column per parameter of its kind, each `getNPixels()` long. |
| Evaluator.ModelEvaluator.constructor | src/ModelEvaluator.cc:40-42 | A new evaluator has no projections, no pixels and no valid product, and it satisfies the invariant. |
| Evaluator.ModelEvaluator.WeightedData | src/MinuitFitter.cc:30 | The weighted data has one entry per pixel. |
| Evaluator.ModelEvaluator.SetLinearParameters | src/MinuitFitter.cc:37 | Storing new linear parameters invalidates every cached product and keeps the invariant. |
| Evaluator.ModelEvaluator.SetNonlinearParameters | src/MinuitFitter.cc:38 | Storing new nonlinear parameters invalidates every cached product and keeps the invariant. |
| Evaluator.ModelEvaluator.SetExposureList | src/ModelEvaluator.cc:58-159 | Resets `validProducts` to 0 and rebuilds the projection list from the kept exposures, with the slices, buffers, data, variance and sigma above. The invariant holds afterwards, including sigma as the root of the variance vector. |
| Evaluator.ModelEvaluator.ComputeModelImage | src/ModelEvaluator.cc:166-179 | Returns the fresh weighted model image. If its bit was set, no projection is called: the log, the cached image and the image buffer are unchanged. Otherwise every projection is called once, in order, and the buffer holds the rendered image. Its bit is ORed in and the other bits are unchanged. |
| Evaluator.ModelEvaluator.ComputeLinearParameterDerivative | src/ModelEvaluator.cc:186-202 | Returns every linear column divided by sigma, with the same cache behaviour under its own bit: with the bit set the log, the cached matrix and its buffer are unchanged; otherwise every projection is called once, in order, and the buffer holds the rendered columns. |
| Evaluator.ModelEvaluator.ComputeNonlinearParameterDerivative | src/ModelEvaluator.cc:209-225 | Returns every nonlinear column divided by sigma (loop bound corrected, see Findings), with the same cache behaviour under its own bit. |
| Evaluator.ModelEvaluator.ProjectImage | src/ModelEvaluator.cc:172 | A projection's compute call writes its values into its slice of the model-image buffer and nowhere else, and appends exactly one entry, itself, to the call log. |
| Evaluator.ModelEvaluator.ProjectDerivative | src/ModelEvaluator.cc:192 | A projection's derivative call writes every column on its slice of the derivative buffer and nowhere else, and appends exactly one entry, itself, to the call log. |
| Evaluator.ModelEvaluator.RenderImage | src/ModelEvaluator.cc:169-173 | After the projection loop, the model-image buffer holds the rendered image, and the log has grown by one call per projection, in list order. |
| Evaluator.ModelEvaluator.RenderImageStep | src/ModelEvaluator.cc:169-173 | One iteration of the projection loop calls projection `i` once and fills one more slice. |
| Evaluator.ModelEvaluator.RenderColumns | src/ModelEvaluator.cc:189-193 | After the projection loop, the derivative buffer holds the rendered columns, and the log has grown by one call per projection, in list order. |
| Evaluator.ModelEvaluator.RenderColumnsStep | src/ModelEvaluator.cc:189-193 | One iteration of the derivative loop calls projection `i` once and fills one more slice of every column. |
| Fitter.Sub | src/MinuitFitter.cc:54 | The residual is taken entry by entry: `measured[k] - modeled[k]`. |
| Fitter.TransposeTimes | src/MinuitFitter.cc:60 | Entry `j` of `C^T r` is column `j` dotted with `r`. |
| Fitter.Gradient | src/MinuitFitter.cc:58-60 | The gradient has one entry per parameter, `nLinear + nNonlinear`. |
| Fitter.DotNegated | src/MinuitFitter.cc:60 | Negating a column negates its dot product, so `(-C)^T r = -(C^T r)`. |
| Fitter.DotSelfNonNegative | src/MinuitFitter.cc:43 | `r.r >= 0`. |
| Fitter.DotSelfPositive | src/MinuitFitter.cc:43 | `r.r > 0` as soon as one entry of `r` is not zero. |
| Fitter.DotSelfZero | src/MinuitFitter.cc:43 | `r.r = 0` for the zero residual. |
| Fitter.ObjectiveNonNegative | src/MinuitFitter.cc:41-43 | The objective is non-negative. It is zero if and only if the model reproduces the weighted data at every pixel. |
| Fitter.DotAlong | src/MinuitFitter.cc:43 | The squared norm of `r - t c` is the quadratic `r.r - 2t c.r + t^2 c.c`, with no remainder. |
| Fitter.MovedResidual | src/MinuitFitter.cc:54 | Moving the model by `t c` moves the residual by `-t c`. |
| Fitter.MovedObjective | src/MinuitFitter.cc:41-43 | The objective of the moved model is half the squared norm of the moved residual. |
| Fitter.ObjectiveAlong | src/MinuitFitter.cc:41-43 | The objective of the model moved by `t c` is `value - (c.r) t + (c.c/2) t^2`. |
| Fitter.GradientEntries | src/MinuitFitter.cc:58-60 | Gradient entry `i` is minus the dot product of parameter `i`'s derivative column with the residual. The linear columns come first, then the nonlinear ones. |
| Fitter.GradientAt | src/MinuitFitter.cc:60 | Entry `i` of the concatenated gradient comes from the linear block when `i < nLinear`, otherwise from the nonlinear block. |
| Fitter.GradientAtLinear | src/MinuitFitter.cc:60 | The first `nLinear` entries are `-(L^T r)`. |
| Fitter.GradientAtNonlinear | src/MinuitFitter.cc:60 | The remaining entries are `-(N^T r)`, offset by `nLinear`. |
| Fitter.GradientIsSlope | src/MinuitFitter.cc:34-62 | The gradient is the derivative of the value. Along parameter `i`'s column, the value is a quadratic in `t` whose constant term is the current value and whose linear coefficient is gradient entry `i`. |
| Fitter.CheckOutcomeFacts | src/MinuitFitter.cc:69-90 | Once `dirty` is set, `checkParams` keeps it. From a clean state it flags a change if and only if the first entries differ. A flagged change is a real change. |
| Fitter.CheckMissesLaterChange | src/MinuitFitter.cc:74-79 | Because the `return` is unconditional, a change past the first parameter is not noticed from a clean state. |
| Fitter.ChisqFunction.constructor | src/MinuitFitter.cc:27-31 | Starts dirty and captures the evaluator's weighted data. |
| Fitter.ChisqFunction.CheckParams | src/MinuitFitter.cc:69-90 | The loops as written: returns at once when dirty. Otherwise only the first entry of the first non-empty segment is compared before returning. `dirty` is cleared only when both segments are empty. |
| Fitter.ChisqFunction.PushParameters | src/MinuitFitter.cc:35-39 | `dirty` stays set, so every call pushes `params[..nLinear]` as the linear parameters and `params[nLinear..]` as the nonlinear ones, which invalidates the cache. |
| Fitter.ChisqFunction.Residual | src/MinuitFitter.cc:47-54 | After the push, the residual is the weighted data minus a freshly recomputed model image, and every projection is called once. |
| Fitter.ChisqFunction.ComputeValue | src/MinuitFitter.cc:34-44 | Returns `0.5 r.r` for the fresh residual at `params`, and the value is non-negative. |
| Fitter.ChisqFunction.ResidualGradient | src/MinuitFitter.cc:55-60 | Computes both fresh derivative matrices and assembles `[-(L^T r); -(N^T r)]` without disturbing the model image. |
| Fitter.ChisqFunction.ComputeGradient | src/MinuitFitter.cc:46-63 | Returns a vector of length `params.size()`: `[-(L^T r); -(N^T r)]` for the fresh derivatives and residual at `params`. `N` is the nonlinear derivative with the corrected weighting, so this differs from the source whenever `nLinear != nNonlinear` (see Findings). |
| Fitter.InitialParameters | src/MinuitFitter.cc:163-176 | Fails with InvalidParameterException's message if and only if `nLinear + nNonlinear` differs from the length of the error vector. Otherwise it returns the linear parameters followed by the nonlinear ones. The numeric fitter's `apply` does the same (src/MinuitFitter.cc:251-263). |

## Left out

- Minuit2 itself is not modelled: `MnMigrad`, `FunctionMinimum`, the `FCNBase` adapters and the
  numerical gradient calculator. They are a foreign optimiser. The adapters only delegate to
  `computeValue` and `computeGradient`.
- The `checkGradient` block of `MinuitAnalyticFitter::apply` is left out. It prints to standard
  error and never changes the result.
- Policy construction and default merging are left out. They are configuration plumbing.
- The afw routines are left out: projection footprints, clipping against the mask,
  `getPlaneBitMask`, and PSF and WCS access. Each exposure arrives as the contributing pixels of its
  clipped footprint (`Exposure`). `compressImage` is modelled as copying those pixels' values and
  variances into the exposure's slice.
- `ModelProjection` is not part of this model. Its compute routines are abstracted as a
  `Quantity` that fills the projection's slice. Buffer views are modelled as index ranges of one
  shared array.
- Floating-point arithmetic is modelled over the reals. The `sqrt` of the variance is supplied as
  each pixel's sigma, with its square equal to the variance, so rounding is not modelled.
- Evaluator.ModelEvaluator.SetExposureList: a kept pixel with zero variance is excluded by the
  precondition that sigma be positive. In the source it would give an infinite weighted value.
- The `int` counters and `pixSum` are unbounded here, so overflow is not modelled.
- Eigen and ndarray allocation details and the template instantiations are left out.
- Evaluator.ModelEvaluator.SetLinearParameters: the body is not part of this model. It is assumed
  to overwrite the stored parameters and clear every valid bit.
- Evaluator.ModelEvaluator.SetNonlinearParameters: the same assumption as for the linear setter.
- Evaluator.ModelEvaluator.WeightedData: the body of `getWeightedData` is not part of this model.
  It is assumed to be the data vector divided by sigma.
- Evaluator.ModelEvaluator.constructor: the constructor is declared in a header that is not part of
  this model. It is taken to start with no exposures.
- Evaluator.Bit: the bit values of `MODEL_IMAGE`, `LINEAR_PARAMETER_DERIVATIVE` and
  `NONLINEAR_PARAMETER_DERIVATIVE` are defined in a header that is not part of this model. They are
  taken as 1, 2 and 4; only their independence matters.
- trunk/include/lsst/meas/multifit/grid/Frame.h is not part of this model. It only declares slice
  offsets and a weighting routine, with no behaviour.
- Fitter.InitialParameters: the exception is modelled as a `Failure` result carrying its message.
  The minimiser run that follows is left out, as above.

## Findings

| source | as written | input that shows it | evidently intended | confidence | as-written member | corrected member |
|---|---|---|---|---|---|---|
| src/ModelEvaluator.cc:219 | The loop that divides the nonlinear derivative columns by sigma runs to `getLinearParameterSize()`. | No linear parameter, one nonlinear column `[2]`, sigma `[2]`: the column is left as `[2]`. With more linear than nonlinear parameters the loop indexes past the last column. | The loop runs to `getNonlinearParameterSize()`, so every nonlinear column is weighted, as in the linear routine. | not executed | Evaluator.NonlinearLoopBoundDefect | Evaluator.ModelEvaluator.ComputeNonlinearParameterDerivative |
