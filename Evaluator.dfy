/** The model evaluator: it lays the contributing pixels of the accepted
    exposures out in flat buffers, hands every projection of the model a slice
    of those buffers, and caches the sigma-weighted model image and the two
    sigma-weighted derivative matrices behind a bitmask of valid products. */
module Evaluator {
  import opened Layout

  datatype Option<T> = None | Some(value: T)

  /** One contributing pixel of a clipped footprint: its measured value, its
      variance, and sigma, the square root of the variance, supplied with it
      (real arithmetic has no square root; `SigmaIsRoot` states the relation). */
  datatype Pixel = Pixel(value: real, variance: real, sigma: real)

  /** An exposure as the evaluator sees it once the model's projection
      footprint has been computed and clipped against the exposure's mask:
      `frame` stands for the exposure's identity (its PSF and WCS), which only
      tells two exposures with equal footprints apart; `pixels` stands for the
      contributing pixels of the clipped footprint, in footprint order. */
  datatype Exposure = Exposure(frame: nat, pixels: seq<Pixel>)
  {
    function Npix(): nat { |pixels| }

    /** Every pixel's sigma is the positive square root of its variance. */
    ghost predicate SigmaIsRoot()
    {
      forall m :: 0 <= m < |pixels| ==> pixels[m].sigma > 0.0 && pixels[m].sigma * pixels[m].sigma == pixels[m].variance
    }
  }

  /** The projection of the model onto one accepted exposure, with the slice
      [pixelStart, pixelEnd) of every shared buffer that it writes into. */
  datatype Projection = Projection(exposure: Exposure, pixelStart: nat, pixelEnd: nat)

  /** A per-pixel quantity that a projection computes into its slice: given
      the exposure, a column (the parameter index of a derivative; the model
      image has the single column 0), a pixel of the footprint, and the
      current linear and nonlinear parameters, the unweighted value. */
  type Quantity = (Exposure, nat, nat, seq<real>, seq<real>) -> real

  /** The value a projection of exposure e computes for column j at pixel m
      (a named application, so that proofs about the buffers stay cheap). */
  function Eval(f: Quantity, e: Exposure, j: nat, m: nat, lin: seq<real>, nonlin: seq<real>): real
  {
    f(e, j, m, lin, nonlin)
  }

  /** The three derived products, each cached under its own bit. */
  datatype Product = ModelImage | LinearParameterDerivative | NonlinearParameterDerivative

  function Bit(product: Product): bv8
  {
    match product
    case ModelImage => 1
    case LinearParameterDerivative => 2
    case NonlinearParameterDerivative => 4
  }

  /** What the model's projections compute for each product. */
  datatype Model = Model(image: Quantity, linearDerivative: Quantity, nonlinearDerivative: Quantity)
  {
    function Of(product: Product): Quantity
    {
      match product
      case ModelImage => image
      case LinearParameterDerivative => linearDerivative
      case NonlinearParameterDerivative => nonlinearDerivative
    }
  }

  /** One call of a projection's compute method, as recorded in the evaluator's log. */
  datatype ProjectionCall = ProjectionCall(product: Product, projection: Projection)

  /** One call per projection, in list order. */
  function CallsOn(product: Product, ps: seq<Projection>): seq<ProjectionCall>
  {
    seq(|ps|, i requires 0 <= i < |ps| => ProjectionCall(product, ps[i]))
  }

  lemma CallsOnSnoc(product: Product, ps: seq<Projection>, i: nat)
    requires i < |ps|
    ensures CallsOn(product, ps[..i + 1]) == CallsOn(product, ps[..i]) + [ProjectionCall(product, ps[i])]
  {
  }

  // ---------------------------------------------------------------------
  // Frame selection and buffer layout

  /** The exposures that setExposureList keeps, in input order. */
  function Accepted(exposures: seq<Exposure>, nMinPix: int): seq<Exposure>
  {
    if exposures == [] then []
    else
      var last := exposures[|exposures| - 1];
      Accepted(exposures[..|exposures| - 1], nMinPix) + (if last.Npix() > nMinPix then [last] else [])
  }

  function Footprints(frames: seq<Exposure>): seq<seq<Pixel>>
  {
    seq(|frames|, i requires 0 <= i < |frames| => frames[i].pixels)
  }

  /** Pixel count of each frame, in frame order. */
  function Counts(frames: seq<Exposure>): seq<nat>
  {
    Lengths(Footprints(frames))
  }

  /** The contributing pixels of all frames, laid end to end. */
  function Flatten(frames: seq<Exposure>): seq<Pixel>
  {
    Concat(Footprints(frames))
  }

  function Values(pixels: seq<Pixel>): seq<real>
  {
    seq(|pixels|, k requires 0 <= k < |pixels| => pixels[k].value)
  }

  function Variances(pixels: seq<Pixel>): seq<real>
  {
    seq(|pixels|, k requires 0 <= k < |pixels| => pixels[k].variance)
  }

  function Sigmas(pixels: seq<Pixel>): seq<real>
  {
    seq(|pixels|, k requires 0 <= k < |pixels| => pixels[k].sigma)
  }

  /** One projection per frame, each bound to its slice of the buffers. */
  function Arrange(frames: seq<Exposure>): seq<Projection>
  {
    seq(|frames|, i requires 0 <= i < |frames| =>
      Projection(frames[i], Offset(Counts(frames), i), Offset(Counts(frames), i + 1)))
  }

  function Exposures(ps: seq<Projection>): seq<Exposure>
  {
    seq(|ps|, i requires 0 <= i < |ps| => ps[i].exposure)
  }

  /** The projections' slices are the layout of their exposures. */
  ghost predicate Tiled(ps: seq<Projection>)
  {
    forall i :: 0 <= i < |ps| ==>
      ps[i].pixelStart == Offset(Counts(Exposures(ps)), i) &&
      ps[i].pixelEnd == ps[i].pixelStart + ps[i].exposure.Npix()
  }

  ghost predicate Positive(sigma: seq<real>)
  {
    forall k :: 0 <= k < |sigma| ==> sigma[k] > 0.0
  }

  /** sigma is, pixel by pixel, a square root of variance. */
  ghost predicate Roots(sigma: seq<real>, variance: seq<real>)
  {
    |sigma| == |variance| && forall k :: 0 <= k < |sigma| ==> sigma[k] * sigma[k] == variance[k]
  }

  /** A frame is kept exactly when its clipped footprint has strictly more
      than nMinPix pixels; the kept frames keep their input order. */
  lemma {:induction false} AcceptedIff(exposures: seq<Exposure>, nMinPix: int, e: Exposure)
    ensures e in Accepted(exposures, nMinPix) <==> e in exposures && e.Npix() > nMinPix
  {
    if exposures != [] {
      var init := exposures[..|exposures| - 1];
      AcceptedIff(init, nMinPix, e);
      assert exposures == init + [exposures[|exposures| - 1]];
    }
  }

  /** Filtering a concatenation filters each part: the relative order of
      the kept frames is the input order. */
  lemma {:induction false} AcceptedAppend(xs: seq<Exposure>, ys: seq<Exposure>, nMinPix: int)
    ensures Accepted(xs + ys, nMinPix) == Accepted(xs, nMinPix) + Accepted(ys, nMinPix)
  {
    if ys == [] {
      assert xs + ys == xs;
    } else {
      var init := ys[..|ys| - 1];
      AcceptedAppend(xs, init, nMinPix);
      assert (xs + ys)[..|xs + ys| - 1] == xs + init;
    }
  }

  /** The threshold is exclusive: a footprint of exactly nMinPix pixels is
      rejected, one of nMinPix + 1 pixels is kept. */
  lemma ThresholdIsExclusive(e: Exposure, nMinPix: int)
    ensures e.Npix() == nMinPix ==> Accepted([e], nMinPix) == []
    ensures e.Npix() == nMinPix + 1 ==> Accepted([e], nMinPix) == [e]
  {
    assert [e][..0] == [];
  }

  /** What setExposureList lays out is tiled, carries the accepted frames in
      order, and, when every accepted exposure's sigma is the root of its
      variance, has a positive sigma whose square is the laid-out variance. */
  lemma AcceptedLayout(exposures: seq<Exposure>, nMinPix: int)
    requires forall e :: e in exposures && e.Npix() > nMinPix ==> e.SigmaIsRoot()
    ensures Exposures(Arrange(Accepted(exposures, nMinPix))) == Accepted(exposures, nMinPix)
    ensures Tiled(Arrange(Accepted(exposures, nMinPix)))
    ensures |Sigmas(Flatten(Accepted(exposures, nMinPix)))| == Total(Counts(Accepted(exposures, nMinPix)))
    ensures Positive(Sigmas(Flatten(Accepted(exposures, nMinPix))))
    ensures Roots(Sigmas(Flatten(Accepted(exposures, nMinPix))), Variances(Flatten(Accepted(exposures, nMinPix))))
  {
    var good := Accepted(exposures, nMinPix);
    ArrangeTiled(good);
    ConcatLength(Footprints(good));
    forall e | e in good
      ensures e.SigmaIsRoot()
    {
      AcceptedIff(exposures, nMinPix, e);
    }
    FlattenPositive(good);
  }

  /** Frame i's footprint occupies its slice of the flattened pixels. */
  lemma FlattenSlice(frames: seq<Exposure>, i: nat)
    requires i < |frames|
    ensures Offset(Counts(frames), i + 1) == Offset(Counts(frames), i) + frames[i].Npix() <= |Flatten(frames)|
    ensures forall k :: Offset(Counts(frames), i) <= k < Offset(Counts(frames), i + 1) ==>
      Flatten(frames)[k] == frames[i].pixels[k - Offset(Counts(frames), i)]
  {
    var counts, start := Counts(frames), Offset(Counts(frames), i);
    SliceWithin(counts, i);
    ConcatLength(Footprints(frames));
    forall k | start <= k < start + frames[i].Npix()
      ensures Flatten(frames)[k] == frames[i].pixels[k - start]
    {
      ConcatAt(Footprints(frames), i, k - start);
    }
  }

  lemma CountsSnoc(frames: seq<Exposure>, e: Exposure)
    ensures Counts(frames + [e]) == Counts(frames) + [e.Npix()]
  {
  }

  /** The arranged projections carry their frames in order and are tiled. */
  lemma ArrangeTiled(frames: seq<Exposure>)
    ensures Exposures(Arrange(frames)) == frames
    ensures Tiled(Arrange(frames))
  {
    assert Exposures(Arrange(frames)) == frames;
    forall i | 0 <= i < |frames|
      ensures Arrange(frames)[i].pixelEnd == Arrange(frames)[i].pixelStart + frames[i].Npix()
    {
      OffsetStep(Counts(frames), i);
    }
  }

  /** The layout is a partition: the first slice starts at 0, each slice is
      as long as its frame's footprint, each next slice starts where the
      previous one ended, and the last one ends at the pixel total. */
  lemma ArrangeContiguous(frames: seq<Exposure>)
    ensures |Arrange(frames)| == |frames|
    ensures forall i :: 0 <= i < |frames| ==>
      Arrange(frames)[i].pixelEnd == Arrange(frames)[i].pixelStart + frames[i].Npix()
    ensures |frames| > 0 ==> Arrange(frames)[0].pixelStart == 0
    ensures forall i :: 0 < i < |frames| ==> Arrange(frames)[i].pixelStart == Arrange(frames)[i - 1].pixelEnd
    ensures |frames| > 0 ==> Arrange(frames)[|frames| - 1].pixelEnd == Total(Counts(frames))
  {
    var counts := Counts(frames);
    OffsetEnds(counts);
    forall i | 0 <= i < |frames|
      ensures Arrange(frames)[i].pixelEnd == Arrange(frames)[i].pixelStart + frames[i].Npix()
    {
      OffsetStep(counts, i);
    }
  }

  /** Slices of different frames do not overlap. */
  lemma ArrangeDisjoint(frames: seq<Exposure>, i: nat, j: nat)
    requires i < j < |frames|
    ensures Arrange(frames)[i].pixelEnd <= Arrange(frames)[j].pixelStart
  {
    SlicesDisjoint(Counts(frames), i, j);
  }

  /** Every pixel k of the flat buffers lies in the slice of exactly one
      frame, i, at position m of that slice, and holds pixel m of frame i's
      footprint. */
  lemma ArrangeCovers(frames: seq<Exposure>, k: nat) returns (i: nat, m: nat)
    requires k < Total(Counts(frames))
    ensures i < |frames| && m < frames[i].Npix()
    ensures k == Arrange(frames)[i].pixelStart + m && k < Arrange(frames)[i].pixelEnd
    ensures k < |Flatten(frames)| && Flatten(frames)[k] == frames[i].pixels[m]
    ensures forall j :: 0 <= j < |frames| && Arrange(frames)[j].pixelStart <= k < Arrange(frames)[j].pixelEnd ==> j == i
  {
    var counts := Counts(frames);
    i := SliceOf(counts, k);
    OffsetStep(counts, i);
    m := k - Offset(counts, i);
    ConcatAt(Footprints(frames), i, m);
    forall j | 0 <= j < |frames| && Arrange(frames)[j].pixelStart <= k < Arrange(frames)[j].pixelEnd
      ensures j == i
    {
      SliceUnique(counts, k, i, j);
    }
  }

  /** Every accepted footprint's sigma is the positive root of its
      variance, so the flat sigma is the positive root of the flat variance. */
  lemma {:induction false} FlattenPositive(frames: seq<Exposure>)
    requires forall e :: e in frames ==> e.SigmaIsRoot()
    ensures Positive(Sigmas(Flatten(frames)))
    ensures Roots(Sigmas(Flatten(frames)), Variances(Flatten(frames)))
  {
    if frames != [] {
      var init := frames[..|frames| - 1];
      var last := frames[|frames| - 1];
      FlattenPositive(init);
      assert Footprints(frames)[..|frames| - 1] == Footprints(init);
      var flat := Flatten(frames);
      assert flat == Flatten(init) + last.pixels;
      assert last in frames;
      forall k | 0 <= k < |flat|
        ensures flat[k].sigma > 0.0 && flat[k].sigma * flat[k].sigma == flat[k].variance
      {
        if k < |Flatten(init)| {
          assert flat[k] == Flatten(init)[k];
          assert Sigmas(Flatten(init))[k] > 0.0;
          assert Sigmas(Flatten(init))[k] * Sigmas(Flatten(init))[k] == Variances(Flatten(init))[k];
        } else {
          assert flat[k] == last.pixels[k - |Flatten(init)|];
        }
      }
    }
  }

  // ---------------------------------------------------------------------
  // What the projections leave in the buffers, and its weighting

  /** What one projection computes for column j, pixel by pixel. */
  function Block(f: Quantity, p: Projection, j: nat, lin: seq<real>, nonlin: seq<real>): (block: seq<real>)
    ensures |block| == p.exposure.Npix()
    ensures forall m :: 0 <= m < |block| ==> block[m] == Eval(f, p.exposure, j, m, lin, nonlin)
  {
    seq(p.exposure.Npix(), m requires 0 <= m < p.exposure.Npix() => Eval(f, p.exposure, j, m, lin, nonlin))
  }

  /** The blocks that the projections write for column j of a quantity. */
  function Blocks(f: Quantity, ps: seq<Projection>, j: nat, lin: seq<real>, nonlin: seq<real>): seq<seq<real>>
  {
    seq(|ps|, i requires 0 <= i < |ps| => Block(f, ps[i], j, lin, nonlin))
  }

  /** Column j of a quantity over the whole frame set, as the shared buffer holds it. */
  function Rendered(f: Quantity, ps: seq<Projection>, j: nat, lin: seq<real>, nonlin: seq<real>): seq<real>
  {
    Concat(Blocks(f, ps, j, lin, nonlin))
  }

  function RenderedColumns(f: Quantity, ps: seq<Projection>, n: nat, lin: seq<real>, nonlin: seq<real>): seq<seq<real>>
  {
    seq(n, j requires 0 <= j < n => Rendered(f, ps, j, lin, nonlin))
  }

  lemma BlocksLengths(f: Quantity, ps: seq<Projection>, j: nat, lin: seq<real>, nonlin: seq<real>)
    ensures Lengths(Blocks(f, ps, j, lin, nonlin)) == Counts(Exposures(ps))
  {
    var blocks := Blocks(f, ps, j, lin, nonlin);
    assert forall i :: 0 <= i < |ps| ==> Lengths(blocks)[i] == Counts(Exposures(ps))[i];
  }

  lemma RenderedLength(f: Quantity, ps: seq<Projection>, j: nat, lin: seq<real>, nonlin: seq<real>)
    ensures |Rendered(f, ps, j, lin, nonlin)| == Total(Counts(Exposures(ps)))
  {
    BlocksLengths(f, ps, j, lin, nonlin);
    ConcatLength(Blocks(f, ps, j, lin, nonlin));
  }

  lemma RenderedColumnsLength(f: Quantity, ps: seq<Projection>, n: nat, lin: seq<real>, nonlin: seq<real>)
    ensures |RenderedColumns(f, ps, n, lin, nonlin)| == n
    ensures forall j :: 0 <= j < n ==> |RenderedColumns(f, ps, n, lin, nonlin)[j]| == Total(Counts(Exposures(ps)))
  {
    forall j | 0 <= j < n
      ensures |RenderedColumns(f, ps, n, lin, nonlin)[j]| == Total(Counts(Exposures(ps)))
    {
      RenderedLength(f, ps, j, lin, nonlin);
    }
  }

  /** What projection i writes at pixel m of its slice is what the flat
      buffer holds at pixelStart + m: no projection writes outside its slice. */
  lemma RenderedAt(f: Quantity, ps: seq<Projection>, j: nat, lin: seq<real>, nonlin: seq<real>, i: nat, m: nat)
    requires Tiled(ps) && i < |ps| && m < ps[i].exposure.Npix()
    ensures ps[i].pixelStart + m < |Rendered(f, ps, j, lin, nonlin)|
    ensures Rendered(f, ps, j, lin, nonlin)[ps[i].pixelStart + m] == Eval(f, ps[i].exposure, j, m, lin, nonlin)
  {
    var blocks := Blocks(f, ps, j, lin, nonlin);
    BlocksLengths(f, ps, j, lin, nonlin);
    assert ps[i].pixelStart == Offset(Lengths(blocks), i);
    ConcatAt(blocks, i, m);
  }

  /** Projection i's slice is frame i's place in the layout, inside the buffer. */
  lemma TiledSlice(ps: seq<Projection>, i: nat)
    requires Tiled(ps) && i < |ps|
    ensures ps[i].pixelStart == Offset(Counts(Exposures(ps)), i)
    ensures ps[i].pixelEnd == Offset(Counts(Exposures(ps)), i + 1)
    ensures ps[i].pixelEnd == ps[i].pixelStart + ps[i].exposure.Npix() <= Total(Counts(Exposures(ps)))
  {
    var counts := Counts(Exposures(ps));
    assert counts[i] == ps[i].exposure.Npix();
    SliceWithin(counts, i);
  }

  /** v holds, in the slice of every projection, what that projection
      computes for column j. */
  ghost predicate SlicesHold(f: Quantity, ps: seq<Projection>, j: nat, lin: seq<real>, nonlin: seq<real>, v: seq<real>)
  {
    forall i, k :: HoldsAt(f, ps, j, lin, nonlin, v, i, k)
  }

  /** Pixel k of v, if it lies in projection i's slice, holds what projection i computes there. */
  ghost predicate HoldsAt(f: Quantity, ps: seq<Projection>, j: nat, lin: seq<real>, nonlin: seq<real>, v: seq<real>, i: int, k: int)
  {
    0 <= i < |ps| && ps[i].pixelStart <= k < ps[i].pixelEnd ==>
      k < |v| && v[k] == Eval(f, ps[i].exposure, j, k - ps[i].pixelStart, lin, nonlin)
  }

  /** The rendered column holds, in every slice, what its projection computes. */
  lemma RenderedHolds(f: Quantity, ps: seq<Projection>, j: nat, lin: seq<real>, nonlin: seq<real>, v: seq<real>)
    requires Tiled(ps) && v == Rendered(f, ps, j, lin, nonlin)
    ensures SlicesHold(f, ps, j, lin, nonlin, v)
  {
    forall i, k
      ensures HoldsAt(f, ps, j, lin, nonlin, v, i, k)
    {
      if 0 <= i < |ps| && ps[i].pixelStart <= k < ps[i].pixelEnd {
        RenderedAt(f, ps, j, lin, nonlin, i, k - ps[i].pixelStart);
      }
    }
  }

  lemma RenderColumnsHold(f: Quantity, ps: seq<Projection>, n: nat, lin: seq<real>, nonlin: seq<real>)
    requires Tiled(ps)
    ensures |RenderedColumns(f, ps, n, lin, nonlin)| == n
    ensures ColumnsOfLength(RenderedColumns(f, ps, n, lin, nonlin), Total(Counts(Exposures(ps))))
    ensures forall j :: 0 <= j < n ==> SlicesHold(f, ps, j, lin, nonlin, RenderedColumns(f, ps, n, lin, nonlin)[j])
  {
    RenderedColumnsLength(f, ps, n, lin, nonlin);
    forall j | 0 <= j < n
      ensures SlicesHold(f, ps, j, lin, nonlin, RenderedColumns(f, ps, n, lin, nonlin)[j])
    {
      RenderedHolds(f, ps, j, lin, nonlin, RenderedColumns(f, ps, n, lin, nonlin)[j]);
    }
  }

  /** Element-wise division by sigma: the inverse-variance weighting. */
  function Weighted(v: seq<real>, sigma: seq<real>): (w: seq<real>)
    requires |v| == |sigma| && Positive(sigma)
    ensures |w| == |v|
    ensures forall k :: 0 <= k < |v| ==> w[k] * sigma[k] == v[k]
  {
    seq(|v|, k requires 0 <= k < |v| => v[k] / sigma[k])
  }

  /** Weighting by sigma is weighting by the square root of the variance:
      each weighted value squared, times the variance, is the value squared. */
  lemma WeightedByVariance(v: seq<real>, sigma: seq<real>, variance: seq<real>, k: nat)
    requires |v| == |sigma| && Positive(sigma) && Roots(sigma, variance) && k < |v|
    ensures Weighted(v, sigma)[k] * Weighted(v, sigma)[k] * variance[k] == v[k] * v[k]
  {
    var w := Weighted(v, sigma)[k];
    assert w * sigma[k] == v[k];
    calc {
      w * w * variance[k];
    ==  w * w * (sigma[k] * sigma[k]);
    ==  (w * sigma[k]) * (w * sigma[k]);
    ==  v[k] * v[k];
    }
  }

  ghost predicate ColumnsOfLength(cols: seq<seq<real>>, n: nat)
  {
    forall j :: 0 <= j < |cols| ==> |cols[j]| == n
  }

  /** The first `count` columns divided element-wise by sigma, the others untouched. */
  function DivideLeadingColumns(cols: seq<seq<real>>, sigma: seq<real>, count: nat): (divided: seq<seq<real>>)
    requires count <= |cols| && ColumnsOfLength(cols, |sigma|) && Positive(sigma)
    ensures |divided| == |cols| && ColumnsOfLength(divided, |sigma|)
  {
    seq(|cols|, j requires 0 <= j < |cols| => if j < count then Weighted(cols[j], sigma) else cols[j])
  }

  /** The column loop of computeLinearParameterDerivative and, with the
      nonlinear parameter count as its bound, of computeNonlinearParameterDerivative. */
  method DivideColumns(cols: seq<seq<real>>, sigma: seq<real>, count: nat) returns (divided: seq<seq<real>>)
    requires count <= |cols| && ColumnsOfLength(cols, |sigma|) && Positive(sigma)
    ensures divided == DivideLeadingColumns(cols, sigma, count)
  {
    divided := cols;
    for i := 0 to count
      invariant |divided| == |cols|
      invariant forall j :: 0 <= j < |cols| ==> divided[j] == if j < i then Weighted(cols[j], sigma) else cols[j]
    {
      divided := divided[i := Weighted(divided[i], sigma)];
    }
  }

  /** The nonlinear-derivative weighting as written: its loop runs over the
      LINEAR parameter count. With more linear than nonlinear parameters it
      addresses a column past the last one (None); otherwise it divides only
      the first nLinear columns. */
  function NonlinearWeightingAsWritten(cols: seq<seq<real>>, sigma: seq<real>, nLinear: nat): Option<seq<seq<real>>>
    requires ColumnsOfLength(cols, |sigma|) && Positive(sigma)
  {
    if nLinear <= |cols| then Some(DivideLeadingColumns(cols, sigma, nLinear)) else None
  }

  /** The as-written loop bound agrees with the intended one only when both
      counts are equal: with fewer linear parameters a column whose entry is
      not 0 at a pixel whose sigma is not 1 is left unweighted, and with more
      the loop runs off the matrix. */
  lemma NonlinearLoopBoundDefect(cols: seq<seq<real>>, sigma: seq<real>, nLinear: nat, k: nat)
    requires ColumnsOfLength(cols, |sigma|) && Positive(sigma)
    ensures nLinear == |cols| ==>
      NonlinearWeightingAsWritten(cols, sigma, nLinear) == Some(DivideLeadingColumns(cols, sigma, |cols|))
    ensures nLinear > |cols| ==> NonlinearWeightingAsWritten(cols, sigma, nLinear) == None
    ensures nLinear < |cols| && k < |sigma| && cols[nLinear][k] != 0.0 && sigma[k] != 1.0 ==>
      NonlinearWeightingAsWritten(cols, sigma, nLinear) != Some(DivideLeadingColumns(cols, sigma, |cols|))
  {
    if nLinear < |cols| && k < |sigma| && cols[nLinear][k] != 0.0 && sigma[k] != 1.0 {
      var asWritten := DivideLeadingColumns(cols, sigma, nLinear);
      var intended := DivideLeadingColumns(cols, sigma, |cols|);
      var x, s := cols[nLinear][k], sigma[k];
      assert asWritten[nLinear][k] == x;
      assert intended[nLinear][k] == x / s;
      QuotientMoves(x, s);
    }
  }

  /** Dividing a nonzero value by a sigma other than 1 changes it. */
  lemma QuotientMoves(x: real, s: real)
    requires x != 0.0 && s > 0.0 && s != 1.0
    ensures x / s != x
  {
    assert (x / s) * s == x;
    var d := s - 1.0;
    assert x * s == x + x * d;
    if x > 0.0 {
      if d > 0.0 { assert x * d > 0.0; } else { assert x * d < 0.0; }
    } else {
      if d > 0.0 { assert x * d < 0.0; } else { assert x * d > 0.0; }
    }
  }

  /** A concrete instance: no linear parameter and one nonlinear derivative
      column [2] over a pixel with sigma 2, which should become [1] and is
      left as [2]; with two linear parameters the loop leaves the matrix. */
  lemma NonlinearLoopBoundExample()
    ensures NonlinearWeightingAsWritten([[2.0]], [2.0], 0) == Some([[2.0]])
    ensures DivideLeadingColumns([[2.0]], [2.0], 1) == [[1.0]]
    ensures NonlinearWeightingAsWritten([[2.0]], [2.0], 2) == None
  {
    var kept := DivideLeadingColumns([[2.0]], [2.0], 0);
    assert kept[0] == [2.0];
    assert kept == [[2.0]];
    var weighted := Weighted([2.0], [2.0]);
    assert weighted[0] == 2.0 / 2.0 == 1.0;
    assert weighted == [1.0];
    var divided := DivideLeadingColumns([[2.0]], [2.0], 1);
    assert divided[0] == weighted;
    assert divided == [[1.0]];
  }

  function Columns(buffer: array2<real>): (cols: seq<seq<real>>)
    reads buffer
  {
    seq(buffer.Length0, j requires 0 <= j < buffer.Length0 reads buffer =>
      seq(buffer.Length1, k requires 0 <= k < buffer.Length1 reads buffer => buffer[j, k]))
  }

  /** compressImage: copies a footprint's values and variances into the
      data and variance buffers, from index `start` on. */
  method CompressImage(exposure: Exposure, data: array<real>, variance: array<real>, start: nat)
    requires data != variance
    requires start + exposure.Npix() <= data.Length && start + exposure.Npix() <= variance.Length
    modifies data, variance
    ensures forall k :: 0 <= k < data.Length ==>
      data[k] == if start <= k < start + exposure.Npix() then exposure.pixels[k - start].value else old(data[k])
    ensures forall k :: 0 <= k < variance.Length ==>
      variance[k] == if start <= k < start + exposure.Npix() then exposure.pixels[k - start].variance else old(variance[k])
  {
    for m := 0 to exposure.Npix()
      invariant forall k :: 0 <= k < data.Length ==>
        data[k] == if start <= k < start + m then exposure.pixels[k - start].value else old(data[k])
      invariant forall k :: 0 <= k < variance.Length ==>
        variance[k] == if start <= k < start + m then exposure.pixels[k - start].variance else old(variance[k])
    {
      data[start + m] := exposure.pixels[m].value;
      variance[start + m] := exposure.pixels[m].variance;
    }
  }

  /** The first half of setExposureList: one projection, not yet bound to
      any buffer, for every exposure whose clipped footprint has more than
      nMinPix pixels, the accepted exposures, and their pixel total. */
  method SelectExposures(exposures: seq<Exposure>, nMinPix: int)
    returns (projections: seq<Projection>, goodExposureList: seq<Exposure>, pixSum: nat)
    ensures goodExposureList == Accepted(exposures, nMinPix)
    ensures |projections| == |goodExposureList|
    ensures forall j :: 0 <= j < |projections| ==> projections[j] == Projection(goodExposureList[j], 0, 0)
    ensures pixSum == Total(Counts(goodExposureList))
  {
    projections := [];
    goodExposureList := [];
    pixSum := 0;
    for i := 0 to |exposures|
      invariant goodExposureList == Accepted(exposures[..i], nMinPix)
      invariant |projections| == |goodExposureList|
      invariant forall j :: 0 <= j < |projections| ==> projections[j] == Projection(goodExposureList[j], 0, 0)
      invariant pixSum == Total(Counts(goodExposureList))
    {
      assert exposures[..i + 1][..i] == exposures[..i];
      var exposure := exposures[i];
      if exposure.Npix() > nMinPix {
        // a projection whose buffers are not bound yet
        projections := projections + [Projection(exposure, 0, 0)];
        CountsSnoc(goodExposureList, exposure);
        TotalSnoc(Counts(goodExposureList), exposure.Npix());
        goodExposureList := goodExposureList + [exposure];
        pixSum := pixSum + exposure.Npix();
      }
    }
    assert exposures[..|exposures|] == exposures;
  }

  /** One turn of the binding loop: frame i's footprint is compressed into
      its slice, extending the finished prefix of both buffers by that slice. */
  method CompressStep(frames: seq<Exposure>, data: array<real>, variance: array<real>, i: nat)
    requires i < |frames| && data != variance
    requires data.Length == variance.Length == Total(Counts(frames)) == |Flatten(frames)|
    requires Offset(Counts(frames), i) <= data.Length
    requires forall k :: 0 <= k < Offset(Counts(frames), i) ==>
      data[k] == Flatten(frames)[k].value && variance[k] == Flatten(frames)[k].variance
    modifies data, variance
    ensures Offset(Counts(frames), i + 1) == Offset(Counts(frames), i) + frames[i].Npix() <= data.Length
    ensures forall k :: 0 <= k < Offset(Counts(frames), i + 1) ==>
      data[k] == Flatten(frames)[k].value && variance[k] == Flatten(frames)[k].variance
  {
    SliceWithin(Counts(frames), i);
    FlattenSlice(frames, i);
    CompressImage(frames[i], data, variance, Offset(Counts(frames), i));
  }

  /** The second half of setExposureList: walks the accepted frames and
      their unbound projections in lockstep, copying each footprint into its
      slice of the data and variance buffers and binding the projection to
      that slice. */
  method BindSlices(frames: seq<Exposure>, unbound: seq<Projection>, data: array<real>, variance: array<real>)
    returns (projections: seq<Projection>)
    requires |unbound| == |frames| && data != variance
    requires data.Length == variance.Length == Total(Counts(frames))
    requires forall j :: 0 <= j < |unbound| ==> unbound[j] == Projection(frames[j], 0, 0)
    modifies data, variance
    ensures projections == Arrange(frames)
    ensures data[..] == Values(Flatten(frames)) && variance[..] == Variances(Flatten(frames))
  {
    projections := unbound;
    ghost var counts := Counts(frames);
    ghost var flat := Flatten(frames);
    ConcatLength(Footprints(frames));
    var pixelStart := 0;
    var i := 0;
    while i < |projections|
      invariant 0 <= i <= |projections| == |frames|
      invariant pixelStart == Offset(counts, i) <= data.Length
      invariant forall j :: 0 <= j < i ==> projections[j] == Arrange(frames)[j]
      invariant forall j :: i <= j < |projections| ==> projections[j] == Projection(frames[j], 0, 0)
      invariant forall k :: 0 <= k < pixelStart ==> data[k] == flat[k].value && variance[k] == flat[k].variance
      modifies data, variance
    {
      var projection := projections[i];
      var nPix := projection.exposure.Npix();
      var pixelEnd := pixelStart + nPix;
      CompressStep(frames, data, variance, i);
      // bind the projection's model-image and derivative buffers to its slice
      projections := projections[i := Projection(projection.exposure, pixelStart, pixelEnd)];
      pixelStart := pixelEnd;
      i := i + 1;
    }
    OffsetEnds(counts);
    assert data[..] == Values(flat);
    assert variance[..] == Variances(flat);
  }

  /** The body of setExposureList up to the point where the evaluator's
      fields are replaced: select, allocate, compress and bind. */
  method LayOut(exposures: seq<Exposure>, nMinPix: int, nLinear: nat, nNonlinear: nat)
    returns (projections: seq<Projection>, data: array<real>, variance: array<real>,
             modelImage: array<real>, linearDerivative: array2<real>, nonlinearDerivative: array2<real>)
    ensures projections == Arrange(Accepted(exposures, nMinPix))
    ensures fresh(data) && fresh(variance) && fresh(modelImage) && fresh(linearDerivative) && fresh(nonlinearDerivative)
    ensures data.Length == variance.Length == modelImage.Length == Total(Counts(Accepted(exposures, nMinPix)))
    ensures data != variance && data != modelImage && variance != modelImage
    ensures linearDerivative.Length0 == nLinear && linearDerivative.Length1 == data.Length
    ensures nonlinearDerivative.Length0 == nNonlinear && nonlinearDerivative.Length1 == data.Length
    ensures linearDerivative != nonlinearDerivative
    ensures data[..] == Values(Flatten(Accepted(exposures, nMinPix)))
    ensures variance[..] == Variances(Flatten(Accepted(exposures, nMinPix)))
  {
    // keep the exposures with enough contributing pixels
    var unbound, goodExposureList, pixSum := SelectExposures(exposures, nMinPix);
    // allocate the buffers
    data := new real[pixSum];
    variance := new real[pixSum];
    modelImage := new real[pixSum];
    linearDerivative := new real[nLinear, pixSum];
    nonlinearDerivative := new real[nNonlinear, pixSum];
    // give each projection its slice of them
    projections := BindSlices(goodExposureList, unbound, data, variance);
  }

  // ---------------------------------------------------------------------
  // The evaluator

  class ModelEvaluator {
    const model: Model
    const nLinear: nat
    const nNonlinear: nat
    var nMinPix: int
    var linearParameters: seq<real>
    var nonlinearParameters: seq<real>
    var projectionList: seq<Projection>
    var validProducts: bv8
    var dataVector: array<real>
    var varianceVector: array<real>
    var modelImageBuffer: array<real>
    var linearDerivativeBuffer: array2<real>
    var nonlinearDerivativeBuffer: array2<real>
    var sigma: seq<real>
    var modelImage: seq<real>
    var linearDerivative: seq<seq<real>>
    var nonlinearDerivative: seq<seq<real>>
    /** Every call made on a projection's compute methods, oldest first. */
    ghost var calls: seq<ProjectionCall>

    function NPixels(): nat
      reads this
    {
      dataVector.Length
    }

    /** Parameter sizes, buffer shapes, the slice layout, and sigma as the
        positive root of the variance. */
    ghost predicate Consistent()
      reads this, varianceVector
    {
      && |linearParameters| == nLinear
      && |nonlinearParameters| == nNonlinear
      && Tiled(projectionList)
      && Total(Counts(Exposures(projectionList))) == dataVector.Length
      && varianceVector.Length == dataVector.Length
      && modelImageBuffer.Length == dataVector.Length
      && |sigma| == dataVector.Length
      && Positive(sigma)
      && Roots(sigma, varianceVector[..])
      && dataVector != varianceVector && dataVector != modelImageBuffer && varianceVector != modelImageBuffer
      && linearDerivativeBuffer.Length0 == nLinear && linearDerivativeBuffer.Length1 == dataVector.Length
      && nonlinearDerivativeBuffer.Length0 == nNonlinear && nonlinearDerivativeBuffer.Length1 == dataVector.Length
      && linearDerivativeBuffer != nonlinearDerivativeBuffer
    }

    /** The model image a recomputation would produce now. */
    ghost function ExpectedModelImage(): (image: seq<real>)
      reads this, varianceVector
      requires Consistent()
      ensures |image| == NPixels()
    {
      RenderedLength(model.image, projectionList, 0, linearParameters, nonlinearParameters);
      Weighted(Rendered(model.image, projectionList, 0, linearParameters, nonlinearParameters), sigma)
    }

    /** The derivative matrix (as columns) a recomputation would produce now. */
    ghost function ExpectedDerivative(product: Product): (columns: seq<seq<real>>)
      reads this, varianceVector
      requires Consistent() && product != ModelImage
      ensures |columns| == (if product == LinearParameterDerivative then nLinear else nNonlinear)
      ensures ColumnsOfLength(columns, NPixels())
    {
      var n := if product == LinearParameterDerivative then nLinear else nNonlinear;
      RenderedColumnsLength(model.Of(product), projectionList, n, linearParameters, nonlinearParameters);
      DivideLeadingColumns(RenderedColumns(model.Of(product), projectionList, n, linearParameters, nonlinearParameters), sigma, n)
    }

    /** The object invariant: a product whose bit is set is what a
        recomputation at the current parameters would give, so the cache
        never serves stale data. */
    ghost predicate Valid()
      reads this, varianceVector
    {
      && Consistent()
      && (validProducts & Bit(ModelImage) != 0 ==> modelImage == ExpectedModelImage())
      && (validProducts & Bit(LinearParameterDerivative) != 0 ==>
            linearDerivative == ExpectedDerivative(LinearParameterDerivative))
      && (validProducts & Bit(NonlinearParameterDerivative) != 0 ==>
            nonlinearDerivative == ExpectedDerivative(NonlinearParameterDerivative))
    }

    /** An evaluator with no exposures yet. */
    constructor (model: Model, linearParameters: seq<real>, nonlinearParameters: seq<real>, nMinPix: int)
      ensures Valid()
      ensures this.model == model && nLinear == |linearParameters| && nNonlinear == |nonlinearParameters|
      ensures this.linearParameters == linearParameters && this.nonlinearParameters == nonlinearParameters
      ensures this.nMinPix == nMinPix && projectionList == [] && NPixels() == 0
      ensures validProducts == 0 && calls == []
    {
      this.model := model;
      nLinear := |linearParameters|;
      nNonlinear := |nonlinearParameters|;
      this.linearParameters := linearParameters;
      this.nonlinearParameters := nonlinearParameters;
      this.nMinPix := nMinPix;
      projectionList := [];
      validProducts := 0;
      dataVector := new real[0];
      varianceVector := new real[0];
      modelImageBuffer := new real[0];
      linearDerivativeBuffer := new real[|linearParameters|, 0];
      nonlinearDerivativeBuffer := new real[|nonlinearParameters|, 0];
      sigma := [];
      modelImage := [];
      linearDerivative := [];
      nonlinearDerivative := [];
      calls := [];
    }

    /** Weighted data: each measured value divided by its sigma. */
    function WeightedData(): (data: seq<real>)
      reads this, dataVector, varianceVector
      requires Consistent()
      ensures |data| == NPixels()
    {
      Weighted(dataVector[..], sigma)
    }

    /** Stores new linear parameters; every cached product becomes stale. */
    method SetLinearParameters(values: seq<real>)
      requires Valid() && |values| == nLinear
      modifies this`linearParameters, this`validProducts
      ensures Valid() && linearParameters == values && validProducts == 0
    {
      linearParameters := values;
      validProducts := 0;
    }

    /** Stores new nonlinear parameters; every cached product becomes stale. */
    method SetNonlinearParameters(values: seq<real>)
      requires Valid() && |values| == nNonlinear
      modifies this`nonlinearParameters, this`validProducts
      ensures Valid() && nonlinearParameters == values && validProducts == 0
    {
      nonlinearParameters := values;
      validProducts := 0;
    }

    /** Replaces the frame set: keeps the exposures whose clipped footprint
        has more than nMinPix pixels, gives each a projection and a slice of
        freshly allocated buffers, and invalidates every cached product. */
    method SetExposureList(exposures: seq<Exposure>)
      requires |linearParameters| == nLinear && |nonlinearParameters| == nNonlinear
      requires forall e :: e in exposures && e.Npix() > nMinPix ==> e.SigmaIsRoot()
      modifies this`projectionList, this`validProducts, this`sigma, this`dataVector, this`varianceVector
      modifies this`modelImageBuffer, this`linearDerivativeBuffer, this`nonlinearDerivativeBuffer
      ensures Valid()
      ensures validProducts == 0
      ensures projectionList == Arrange(Accepted(exposures, nMinPix))
      ensures NPixels() == Total(Counts(Accepted(exposures, nMinPix)))
      ensures dataVector[..] == Values(Flatten(Accepted(exposures, nMinPix)))
      ensures varianceVector[..] == Variances(Flatten(Accepted(exposures, nMinPix)))
      ensures sigma == Sigmas(Flatten(Accepted(exposures, nMinPix)))
      ensures fresh(dataVector) && fresh(varianceVector) && fresh(modelImageBuffer)
      ensures fresh(linearDerivativeBuffer) && fresh(nonlinearDerivativeBuffer)
    {
      var projections, data, variance, imageBuffer, linearBuffer, nonlinearBuffer :=
        LayOut(exposures, nMinPix, nLinear, nNonlinear);
      var flat := Flatten(Accepted(exposures, nMinPix));

      Install(projections, Sigmas(flat), data, variance, imageBuffer, linearBuffer, nonlinearBuffer);
      LaidOutIsValid(exposures);
    }

    /** The projection list is replaced and every cached product invalidated
        at once: no state in between is observable. */
    method Install(projections: seq<Projection>, sigma: seq<real>, data: array<real>, variance: array<real>,
                   imageBuffer: array<real>, linearBuffer: array2<real>, nonlinearBuffer: array2<real>)
      modifies this`projectionList, this`validProducts, this`sigma, this`dataVector, this`varianceVector
      modifies this`modelImageBuffer, this`linearDerivativeBuffer, this`nonlinearDerivativeBuffer
      ensures projectionList == projections && validProducts == 0 && this.sigma == sigma
      ensures dataVector == data && varianceVector == variance && modelImageBuffer == imageBuffer
      ensures linearDerivativeBuffer == linearBuffer && nonlinearDerivativeBuffer == nonlinearBuffer
    {
      projectionList, validProducts, this.sigma, dataVector, varianceVector, modelImageBuffer,
        linearDerivativeBuffer, nonlinearDerivativeBuffer :=
        projections, 0, sigma, data, variance, imageBuffer, linearBuffer, nonlinearBuffer;
    }

    /** A freshly laid-out frame set with no valid product satisfies the invariant. */
    lemma LaidOutIsValid(exposures: seq<Exposure>)
      requires forall e :: e in exposures && e.Npix() > nMinPix ==> e.SigmaIsRoot()
      requires validProducts == 0 && |linearParameters| == nLinear && |nonlinearParameters| == nNonlinear
      requires projectionList == Arrange(Accepted(exposures, nMinPix))
      requires sigma == Sigmas(Flatten(Accepted(exposures, nMinPix)))
      requires varianceVector[..] == Variances(Flatten(Accepted(exposures, nMinPix)))
      requires dataVector.Length == varianceVector.Length == modelImageBuffer.Length == Total(Counts(Accepted(exposures, nMinPix)))
      requires dataVector != varianceVector && dataVector != modelImageBuffer && varianceVector != modelImageBuffer
      requires linearDerivativeBuffer.Length0 == nLinear && linearDerivativeBuffer.Length1 == dataVector.Length
      requires nonlinearDerivativeBuffer.Length0 == nNonlinear && nonlinearDerivativeBuffer.Length1 == dataVector.Length
      requires linearDerivativeBuffer != nonlinearDerivativeBuffer
      ensures Valid()
    {
      AcceptedLayout(exposures, nMinPix);
    }

    /** computeModelImage: recomputes the image only when its bit is clear,
        then serves the cached, sigma-weighted image. */
    method ComputeModelImage() returns (image: seq<real>)
      requires Valid()
      modifies this`validProducts, this`modelImage, this`calls, modelImageBuffer
      ensures Valid()
      ensures image == modelImage == ExpectedModelImage()
      ensures validProducts == old(validProducts) | Bit(ModelImage)
      ensures old(validProducts) & Bit(ModelImage) != 0 ==>
        calls == old(calls) && modelImage == old(modelImage) && unchanged(modelImageBuffer)
      ensures old(validProducts) & Bit(ModelImage) == 0 ==>
        calls == old(calls) + CallsOn(ModelImage, projectionList) &&
        modelImageBuffer[..] == Rendered(model.image, projectionList, 0, linearParameters, nonlinearParameters)
    {
      if validProducts & Bit(ModelImage) == 0 {
        RenderedLength(model.image, projectionList, 0, linearParameters, nonlinearParameters);
        RenderedHolds(model.image, projectionList, 0, linearParameters, nonlinearParameters,
          Rendered(model.image, projectionList, 0, linearParameters, nonlinearParameters));
        RenderImage(projectionList, linearParameters, nonlinearParameters, modelImageBuffer,
          Rendered(model.image, projectionList, 0, linearParameters, nonlinearParameters));
        modelImage, validProducts := Weighted(modelImageBuffer[..], sigma), validProducts | Bit(ModelImage);
      }
      image := modelImage;
    }

    /** computeLinearParameterDerivative: recomputes the matrix only when its
        bit is clear, dividing each of its nLinear columns by sigma. */
    method ComputeLinearParameterDerivative() returns (derivative: seq<seq<real>>)
      requires Valid()
      modifies this`validProducts, this`linearDerivative, this`calls, linearDerivativeBuffer
      ensures Valid()
      ensures derivative == linearDerivative == ExpectedDerivative(LinearParameterDerivative)
      ensures validProducts == old(validProducts) | Bit(LinearParameterDerivative)
      ensures old(validProducts) & Bit(LinearParameterDerivative) != 0 ==>
        calls == old(calls) && linearDerivative == old(linearDerivative) && unchanged(linearDerivativeBuffer)
      ensures old(validProducts) & Bit(LinearParameterDerivative) == 0 ==>
        calls == old(calls) + CallsOn(LinearParameterDerivative, projectionList) &&
        Columns(linearDerivativeBuffer) == RenderedColumns(model.linearDerivative, projectionList, nLinear, linearParameters, nonlinearParameters)
    {
      if validProducts & Bit(LinearParameterDerivative) == 0 {
        RenderColumnsHold(model.linearDerivative, projectionList, nLinear, linearParameters, nonlinearParameters);
        RenderColumns(LinearParameterDerivative, projectionList, linearParameters, nonlinearParameters, linearDerivativeBuffer,
          RenderedColumns(model.linearDerivative, projectionList, nLinear, linearParameters, nonlinearParameters));
        linearDerivative := DivideColumns(Columns(linearDerivativeBuffer), sigma, nLinear);
        validProducts := validProducts | Bit(LinearParameterDerivative);
      }
      derivative := linearDerivative;
    }

    /** computeNonlinearParameterDerivative, with its weighting loop bounded
        by the nonlinear parameter count so that every column is divided by sigma. */
    method ComputeNonlinearParameterDerivative() returns (derivative: seq<seq<real>>)
      requires Valid()
      modifies this`validProducts, this`nonlinearDerivative, this`calls, nonlinearDerivativeBuffer
      ensures Valid()
      ensures derivative == nonlinearDerivative == ExpectedDerivative(NonlinearParameterDerivative)
      ensures validProducts == old(validProducts) | Bit(NonlinearParameterDerivative)
      ensures old(validProducts) & Bit(NonlinearParameterDerivative) != 0 ==>
        calls == old(calls) && nonlinearDerivative == old(nonlinearDerivative) && unchanged(nonlinearDerivativeBuffer)
      ensures old(validProducts) & Bit(NonlinearParameterDerivative) == 0 ==>
        calls == old(calls) + CallsOn(NonlinearParameterDerivative, projectionList) &&
        Columns(nonlinearDerivativeBuffer) == RenderedColumns(model.nonlinearDerivative, projectionList, nNonlinear, linearParameters, nonlinearParameters)
    {
      if validProducts & Bit(NonlinearParameterDerivative) == 0 {
        RenderColumnsHold(model.nonlinearDerivative, projectionList, nNonlinear, linearParameters, nonlinearParameters);
        RenderColumns(NonlinearParameterDerivative, projectionList, linearParameters, nonlinearParameters, nonlinearDerivativeBuffer,
          RenderedColumns(model.nonlinearDerivative, projectionList, nNonlinear, linearParameters, nonlinearParameters));
        nonlinearDerivative := DivideColumns(Columns(nonlinearDerivativeBuffer), sigma, nNonlinear);
        validProducts := validProducts | Bit(NonlinearParameterDerivative);
      }
      derivative := nonlinearDerivative;
    }

    /** A projection's compute call for the model image: it writes the image
        of its exposure into its own slice of the shared buffer and nothing
        else, and the call goes into the log. */
    method ProjectImage(p: Projection, lin: seq<real>, nonlin: seq<real>, buffer: array<real>)
      requires p.pixelEnd == p.pixelStart + p.exposure.Npix() <= buffer.Length
      modifies this`calls, buffer
      ensures calls == old(calls) + [ProjectionCall(ModelImage, p)]
      ensures forall k :: 0 <= k < buffer.Length ==>
        buffer[k] == if p.pixelStart <= k < p.pixelEnd then Eval(model.image, p.exposure, 0, k - p.pixelStart, lin, nonlin) else old(buffer[k])
    {
      for m := 0 to p.exposure.Npix()
        modifies buffer
        invariant forall k :: 0 <= k < buffer.Length ==>
          buffer[k] == if p.pixelStart <= k < p.pixelStart + m then Eval(model.image, p.exposure, 0, k - p.pixelStart, lin, nonlin) else old(buffer[k])
      {
        buffer[p.pixelStart + m] := Eval(model.image, p.exposure, 0, m, lin, nonlin);
      }
      calls := calls + [ProjectionCall(ModelImage, p)];
    }

    /** A projection's compute call for a derivative: for every parameter
        (row j of the buffer) it writes its slice of that column, and the
        call goes into the log. */
    method ProjectDerivative(product: Product, p: Projection, lin: seq<real>, nonlin: seq<real>, buffer: array2<real>)
      requires product != ModelImage
      requires p.pixelEnd == p.pixelStart + p.exposure.Npix() <= buffer.Length1
      modifies this`calls, buffer
      ensures calls == old(calls) + [ProjectionCall(product, p)]
      ensures forall j, k :: 0 <= j < buffer.Length0 && 0 <= k < buffer.Length1 ==>
        buffer[j, k] == if p.pixelStart <= k < p.pixelEnd then Eval(model.Of(product), p.exposure, j, k - p.pixelStart, lin, nonlin) else old(buffer[j, k])
    {
      var f := model.Of(product);
      for j := 0 to buffer.Length0
        modifies buffer
        invariant forall j', k :: 0 <= j' < buffer.Length0 && 0 <= k < buffer.Length1 ==>
          buffer[j', k] == if j' < j && p.pixelStart <= k < p.pixelEnd then Eval(f, p.exposure, j', k - p.pixelStart, lin, nonlin) else old(buffer[j', k])
      {
        for m := 0 to p.exposure.Npix()
          invariant forall j', k :: 0 <= j' < buffer.Length0 && 0 <= k < buffer.Length1 ==>
            buffer[j', k] == if (j' < j && p.pixelStart <= k < p.pixelEnd) || (j' == j && p.pixelStart <= k < p.pixelStart + m)
              then Eval(f, p.exposure, j', k - p.pixelStart, lin, nonlin) else old(buffer[j', k])
        {
          buffer[j, p.pixelStart + m] := Eval(f, p.exposure, j, m, lin, nonlin);
        }
      }
      calls := calls + [ProjectionCall(product, p)];
    }

    /** The projection loop of computeModelImage: every projection, in list
        order, is called once and computes its image into its slice of the
        shared buffer, which then holds `image`, the image the slices describe. */
    method RenderImage(ps: seq<Projection>, lin: seq<real>, nonlin: seq<real>,
                       buffer: array<real>, ghost image: seq<real>)
      requires Tiled(ps) && buffer.Length == Total(Counts(Exposures(ps))) == |image|
      requires SlicesHold(model.image, ps, 0, lin, nonlin, image)
      modifies this`calls, buffer
      ensures buffer[..] == image
      ensures calls == old(calls) + CallsOn(ModelImage, ps)
    {
      ghost var counts := Counts(Exposures(ps));
      OffsetEnds(counts);
      for i := 0 to |ps|
        invariant Offset(counts, i) <= buffer.Length
        invariant forall k :: 0 <= k < Offset(counts, i) ==> buffer[k] == image[k]
        invariant calls == old(calls) + CallsOn(ModelImage, ps[..i])
      {
        RenderImageStep(ps, lin, nonlin, buffer, image, i);
        CallsOnSnoc(ModelImage, ps, i);
      }
      assert ps[..|ps|] == ps;
    }

    /** One turn of that loop (a method of its own to keep each proof
        small): projection i fills its slice, extending the finished prefix
        by that slice. */
    method RenderImageStep(ps: seq<Projection>, lin: seq<real>, nonlin: seq<real>,
                           buffer: array<real>, ghost image: seq<real>, i: nat)
      requires Tiled(ps) && i < |ps| && buffer.Length == Total(Counts(Exposures(ps))) == |image|
      requires SlicesHold(model.image, ps, 0, lin, nonlin, image)
      requires Offset(Counts(Exposures(ps)), i) <= buffer.Length
      requires forall k :: 0 <= k < Offset(Counts(Exposures(ps)), i) ==> buffer[k] == image[k]
      modifies this`calls, buffer
      ensures calls == old(calls) + [ProjectionCall(ModelImage, ps[i])]
      ensures Offset(Counts(Exposures(ps)), i + 1) <= buffer.Length
      ensures forall k :: 0 <= k < Offset(Counts(Exposures(ps)), i + 1) ==> buffer[k] == image[k]
    {
      TiledSlice(ps, i);
      var p := ps[i];
      ProjectImage(p, lin, nonlin, buffer);
      forall k | p.pixelStart <= k < p.pixelEnd
        ensures buffer[k] == image[k]
      {
        assert HoldsAt(model.image, ps, 0, lin, nonlin, image, i, k);
      }
    }

    /** The projection loop of the two derivative computations: every
        projection, in list order, is called once and computes its derivative
        into its slice of every column (row j of `buffer`), which then holds
        `columns`. */
    method RenderColumns(product: Product, ps: seq<Projection>, lin: seq<real>, nonlin: seq<real>,
                         buffer: array2<real>, ghost columns: seq<seq<real>>)
      requires product != ModelImage
      requires Tiled(ps) && buffer.Length1 == Total(Counts(Exposures(ps)))
      requires |columns| == buffer.Length0 && ColumnsOfLength(columns, buffer.Length1)
      requires forall j :: 0 <= j < |columns| ==> SlicesHold(model.Of(product), ps, j, lin, nonlin, columns[j])
      modifies this`calls, buffer
      ensures Columns(buffer) == columns
      ensures calls == old(calls) + CallsOn(product, ps)
    {
      ghost var counts := Counts(Exposures(ps));
      OffsetEnds(counts);
      for i := 0 to |ps|
        invariant Offset(counts, i) <= buffer.Length1
        invariant forall j, k :: 0 <= j < buffer.Length0 && 0 <= k < Offset(counts, i) ==> buffer[j, k] == columns[j][k]
        invariant calls == old(calls) + CallsOn(product, ps[..i])
      {
        RenderColumnsStep(product, ps, lin, nonlin, buffer, columns, i);
        CallsOnSnoc(product, ps, i);
      }
      assert ps[..|ps|] == ps;
      forall j | 0 <= j < buffer.Length0
        ensures Columns(buffer)[j] == columns[j]
      {
      }
    }

    /** One turn of that loop (a method of its own to keep each proof
        small): projection i fills its slice of every column, extending the
        finished prefix by that slice. */
    method RenderColumnsStep(product: Product, ps: seq<Projection>, lin: seq<real>, nonlin: seq<real>,
                             buffer: array2<real>, ghost columns: seq<seq<real>>, i: nat)
      requires product != ModelImage
      requires Tiled(ps) && i < |ps| && buffer.Length1 == Total(Counts(Exposures(ps)))
      requires |columns| == buffer.Length0 && ColumnsOfLength(columns, buffer.Length1)
      requires forall j :: 0 <= j < |columns| ==> SlicesHold(model.Of(product), ps, j, lin, nonlin, columns[j])
      requires Offset(Counts(Exposures(ps)), i) <= buffer.Length1
      requires forall j, k :: 0 <= j < buffer.Length0 && 0 <= k < Offset(Counts(Exposures(ps)), i) ==> buffer[j, k] == columns[j][k]
      modifies this`calls, buffer
      ensures calls == old(calls) + [ProjectionCall(product, ps[i])]
      ensures Offset(Counts(Exposures(ps)), i + 1) <= buffer.Length1
      ensures forall j, k :: 0 <= j < buffer.Length0 && 0 <= k < Offset(Counts(Exposures(ps)), i + 1) ==> buffer[j, k] == columns[j][k]
    {
      TiledSlice(ps, i);
      var p := ps[i];
      ProjectDerivative(product, p, lin, nonlin, buffer);
      forall j, k | 0 <= j < |columns| && p.pixelStart <= k < p.pixelEnd
        ensures buffer[j, k] == columns[j][k]
      {
        assert HoldsAt(model.Of(product), ps, j, lin, nonlin, columns[j], i, k);
      }
    }
  }
}
