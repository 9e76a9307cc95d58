/** The chi-squared objective that the Minuit fitters minimise: the adapter
    that pushes the minimiser's flat parameter vector into the evaluator and
    turns the weighted model image and derivatives into the value
    0.5 * r.r and the gradient [-(L^T r); -(N^T r)], and the setup that both
    fitters perform before the minimiser is run. */
module Fitter {
  import opened Evaluator

  datatype Result<T> = Success(value: T) | Failure(error: string)

  // ---------------------------------------------------------------------
  // Vectors

  function Dot(a: seq<real>, b: seq<real>): real
    requires |a| == |b|
  {
    if a == [] then 0.0 else a[0] * b[0] + Dot(a[1..], b[1..])
  }

  /** a - b, element by element. */
  function Sub(a: seq<real>, b: seq<real>): (d: seq<real>)
    requires |a| == |b|
    ensures |d| == |a| && forall k {:trigger d[k]} :: 0 <= k < |a| ==> d[k] == a[k] - b[k]
  {
    if a == [] then [] else [a[0] - b[0]] + Sub(a[1..], b[1..])
  }

  /** t * a, element by element. */
  function Scale(t: real, a: seq<real>): (s: seq<real>)
    ensures |s| == |a| && forall k {:trigger s[k]} :: 0 <= k < |a| ==> s[k] == t * a[k]
  {
    if a == [] then [] else [t * a[0]] + Scale(t, a[1..])
  }

  /** a moved by t along direction c. */
  function Step(a: seq<real>, c: seq<real>, t: real): (s: seq<real>)
    requires |a| == |c|
    ensures |s| == |a| && forall k {:trigger s[k]} :: 0 <= k < |a| ==> s[k] == a[k] + t * c[k]
  {
    if a == [] then [] else [a[0] + t * c[0]] + Step(a[1..], c[1..], t)
  }

  function Negated(a: seq<real>): (n: seq<real>)
    ensures |n| == |a| && forall k {:trigger n[k]} :: 0 <= k < |a| ==> n[k] == -a[k]
  {
    if a == [] then [] else [-a[0]] + Negated(a[1..])
  }

  /** The matrix whose columns are `cols`, negated entry by entry. */
  function NegatedColumns(cols: seq<seq<real>>): (neg: seq<seq<real>>)
    ensures |neg| == |cols| && forall j {:trigger neg[j]} :: 0 <= j < |cols| ==> neg[j] == Negated(cols[j])
  {
    if cols == [] then [] else [Negated(cols[0])] + NegatedColumns(cols[1..])
  }

  /** The transpose of the matrix whose columns are `cols`, times r: one dot
      product per column. */
  function TransposeTimes(cols: seq<seq<real>>, r: seq<real>): (v: seq<real>)
    requires ColumnsOfLength(cols, |r|)
    ensures |v| == |cols| && forall j {:trigger v[j]} :: 0 <= j < |cols| ==> v[j] == Dot(cols[j], r)
  {
    if cols == [] then [] else [Dot(cols[0], r)] + TransposeTimes(cols[1..], r)
  }

  // ---------------------------------------------------------------------
  // Objective and gradient

  /** computeValue's objective: half the squared norm of the weighted residual. */
  function Objective(r: seq<real>): real
  {
    0.5 * Dot(r, r)
  }

  /** computeGradient's vector: (-lpd)^T r stacked on (-npd)^T r. */
  function Gradient(lpd: seq<seq<real>>, npd: seq<seq<real>>, r: seq<real>): (g: seq<real>)
    requires ColumnsOfLength(lpd, |r|) && ColumnsOfLength(npd, |r|)
    ensures |g| == |lpd| + |npd|
  {
    TransposeTimes(NegatedColumns(lpd), r) + TransposeTimes(NegatedColumns(npd), r)
  }

  /** The column of the stacked derivative matrix [lpd, npd] that belongs to
      parameter i of the flat parameter vector. */
  function Column(lpd: seq<seq<real>>, npd: seq<seq<real>>, i: nat): seq<real>
    requires i < |lpd| + |npd|
  {
    if i < |lpd| then lpd[i] else npd[i - |lpd|]
  }

  lemma {:induction false} DotNegated(a: seq<real>, b: seq<real>)
    requires |a| == |b|
    ensures Dot(Negated(a), b) == -Dot(a, b)
  {
    if a != [] {
      DotNegated(a[1..], b[1..]);
      assert Negated(a)[1..] == Negated(a[1..]);
    }
  }

  /** A squared norm is never negative. */
  lemma {:induction false} DotSelfNonNegative(a: seq<real>)
    ensures Dot(a, a) >= 0.0
  {
    if a != [] {
      DotSelfNonNegative(a[1..]);
      HeadNonNegative(a);
    }
  }

  /** A squared norm is positive as soon as one entry is not zero. */
  lemma {:induction false} DotSelfPositive(a: seq<real>, k: nat)
    requires k < |a| && a[k] != 0.0
    ensures Dot(a, a) > 0.0
  {
    if k == 0 {
      HeadPositive(a);
      DotSelfNonNegative(a[1..]);
    } else {
      assert a[1..][k - 1] == a[k];
      DotSelfPositive(a[1..], k - 1);
      HeadNonNegative(a);
    }
  }

  /** The squared norm of the zero vector is zero. */
  lemma {:induction false} DotSelfZero(a: seq<real>)
    requires forall k :: 0 <= k < |a| ==> a[k] == 0.0
    ensures Dot(a, a) == 0.0
  {
    if a != [] {
      assert forall k :: 0 <= k < |a[1..]| ==> a[1..][k] == a[k + 1];
      DotSelfZero(a[1..]);
      HeadZero(a);
    }
  }

  // How the first entry of a vector contributes to its squared norm.

  lemma HeadNonNegative(a: seq<real>)
    requires a != []
    ensures Dot(a, a) >= Dot(a[1..], a[1..])
  {
  }

  lemma HeadZero(a: seq<real>)
    requires a != [] && a[0] == 0.0
    ensures Dot(a, a) == Dot(a[1..], a[1..])
  {
  }

  lemma HeadPositive(a: seq<real>)
    requires a != [] && a[0] != 0.0
    ensures Dot(a, a) > Dot(a[1..], a[1..])
  {
    SquarePositive(a[0], Dot(a, a) - Dot(a[1..], a[1..]));
  }

  lemma SquarePositive(x: real, s: real)
    requires x != 0.0 && s == x * x
    ensures s > 0.0
  {
    ProductPositive(x, x, s);
  }

  lemma ProductPositive(x: real, y: real, s: real)
    requires (x > 0.0 && y > 0.0) || (x < 0.0 && y < 0.0)
    requires s == x * y
    ensures s > 0.0
  {
  }

  /** The objective is non-negative and vanishes exactly when the model
      reproduces the weighted data at every pixel. */
  lemma ObjectiveNonNegative(r: seq<real>)
    ensures Objective(r) >= 0.0
    ensures Objective(r) == 0.0 <==> forall k :: 0 <= k < |r| ==> r[k] == 0.0
  {
    DotSelfNonNegative(r);
    if forall k :: 0 <= k < |r| ==> r[k] == 0.0 {
      DotSelfZero(r);
    } else {
      var k :| 0 <= k < |r| && r[k] != 0.0;
      DotSelfPositive(r, k);
    }
  }

  /** The polynomial a + b t + c t^2. */
  function Quadratic(a: real, b: real, c: real, t: real): real
  {
    a + b * t + c * t * t
  }

  /** Moving the residual by -t along c makes its squared norm the quadratic
      r.r - 2t c.r + t^2 c.c, with no remainder. */
  lemma {:induction false} DotAlong(r: seq<real>, c: seq<real>, t: real)
    requires |r| == |c|
    ensures Dot(Sub(r, Scale(t, c)), Sub(r, Scale(t, c))) == Quadratic(Dot(r, r), -2.0 * Dot(c, r), Dot(c, c), t)
  {
    if r == [] {
      assert Sub(r, Scale(t, c)) == [];
    } else {
      AlongSquare(r, c, t);
      DotAlong(r[1..], c[1..], t);
      DotHead(r, r);
      DotHead(c, r);
      DotHead(c, c);
      StepAlong(Dot(Sub(r, Scale(t, c)), Sub(r, Scale(t, c))), Sub(r, Scale(t, c))[0],
                Dot(Sub(r[1..], Scale(t, c[1..])), Sub(r[1..], Scale(t, c[1..]))),
                r[0], c[0], Dot(r[1..], r[1..]), Dot(c[1..], r[1..]), Dot(c[1..], c[1..]),
                Dot(r, r), Dot(c, r), Dot(c, c), t);
    }
  }

  lemma DotHead(a: seq<real>, b: seq<real>)
    requires |a| == |b| && a != []
    ensures Dot(a, b) == a[0] * b[0] + Dot(a[1..], b[1..])
  {
  }

  /** The first entry and the tail of r - t c. */
  lemma AlongTail(r: seq<real>, c: seq<real>, t: real)
    requires |r| == |c| && r != []
    ensures Sub(r, Scale(t, c))[0] == r[0] - t * c[0]
    ensures Sub(r, Scale(t, c))[1..] == Sub(r[1..], Scale(t, c[1..]))
  {
    var d, r', c' := Sub(r, Scale(t, c)), r[1..], c[1..];
    forall k | 0 <= k < |r'|
      ensures d[1..][k] == Sub(r', Scale(t, c'))[k]
    {
      assert d[1..][k] == d[k + 1] && r'[k] == r[k + 1] && c'[k] == c[k + 1];
    }
    assert d[1..] == Sub(r', Scale(t, c'));
  }

  lemma TailDot(r: seq<real>, c: seq<real>, t: real)
    requires |r| == |c| && r != []
    ensures Sub(r, Scale(t, c))[0] == r[0] - t * c[0]
    ensures Dot(Sub(r, Scale(t, c))[1..], Sub(r, Scale(t, c))[1..])
      == Dot(Sub(r[1..], Scale(t, c[1..])), Sub(r[1..], Scale(t, c[1..])))
  {
    AlongTail(r, c, t);
  }

  /** Dot(d, d) for d = r - t c, split into its first term and the rest. */
  lemma AlongSquare(r: seq<real>, c: seq<real>, t: real)
    requires |r| == |c| && r != []
    ensures Sub(r, Scale(t, c))[0] == r[0] - t * c[0]
    ensures Dot(Sub(r, Scale(t, c)), Sub(r, Scale(t, c)))
      == Sub(r, Scale(t, c))[0] * Sub(r, Scale(t, c))[0] + Dot(Sub(r[1..], Scale(t, c[1..])), Sub(r[1..], Scale(t, c[1..])))
  {
    DotHead(Sub(r, Scale(t, c)), Sub(r, Scale(t, c)));
    TailDot(r, c, t);
  }

  /** The algebra of one step of DotAlong, over plain reals. */
  lemma StepAlong(dd: real, d0: real, dd': real, r0: real, c0: real, rr': real, cr': real, cc': real,
                  rr: real, cr: real, cc: real, t: real)
    requires dd == d0 * d0 + dd' && d0 == r0 - t * c0
    requires dd' == Quadratic(rr', -2.0 * cr', cc', t)
    requires rr == r0 * r0 + rr' && cr == c0 * r0 + cr' && cc == c0 * c0 + cc'
    ensures dd == Quadratic(rr, -2.0 * cr, cc, t)
  {
    assert d0 * d0 == r0 * r0 - 2.0 * t * (c0 * r0) + t * t * (c0 * c0);
  }

  /** Entry i of the gradient is minus the dot product of parameter i's
      derivative column with the residual. */
  lemma GradientEntries(lpd: seq<seq<real>>, npd: seq<seq<real>>, r: seq<real>, i: nat)
    requires ColumnsOfLength(lpd, |r|) && ColumnsOfLength(npd, |r|) && i < |lpd| + |npd|
    ensures Gradient(lpd, npd, r)[i] == -Dot(Column(lpd, npd, i), r)
  {
    GradientAt(lpd, npd, r, i);
    DotNegated(Column(lpd, npd, i), r);
  }

  lemma GradientAt(lpd: seq<seq<real>>, npd: seq<seq<real>>, r: seq<real>, i: nat)
    requires ColumnsOfLength(lpd, |r|) && ColumnsOfLength(npd, |r|) && i < |lpd| + |npd|
    ensures |Column(lpd, npd, i)| == |r|
    ensures Gradient(lpd, npd, r)[i] == Dot(Negated(Column(lpd, npd, i)), r)
  {
    if i < |lpd| {
      GradientAtLinear(lpd, npd, r, i);
    } else {
      GradientAtNonlinear(lpd, npd, r, i);
    }
  }

  lemma GradientAtLinear(lpd: seq<seq<real>>, npd: seq<seq<real>>, r: seq<real>, j: nat)
    requires ColumnsOfLength(lpd, |r|) && ColumnsOfLength(npd, |r|) && j < |lpd|
    ensures Gradient(lpd, npd, r)[j] == Dot(Negated(lpd[j]), r)
  {
    assert Gradient(lpd, npd, r)[j] == TransposeTimes(NegatedColumns(lpd), r)[j];
  }

  lemma GradientAtNonlinear(lpd: seq<seq<real>>, npd: seq<seq<real>>, r: seq<real>, i: nat)
    requires ColumnsOfLength(lpd, |r|) && ColumnsOfLength(npd, |r|) && |lpd| <= i < |lpd| + |npd|
    ensures Gradient(lpd, npd, r)[i] == Dot(Negated(npd[i - |lpd|]), r)
  {
    GradientSecond(lpd, npd, r, i);
    NegatedEntry(npd, r, i - |lpd|);
  }

  lemma GradientSecond(lpd: seq<seq<real>>, npd: seq<seq<real>>, r: seq<real>, i: nat)
    requires ColumnsOfLength(lpd, |r|) && ColumnsOfLength(npd, |r|) && |lpd| <= i < |lpd| + |npd|
    ensures Gradient(lpd, npd, r)[i] == TransposeTimes(NegatedColumns(npd), r)[i - |lpd|]
  {
    ConcatSecond(TransposeTimes(NegatedColumns(lpd), r), TransposeTimes(NegatedColumns(npd), r), i);
  }

  lemma NegatedEntry(cols: seq<seq<real>>, r: seq<real>, j: nat)
    requires ColumnsOfLength(cols, |r|) && j < |cols|
    ensures TransposeTimes(NegatedColumns(cols), r)[j] == Dot(Negated(cols[j]), r)
  {
  }

  lemma ConcatSecond(a: seq<real>, b: seq<real>, i: nat)
    requires |a| <= i < |a| + |b|
    ensures (a + b)[i] == b[i - |a|]
  {
  }

  /** The gradient is the slope of the objective: when the weighted model
      image moves by t along the derivative column of parameter i, the
      objective is a quadratic in t whose constant term is the objective at
      t = 0 and whose linear coefficient is gradient entry i. */
  lemma GradientIsSlope(measured: seq<real>, modeled: seq<real>, lpd: seq<seq<real>>, npd: seq<seq<real>>, i: nat, t: real)
    requires |measured| == |modeled|
    requires ColumnsOfLength(lpd, |modeled|) && ColumnsOfLength(npd, |modeled|) && i < |lpd| + |npd|
    ensures Objective(Sub(measured, Step(modeled, Column(lpd, npd, i), t)))
      == Quadratic(Objective(Sub(measured, modeled)), Gradient(lpd, npd, Sub(measured, modeled))[i],
                   0.5 * Dot(Column(lpd, npd, i), Column(lpd, npd, i)), t)
  {
    GradientEntries(lpd, npd, Sub(measured, modeled), i);
    ObjectiveAlong(measured, modeled, Column(lpd, npd, i), Gradient(lpd, npd, Sub(measured, modeled))[i],
                   0.5 * Dot(Column(lpd, npd, i), Column(lpd, npd, i)), t);
  }

  /** The objective after moving the model by t along c, as a quadratic in t
      with linear coefficient g = -c.r and quadratic coefficient q = c.c / 2. */
  lemma ObjectiveAlong(measured: seq<real>, modeled: seq<real>, c: seq<real>, g: real, q: real, t: real)
    requires |measured| == |modeled| == |c|
    requires g == -Dot(c, Sub(measured, modeled)) && q == 0.5 * Dot(c, c)
    ensures Objective(Sub(measured, Step(modeled, c, t))) == Quadratic(Objective(Sub(measured, modeled)), g, q, t)
  {
    MovedObjective(measured, modeled, c, t);
    DotAlong(Sub(measured, modeled), c, t);
    SlopeAlong(Objective(Sub(measured, Step(modeled, c, t))),
               Dot(Sub(Sub(measured, modeled), Scale(t, c)), Sub(Sub(measured, modeled), Scale(t, c))),
               Objective(Sub(measured, modeled)), Dot(Sub(measured, modeled), Sub(measured, modeled)),
               Dot(c, Sub(measured, modeled)), Dot(c, c), g, q, t);
  }

  /** Moving the model by t along c moves the residual by -t along c. */
  lemma MovedResidual(measured: seq<real>, modeled: seq<real>, c: seq<real>, t: real)
    requires |measured| == |modeled| == |c|
    ensures Sub(measured, Step(modeled, c, t)) == Sub(Sub(measured, modeled), Scale(t, c))
  {
    var lhs, rhs := Sub(measured, Step(modeled, c, t)), Sub(Sub(measured, modeled), Scale(t, c));
    forall k | 0 <= k < |lhs|
      ensures lhs[k] == rhs[k]
    {
    }
  }

  lemma MovedObjective(measured: seq<real>, modeled: seq<real>, c: seq<real>, t: real)
    requires |measured| == |modeled| == |c|
    ensures Objective(Sub(measured, Step(modeled, c, t)))
      == 0.5 * Dot(Sub(Sub(measured, modeled), Scale(t, c)), Sub(Sub(measured, modeled), Scale(t, c)))
  {
    MovedResidual(measured, modeled, c, t);
  }

  /** The algebra of GradientIsSlope, over plain reals. */
  lemma SlopeAlong(obj: real, dd: real, obj0: real, rr: real, cr: real, cc: real, g: real, q: real, t: real)
    requires obj == 0.5 * dd && obj0 == 0.5 * rr && g == -cr && q == 0.5 * cc
    requires dd == Quadratic(rr, -2.0 * cr, cc, t)
    ensures obj == Quadratic(obj0, g, q, t)
  {
  }

  // ---------------------------------------------------------------------
  // The parameter-change check

  /** What checkParams leaves in `dirty`. The `if` in each of its loops has
      no braces, so the `return` after it runs on the first iteration
      whatever the comparison gave: only the first parameter of the first
      non-empty segment is ever compared, and `dirty` is cleared only when
      both segments are empty. */
  function CheckOutcome(dirty: bool, params: seq<real>, lin: seq<real>, nonlin: seq<real>): bool
    requires |params| == |lin| + |nonlin|
  {
    if dirty then true
    else if |lin| > 0 then params[0] != lin[0]
    else if |nonlin| > 0 then params[0] != nonlin[0]
    else false
  }

  /** Once set, dirty stays set; a clean check flags a change only where the
      flat vector and the stored parameters really differ, and compares
      nothing but their first entries. */
  lemma CheckOutcomeFacts(dirty: bool, params: seq<real>, lin: seq<real>, nonlin: seq<real>)
    requires |params| == |lin| + |nonlin|
    ensures dirty ==> CheckOutcome(dirty, params, lin, nonlin)
    ensures !dirty ==> (CheckOutcome(dirty, params, lin, nonlin) <==> |params| > 0 && params[0] != (lin + nonlin)[0])
    ensures CheckOutcome(false, params, lin, nonlin) ==> params != lin + nonlin
  {
  }

  /** A change past the first parameter goes unnoticed by a clean check. */
  lemma CheckMissesLaterChange()
    ensures var lin, nonlin, params := [1.0, 2.0], [3.0], [1.0, 5.0, 3.0];
      params != lin + nonlin && !CheckOutcome(false, params, lin, nonlin)
  {
    var lin, nonlin, params := [1.0, 2.0], [3.0], [1.0, 5.0, 3.0];
    assert params[1] != (lin + nonlin)[1];
  }

  // ---------------------------------------------------------------------
  // The objective adapter

  class ChisqFunction {
    var dirty: bool
    const evaluator: ModelEvaluator
    /** The weighted data, captured when the function is built. */
    const measured: seq<real>

    /** The invariant. `dirty` starts set and checkParams returns at once
        while it is set, so nothing ever clears it: it is part of the
        invariant, and every evaluation pushes its parameters. */
    ghost predicate Valid()
      reads this, evaluator, evaluator.varianceVector
    {
      evaluator.Valid() && |measured| == evaluator.NPixels() && dirty
    }

    constructor (evaluator: ModelEvaluator)
      requires evaluator.Valid()
      ensures Valid()
      ensures this.evaluator == evaluator && measured == evaluator.WeightedData()
    {
      dirty := true;
      this.evaluator := evaluator;
      measured := evaluator.WeightedData();
    }

    /** checkParams: compares the flat vector with the evaluator's stored
        parameters, segment by segment, with the loops as written. */
    method CheckParams(params: seq<real>)
      requires evaluator.Valid() && |params| == evaluator.nLinear + evaluator.nNonlinear
      modifies this`dirty
      ensures dirty == CheckOutcome(old(dirty), params, evaluator.linearParameters, evaluator.nonlinearParameters)
    {
      if dirty {
        return;
      }
      var next := 0;
      var stored := evaluator.linearParameters;
      for i := 0 to evaluator.nLinear
        invariant i == 0
      {
        if params[next] != stored[i] {
          dirty := true;
        }
        return;
      }
      stored := evaluator.nonlinearParameters;
      for i := 0 to evaluator.nNonlinear
        invariant i == 0
      {
        if params[next] != stored[i] {
          dirty := true;
        }
        return;
      }
      dirty := false;
    }

    /** Pushes params into the evaluator when dirty: its first nLinear
        entries are the linear parameters, the rest the nonlinear ones. */
    method PushParameters(params: seq<real>)
      requires Valid() && |params| == evaluator.nLinear + evaluator.nNonlinear
      modifies this`dirty, evaluator`linearParameters, evaluator`nonlinearParameters, evaluator`validProducts
      ensures Valid() && evaluator.validProducts == 0
      ensures evaluator.linearParameters == params[..evaluator.nLinear]
      ensures evaluator.nonlinearParameters == params[evaluator.nLinear..]
    {
      CheckParams(params);
      if dirty {
        evaluator.SetLinearParameters(params[..evaluator.nLinear]);
        evaluator.SetNonlinearParameters(params[evaluator.nLinear..]);
      }
    }

    /** The prefix computeValue and computeGradient share: push params when
        dirty, recompute the model image and subtract it from the data. */
    method Residual(params: seq<real>) returns (residual: seq<real>)
      requires Valid() && |params| == evaluator.nLinear + evaluator.nNonlinear
      modifies this`dirty, evaluator`linearParameters, evaluator`nonlinearParameters, evaluator`validProducts
      modifies evaluator`modelImage, evaluator`calls, evaluator.modelImageBuffer
      ensures Valid() && evaluator.validProducts == Bit(ModelImage)
      ensures evaluator.linearParameters == params[..evaluator.nLinear]
      ensures evaluator.nonlinearParameters == params[evaluator.nLinear..]
      ensures residual == Sub(measured, evaluator.ExpectedModelImage())
      ensures evaluator.calls == old(evaluator.calls) + CallsOn(ModelImage, evaluator.projectionList)
    {
      PushParameters(params);
      var modeled := evaluator.ComputeModelImage();
      residual := Sub(measured, modeled);
    }

    /** computeValue: the objective at params, always from a freshly
        computed model image. */
    method ComputeValue(params: seq<real>) returns (value: real)
      requires Valid() && |params| == evaluator.nLinear + evaluator.nNonlinear
      modifies this`dirty, evaluator`linearParameters, evaluator`nonlinearParameters, evaluator`validProducts
      modifies evaluator`modelImage, evaluator`calls, evaluator.modelImageBuffer
      ensures Valid()
      ensures evaluator.linearParameters == params[..evaluator.nLinear]
      ensures evaluator.nonlinearParameters == params[evaluator.nLinear..]
      ensures value == Objective(Sub(measured, evaluator.ExpectedModelImage())) && value >= 0.0
      ensures evaluator.calls == old(evaluator.calls) + CallsOn(ModelImage, evaluator.projectionList)
    {
      var residual := Residual(params);
      value := 0.5 * Dot(residual, residual);
      ObjectiveNonNegative(residual);
    }

    /** computeGradient: the gradient at params, from a freshly computed
        model image and freshly computed derivatives. */
    method ComputeGradient(params: seq<real>) returns (gradient: seq<real>)
      requires Valid() && |params| == evaluator.nLinear + evaluator.nNonlinear
      modifies this`dirty, evaluator`linearParameters, evaluator`nonlinearParameters, evaluator`validProducts
      modifies evaluator`modelImage, evaluator`linearDerivative, evaluator`nonlinearDerivative, evaluator`calls
      modifies evaluator.modelImageBuffer, evaluator.linearDerivativeBuffer, evaluator.nonlinearDerivativeBuffer
      ensures Valid()
      ensures evaluator.linearParameters == params[..evaluator.nLinear]
      ensures evaluator.nonlinearParameters == params[evaluator.nLinear..]
      ensures |gradient| == |params|
      ensures gradient == Gradient(evaluator.ExpectedDerivative(LinearParameterDerivative),
                                   evaluator.ExpectedDerivative(NonlinearParameterDerivative),
                                   Sub(measured, evaluator.ExpectedModelImage()))
    {
      var residual := Residual(params);
      gradient := ResidualGradient(residual);
    }

    /** The derivative part of computeGradient: both derivative matrices at
        the pushed parameters, negated, transposed and applied to residual;
        the model image is left as it was. */
    method ResidualGradient(residual: seq<real>) returns (gradient: seq<real>)
      requires Valid() && |residual| == evaluator.NPixels()
      modifies evaluator`validProducts, evaluator`linearDerivative, evaluator`nonlinearDerivative, evaluator`calls
      modifies evaluator.linearDerivativeBuffer, evaluator.nonlinearDerivativeBuffer
      ensures Valid()
      ensures gradient == Gradient(evaluator.ExpectedDerivative(LinearParameterDerivative),
                                   evaluator.ExpectedDerivative(NonlinearParameterDerivative), residual)
      ensures evaluator.ExpectedModelImage() == old(evaluator.ExpectedModelImage())
    {
      var lpd := evaluator.ComputeLinearParameterDerivative();
      var npd := evaluator.ComputeNonlinearParameterDerivative();
      gradient := Gradient(lpd, npd, residual);
    }
  }

  // ---------------------------------------------------------------------
  // Fitter setup

  /** The part of MinuitAnalyticFitter::apply and MinuitNumericFitter::apply
      that precedes the minimiser: the error vector must have one entry per
      parameter, otherwise the fit fails with InvalidParameterException; the
      starting point is the linear parameters followed by the nonlinear ones. */
  function InitialParameters(lin: seq<real>, nonlin: seq<real>, initialErrors: seq<real>): (r: Result<seq<real>>)
    ensures r.Failure? <==> |lin| + |nonlin| != |initialErrors|
    ensures r.Success? ==> |r.value| == |initialErrors|
    ensures r.Success? ==> r.value[..|lin|] == lin && r.value[|lin|..] == nonlin
  {
    if |lin| + |nonlin| != |initialErrors| then
      Failure("Number of model parameters not equal to length of error vector")
    else
      Success(lin + nonlin)
  }
}
