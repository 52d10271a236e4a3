/** Model of `_combine` in rBCM/weighting/differential_entropy.py: the robust
    Bayesian Committee Machine rule of Deisenroth & Ng, "Distributed Gaussian
    Processes" (ICML 2015), equations 21 and 22, over real numbers.

    Arrays are nested sequences indexed the way the source indexes them:
    predictions[loc][feat][expert], variances[loc][expert], beta[loc][expert]. */
module Combination {

  /* ---------------------------------------------------------------------- */
  /* Sums and the closed forms of equations 21 and 22                        */
  /* ---------------------------------------------------------------------- */

  /** Left-to-right sum, in the order the source's loops accumulate. */
  function Sum(xs: seq<real>): real
  {
    if |xs| == 0 then 0.0 else Sum(xs[..|xs| - 1]) + xs[|xs| - 1]
  }

  lemma {:induction false} SumAppend(xs: seq<real>, ys: seq<real>)
    ensures Sum(xs + ys) == Sum(xs) + Sum(ys)
    decreases |ys|
  {
    if |ys| == 0 {
      assert xs + ys == xs;
    } else {
      var init := ys[..|ys| - 1];
      assert (xs + ys)[..|xs + ys| - 1] == xs + init;
      SumAppend(xs, init);
    }
  }

  /** A sum of zeros is zero. */
  lemma {:induction false} SumOfZeros(xs: seq<real>)
    requires forall e :: 0 <= e < |xs| ==> xs[e] == 0.0
    ensures Sum(xs) == 0.0
    decreases |xs|
  {
    if |xs| > 0 {
      SumOfZeros(xs[..|xs| - 1]);
    }
  }

  /** `xs` without its entry at position e. */
  function RemoveAt<T>(xs: seq<T>, e: nat): (r: seq<T>)
    requires e < |xs|
    ensures |r| == |xs| - 1
    ensures forall i :: 0 <= i < |r| ==> r[i] == if i < e then xs[i] else xs[i + 1]
  {
    xs[..e] + xs[e + 1..]
  }

  /** Dropping a zero term leaves a sum unchanged. */
  lemma DropZeroTerm(xs: seq<real>, e: nat)
    requires e < |xs| && xs[e] == 0.0
    ensures Sum(RemoveAt(xs, e)) == Sum(xs)
  {
    assert xs == xs[..e] + [xs[e]] + xs[e + 1..];
    SumAppend(xs[..e] + [xs[e]], xs[e + 1..]);
    SumAppend(xs[..e], [xs[e]]);
    SumAppend(xs[..e], xs[e + 1..]);
    assert Sum([xs[e]]) == Sum([]) + xs[e];
  }

  /** Every entry of a row is nonzero, so its reciprocal exists. */
  predicate NonZeroRow(v: seq<real>)
  {
    forall e :: 0 <= e < |v| ==> v[e] != 0.0
  }

  /** The terms beta_e * (1 / var_e) of the precision sum of equation 22. */
  function PrecisionTerms(beta: seq<real>, v: seq<real>): (t: seq<real>)
    requires |beta| == |v| && NonZeroRow(v)
    ensures |t| == |beta|
  {
    seq(|beta|, e requires 0 <= e < |beta| => beta[e] * (1.0 / v[e]))
  }

  /** Equation 22 at one location: the fused precision
      sum_e beta_e / var_e + (1 / prior_var) * (1 - sum_e beta_e). */
  function Precision(beta: seq<real>, v: seq<real>, priorVar: real): real
    requires |beta| == |v| && NonZeroRow(v)
    requires priorVar != 0.0
  {
    Sum(PrecisionTerms(beta, v)) + PriorShare(beta, priorVar)
  }

  /** The prior's precision times the weight mass 1 - sum_e beta_e that the
      experts leave over. */
  function PriorShare(beta: seq<real>, priorVar: real): real
    requires priorVar != 0.0
  {
    (1.0 / priorVar) * (1.0 - Sum(beta))
  }

  /** The terms beta_e * (1 / var_e) * mean_e of the sum in equation 21. */
  function MeanTerms(beta: seq<real>, v: seq<real>, pred: seq<real>): (t: seq<real>)
    requires |beta| == |v| == |pred| && NonZeroRow(v)
    ensures |t| == |beta|
  {
    seq(|beta|, e requires 0 <= e < |beta| => beta[e] * (1.0 / v[e]) * pred[e])
  }

  /** The sum in equation 21: the experts' means weighted by beta / var. */
  function WeightedMeanSum(beta: seq<real>, v: seq<real>, pred: seq<real>): real
    requires |beta| == |v| == |pred| && NonZeroRow(v)
  {
    Sum(MeanTerms(beta, v, pred))
  }

  /* ---------------------------------------------------------------------- */
  /* Array shapes                                                            */
  /* ---------------------------------------------------------------------- */

  /** The shapes `_combine` expects: predictions is (locations, features,
      experts), variances and beta are (locations, experts), and the three
      agree on the location and expert axes. */
  predicate Conformant(predictions: seq<seq<seq<real>>>, v: seq<seq<real>>, beta: seq<seq<real>>)
  {
    && |predictions| == |v| == |beta|
    && forall loc :: 0 <= loc < |v| ==>
         && |beta[loc]| == |v[loc]|
         && forall feat :: 0 <= feat < |predictions[loc]| ==> |predictions[loc][feat]| == |v[loc]|
  }

  predicate NonZeroEntries(v: seq<seq<real>>)
  {
    forall loc :: 0 <= loc < |v| ==> NonZeroRow(v[loc])
  }

  /** `1 / var` on a matrix: every entry times the variance at its position
      is 1. */
  function Reciprocals(v: seq<seq<real>>): (r: seq<seq<real>>)
    requires NonZeroEntries(v)
    ensures |r| == |v|
    ensures forall loc :: 0 <= loc < |v| ==> |r[loc]| == |v[loc]|
    ensures forall loc, e :: 0 <= loc < |v| && 0 <= e < |v[loc]| ==> r[loc][e] * v[loc][e] == 1.0
  {
    seq(|v|, loc requires 0 <= loc < |v| =>
      seq(|v[loc]|, e requires 0 <= e < |v[loc]| => 1.0 / v[loc][e]))
  }

  /** `np.dot` of two vectors. */
  function Dot(a: seq<real>, b: seq<real>): real
    requires |a| == |b|
  {
    Sum(seq(|a|, e requires 0 <= e < |a| => a[e] * b[e]))
  }

  /** A number whose product with v is 1 is the quotient 1 / v. */
  lemma InverseIsQuotient(x: real, v: real)
    requires x * v == 1.0
    ensures v != 0.0 && x == 1.0 / v
  {
    assert v != 0.0;
    assert x == x * v / v;
  }

  /** Reciprocals of a row, given by their defining product, are the
      quotients 1 / var. */
  lemma RowInverses(v: seq<real>, invVar: seq<real>)
    requires |v| == |invVar|
    requires forall e :: 0 <= e < |v| ==> invVar[e] * v[e] == 1.0
    ensures NonZeroRow(v)
    ensures forall e :: 0 <= e < |v| ==> invVar[e] == 1.0 / v[e]
  {
    forall e | 0 <= e < |v|
      ensures v[e] != 0.0 && invVar[e] == 1.0 / v[e]
    {
      InverseIsQuotient(invVar[e], v[e]);
    }
  }

  /** np.dot against the reciprocals is the precision sum of equation 22. */
  lemma DotReciprocals(beta: seq<real>, v: seq<real>, invVar: seq<real>)
    requires |beta| == |v| == |invVar| && NonZeroRow(v)
    requires forall e :: 0 <= e < |v| ==> invVar[e] * v[e] == 1.0
    ensures Dot(beta, invVar) == Sum(PrecisionTerms(beta, v))
  {
    RowInverses(v, invVar);
    var products := seq(|beta|, e requires 0 <= e < |beta| => beta[e] * invVar[e]);
    assert forall e :: 0 <= e < |beta| ==> products[e] == PrecisionTerms(beta, v)[e];
    assert products == PrecisionTerms(beta, v);
  }

  /** `c * row` for a scalar c. */
  function Scale(c: real, row: seq<real>): (r: seq<real>)
    ensures |r| == |row|
  {
    seq(|row|, i requires 0 <= i < |row| => c * row[i])
  }

  /* ---------------------------------------------------------------------- */
  /* _combine                                                                */
  /* ---------------------------------------------------------------------- */

  /** The first loop of `_combine` (equation 22): left_term is `np.dot` of
      the weights with the reciprocal variances, right_term the prior's
      precision times the weight mass the experts leave over; their sum is
      the precision of equation 22 at every location. */
  method FusedPrecisions(v: seq<seq<real>>, beta: seq<seq<real>>, priorVar: real) returns (rbcmInvVar: seq<real>)
    requires |beta| == |v|
    requires forall loc :: 0 <= loc < |v| ==> |beta[loc]| == |v[loc]|
    requires NonZeroEntries(v)
    requires priorVar != 0.0
    ensures |rbcmInvVar| == |v|
    ensures forall loc :: 0 <= loc < |v| ==> rbcmInvVar[loc] == Precision(beta[loc], v[loc], priorVar)
  {
    var invVar := Reciprocals(v);
    var invPriorVar := 1.0 / priorVar;
    var numLocations := |v|;
    var leftTerm: seq<real> := [];
    var rightTerm: seq<real> := [];
    for loc := 0 to numLocations
      invariant |leftTerm| == |rightTerm| == loc
      invariant forall l :: 0 <= l < loc ==> leftTerm[l] == Sum(PrecisionTerms(beta[l], v[l]))
      invariant forall l :: 0 <= l < loc ==> rightTerm[l] == PriorShare(beta[l], priorVar)
    {
      DotReciprocals(beta[loc], v[loc], invVar[loc]);
      leftTerm := leftTerm + [Dot(beta[loc], invVar[loc])];
      rightTerm := rightTerm + [invPriorVar * (1.0 - Sum(beta[loc]))];
    }
    rbcmInvVar := seq(numLocations, loc requires 0 <= loc < numLocations => leftTerm[loc] + rightTerm[loc]);
  }

  /** The innermost loop of `_combine`: accumulating
      beta * inv_var * prediction over the experts yields the sum of
      equation 21 for one location and one output feature. */
  method ExpertSum(beta: seq<real>, v: seq<real>, invVar: seq<real>, pred: seq<real>) returns (summation: real)
    requires |beta| == |v| == |invVar| == |pred| && NonZeroRow(v)
    requires forall e :: 0 <= e < |v| ==> invVar[e] * v[e] == 1.0
    ensures summation == WeightedMeanSum(beta, v, pred)
  {
    RowInverses(v, invVar);
    ghost var terms := MeanTerms(beta, v, pred);
    summation := 0.0;
    for exp := 0 to |pred|
      invariant summation == Sum(terms[..exp])
    {
      assert terms[..exp + 1][..exp] == terms[..exp];
      summation := summation + beta[exp] * invVar[exp] * pred[exp];
    }
    assert terms[..|pred|] == terms;
  }

  /** The triple loop of `_combine`, before the rows are scaled: entry
      [loc][feat] is the equation 21 sum for that location and feature. */
  method WeightedSums(predictions: seq<seq<seq<real>>>, v: seq<seq<real>>, beta: seq<seq<real>>)
    returns (sums: seq<seq<real>>)
    requires Conformant(predictions, v, beta)
    requires NonZeroEntries(v)
    ensures |sums| == |predictions|
    ensures forall loc :: 0 <= loc < |v| ==> |sums[loc]| == |predictions[loc]|
    ensures forall loc, feat :: 0 <= loc < |v| && 0 <= feat < |predictions[loc]| ==>
      sums[loc][feat] == WeightedMeanSum(beta[loc], v[loc], predictions[loc][feat])
  {
    var invVar := Reciprocals(v);
    var numLocations := |predictions|;
    sums := [];
    for loc := 0 to numLocations
      invariant |sums| == loc
      invariant forall l :: 0 <= l < loc ==> |sums[l]| == |predictions[l]|
      invariant forall l, f :: 0 <= l < loc && 0 <= f < |predictions[l]| ==>
        sums[l][f] == WeightedMeanSum(beta[l], v[l], predictions[l][f])
    {
      var numFeatures := |predictions[loc]|;
      var row: seq<real> := [];
      for feat := 0 to numFeatures
        invariant |row| == feat
        invariant forall f :: 0 <= f < feat ==> row[f] == WeightedMeanSum(beta[loc], v[loc], predictions[loc][f])
      {
        var summation := ExpertSum(beta[loc], v[loc], invVar[loc], predictions[loc][feat]);
        row := row + [summation];
      }
      sums := sums + [row];
    }
  }

  /** The results equations 21 and 22 give on well-shaped inputs: at every
      location the fused variance times the equation 22 precision is 1, and
      the fused mean of each output feature is the fused variance times the
      equation 21 weighted sum of that feature's expert predictions. */
  predicate CombinedResults(predictions: seq<seq<seq<real>>>, v: seq<seq<real>>, beta: seq<seq<real>>, priorVar: real,
                            preds: seq<seq<real>>, rbcmVar: seq<real>)
  {
    && Conformant(predictions, v, beta)
    && NonZeroEntries(v)
    && priorVar != 0.0
    && |preds| == |rbcmVar| == |predictions|
    && (forall loc :: 0 <= loc < |v| ==> rbcmVar[loc] * Precision(beta[loc], v[loc], priorVar) == 1.0)
    && (forall loc :: 0 <= loc < |v| ==> |preds[loc]| == |predictions[loc]|)
    && (forall loc, feat :: 0 <= loc < |v| && 0 <= feat < |predictions[loc]| ==>
          preds[loc][feat] == rbcmVar[loc] * WeightedMeanSum(beta[loc], v[loc], predictions[loc][feat]))
  }

  /** `_combine`. The fused variance at each location is the reciprocal of
      the equation 22 precision, and each fused mean is that variance times
      the equation 21 weighted sum; everything at location `loc` is computed
      from row `loc` of the inputs and the prior alone. The source does not
      guard the division by the precision, so a nonzero precision is required. */
  method Combine(predictions: seq<seq<seq<real>>>, v: seq<seq<real>>, beta: seq<seq<real>>, priorVar: real)
    returns (preds: seq<seq<real>>, rbcmVar: seq<real>)
    requires Conformant(predictions, v, beta)
    requires NonZeroEntries(v)
    requires priorVar != 0.0
    requires forall loc :: 0 <= loc < |v| ==> Precision(beta[loc], v[loc], priorVar) != 0.0
    ensures CombinedResults(predictions, v, beta, priorVar, preds, rbcmVar)
  {
    var numLocations := |predictions|;
    var rbcmInvVar := FusedPrecisions(v, beta, priorVar);
    rbcmVar := Inverses(rbcmInvVar);
    var sums := WeightedSums(predictions, v, beta);
    preds := ScaleRows(rbcmVar, sums);
  }

  /** `1 / rbcm_inv_var`: each entry times its inverse is 1. */
  function Inverses(p: seq<real>): (r: seq<real>)
    requires forall i :: 0 <= i < |p| ==> p[i] != 0.0
    ensures |r| == |p|
    ensures forall i :: 0 <= i < |p| ==> r[i] * p[i] == 1.0
  {
    seq(|p|, i requires 0 <= i < |p| => 1.0 / p[i])
  }

  /** The last loop of `_combine`: row `loc` of the sums is multiplied by
      the fused variance at `loc`. */
  method ScaleRows(factors: seq<real>, rows: seq<seq<real>>) returns (scaled: seq<seq<real>>)
    requires |factors| == |rows|
    ensures |scaled| == |rows|
    ensures forall loc :: 0 <= loc < |rows| ==> |scaled[loc]| == |rows[loc]|
    ensures forall loc, i :: 0 <= loc < |rows| && 0 <= i < |rows[loc]| ==> scaled[loc][i] == factors[loc] * rows[loc][i]
  {
    scaled := rows;
    for loc := 0 to |rows|
      invariant |scaled| == |rows|
      invariant forall l :: loc <= l < |rows| ==> scaled[l] == rows[l]
      invariant forall l :: 0 <= l < loc ==> scaled[l] == Scale(factors[l], rows[l])
    {
      scaled := scaled[loc := Scale(factors[loc], scaled[loc])];
    }
  }

  /* ---------------------------------------------------------------------- */
  /* Properties of the rule                                                  */
  /* ---------------------------------------------------------------------- */

  /** With every weight zero the experts drop out: the precision is the
      prior's, so the fused variance is exactly the prior variance, and the
      weighted sum is zero, so the fused mean is 0 whatever the experts said. */
  lemma ZeroWeightsGivePrior(beta: seq<real>, v: seq<real>, priorVar: real, pred: seq<real>)
    requires |beta| == |v| == |pred| && NonZeroRow(v)
    requires priorVar != 0.0
    requires forall e :: 0 <= e < |beta| ==> beta[e] == 0.0
    ensures Precision(beta, v, priorVar) == 1.0 / priorVar
    ensures 1.0 / Precision(beta, v, priorVar) == priorVar
    ensures WeightedMeanSum(beta, v, pred) == 0.0
  {
    SumOfZeros(beta);
    SumOfZeros(PrecisionTerms(beta, v));
    SumOfZeros(MeanTerms(beta, v, pred));
  }

  /** An expert whose weight is zero has no influence: removing it from the
      committee leaves the precision and the weighted mean sum unchanged. */
  lemma ZeroWeightExpertIgnored(beta: seq<real>, v: seq<real>, priorVar: real, pred: seq<real>, e: nat)
    requires |beta| == |v| == |pred| && NonZeroRow(v)
    requires priorVar != 0.0
    requires e < |beta| && beta[e] == 0.0
    ensures NonZeroRow(RemoveAt(v, e))
    ensures Precision(RemoveAt(beta, e), RemoveAt(v, e), priorVar) == Precision(beta, v, priorVar)
    ensures WeightedMeanSum(RemoveAt(beta, e), RemoveAt(v, e), RemoveAt(pred, e)) == WeightedMeanSum(beta, v, pred)
  {
    DropExpertPrecisionTerms(beta, v, e);
    assert Precision(RemoveAt(beta, e), RemoveAt(v, e), priorVar) == Precision(beta, v, priorVar) by {
      DropZeroTerm(beta, e);
    }
    assert WeightedMeanSum(RemoveAt(beta, e), RemoveAt(v, e), RemoveAt(pred, e)) == WeightedMeanSum(beta, v, pred) by {
      DropExpertMeanTerms(beta, v, pred, e);
    }
  }

  lemma DropExpertPrecisionTerms(beta: seq<real>, v: seq<real>, e: nat)
    requires |beta| == |v| && NonZeroRow(v)
    requires e < |beta| && beta[e] == 0.0
    ensures NonZeroRow(RemoveAt(v, e))
    ensures Sum(PrecisionTerms(RemoveAt(beta, e), RemoveAt(v, e))) == Sum(PrecisionTerms(beta, v))
  {
    var b', v' := RemoveAt(beta, e), RemoveAt(v, e);
    assert NonZeroRow(v');
    var pt := PrecisionTerms(beta, v);
    var lhs, rhs := PrecisionTerms(b', v'), RemoveAt(pt, e);
    forall i | 0 <= i < |lhs|
      ensures lhs[i] == rhs[i]
    {
      var j := if i < e then i else i + 1;
      assert b'[i] == beta[j] && v'[i] == v[j];
      assert lhs[i] == beta[j] * (1.0 / v[j]) == pt[j];
    }
    assert lhs == rhs;
    DropZeroTerm(pt, e);
  }

  lemma DropExpertMeanTerms(beta: seq<real>, v: seq<real>, pred: seq<real>, e: nat)
    requires |beta| == |v| == |pred| && NonZeroRow(v)
    requires e < |beta| && beta[e] == 0.0
    ensures NonZeroRow(RemoveAt(v, e))
    ensures Sum(MeanTerms(RemoveAt(beta, e), RemoveAt(v, e), RemoveAt(pred, e))) == Sum(MeanTerms(beta, v, pred))
  {
    var b', v', p' := RemoveAt(beta, e), RemoveAt(v, e), RemoveAt(pred, e);
    assert NonZeroRow(v');
    var mt := MeanTerms(beta, v, pred);
    var lhs, rhs := MeanTerms(b', v', p'), RemoveAt(mt, e);
    forall i | 0 <= i < |lhs|
      ensures lhs[i] == rhs[i]
    {
      var j := if i < e then i else i + 1;
      assert b'[i] == beta[j] && v'[i] == v[j] && p'[i] == pred[j];
      assert lhs[i] == beta[j] * (1.0 / v[j]) * pred[j] == mt[j];
    }
    assert lhs == rhs;
    DropZeroTerm(mt, e);
  }

  /** A lone expert trusted with weight 1 is returned unchanged: the fused
      precision is its own, and its mean passes through the rule intact. */
  lemma SingleFullWeightExpert(s: real, priorVar: real, mean: real)
    requires s != 0.0 && priorVar != 0.0
    ensures Precision([1.0], [s], priorVar) == 1.0 / s
    ensures (1.0 / Precision([1.0], [s], priorVar)) * WeightedMeanSum([1.0], [s], [mean]) == mean
  {
    assert Sum([1.0]) == 1.0 by { assert [1.0][..0] == []; }
    assert PrecisionTerms([1.0], [s]) == [1.0 / s];
    assert Sum([1.0 / s]) == 1.0 / s by { assert [1.0 / s][..0] == []; }
    assert MeanTerms([1.0], [s], [mean])[0] == 1.0 / s * mean;
    assert MeanTerms([1.0], [s], [mean]) == [1.0 / s * mean];
    assert Sum([1.0 / s * mean]) == 1.0 / s * mean by { assert [1.0 / s * mean][..0] == []; }
  }
}
