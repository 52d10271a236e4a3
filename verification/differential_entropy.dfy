/** Model of `differential_entropy_weighting` in
    rBCM/weighting/differential_entropy.py: the experts' standard deviations
    are floored away from zero, squared into variances, turned into
    differential-entropy weights against the prior, and handed to `_combine`.

    The natural logarithm is a parameter `ln`; nothing is assumed about it
    except where a lemma states a hypothesis explicitly. */
module DifferentialEntropy {
  import opened Combination

  /** What a zero standard deviation is replaced with (1E-9 in the source). */
  const ZeroSigmaFloor: real := 0.000000001

  function FloorZero(s: real): real
  {
    if s == 0.0 then ZeroSigmaFloor else s
  }

  predicate SameShape(a: seq<seq<real>>, b: seq<seq<real>>)
  {
    |a| == |b| && forall loc :: 0 <= loc < |a| ==> |a[loc]| == |b[loc]|
  }

  /** `sigma[sigma == 0] = 1E-9`, as a value: zeros become the floor, every
      other entry is kept, and no entry is zero afterwards. */
  function FloorZeros(sigma: seq<seq<real>>): (r: seq<seq<real>>)
    ensures SameShape(r, sigma)
    ensures NonZeroEntries(r)
    ensures forall loc, e :: 0 <= loc < |sigma| && 0 <= e < |sigma[loc]| ==>
      (sigma[loc][e] == 0.0 ==> r[loc][e] == ZeroSigmaFloor) &&
      (sigma[loc][e] != 0.0 ==> r[loc][e] == sigma[loc][e])
  {
    seq(|sigma|, loc requires 0 <= loc < |sigma| =>
      seq(|sigma[loc]|, e requires 0 <= e < |sigma[loc]| => FloorZero(sigma[loc][e])))
  }

  /** The rows of a two-dimensional array, as the nested sequence the rest
      of the model works on. */
  function Contents(a: array2<real>): (rows: seq<seq<real>>)
    reads a
    ensures |rows| == a.Length0
    ensures forall loc :: 0 <= loc < a.Length0 ==> |rows[loc]| == a.Length1
    ensures forall loc, e :: 0 <= loc < a.Length0 && 0 <= e < a.Length1 ==> rows[loc][e] == a[loc, e]
  {
    seq(a.Length0, loc reads a requires 0 <= loc < a.Length0 =>
      seq(a.Length1, e reads a requires 0 <= e < a.Length1 => a[loc, e]))
  }

  /** The source floors the caller's own array: after the call every entry
      that was zero holds the floor and every other entry is unchanged, so
      the array holds exactly what FloorZeros computes from its old contents. */
  method FloorZerosInPlace(sigma: array2<real>)
    modifies sigma
    ensures forall loc, e :: 0 <= loc < sigma.Length0 && 0 <= e < sigma.Length1 ==>
      sigma[loc, e] == FloorZero(old(sigma[loc, e]))
    ensures Contents(sigma) == FloorZeros(old(Contents(sigma)))
  {
    ghost var before := Contents(sigma);
    forall loc, e | 0 <= loc < sigma.Length0 && 0 <= e < sigma.Length1 {
      sigma[loc, e] := FloorZero(sigma[loc, e]);
    }
    ghost var after := Contents(sigma);
    ghost var floored := FloorZeros(before);
    forall loc | 0 <= loc < sigma.Length0
      ensures after[loc] == floored[loc]
    {
      assert forall e :: 0 <= e < sigma.Length1 ==> after[loc][e] == floored[loc][e];
    }
  }

  /** Flooring twice is flooring once, so a second weighting call on the
      array the first call floored in place sees the same variances. */
  lemma FloorZerosIdempotent(sigma: seq<seq<real>>)
    ensures FloorZeros(FloorZeros(sigma)) == FloorZeros(sigma)
  {
    var once := FloorZeros(sigma);
    var twice := FloorZeros(once);
    forall loc | 0 <= loc < |sigma|
      ensures twice[loc] == once[loc]
    {
      assert forall e :: 0 <= e < |once[loc]| ==> twice[loc][e] == once[loc][e];
    }
  }

  /** A variance from a standard deviation. */
  function Square(s: real): (v: real)
    ensures s != 0.0 ==> v != 0.0
  {
    SquareOverSelf(s); s * s
  }

  /** Dividing a square by its root gives the root back, which is what
      shows the square of a nonzero number is nonzero. */
  lemma SquareOverSelf(s: real)
    ensures s != 0.0 ==> (s * s) / s == s
  {
  }

  /** A variance is never negative, and it is zero only for a zero standard
      deviation. */
  lemma SquareSign(s: real)
    ensures Square(s) >= 0.0
    ensures Square(s) == 0.0 <==> s == 0.0
  {
    if s != 0.0 {
      assert Square(s) / s == s;
    }
  }

  lemma SquaresSign()
    ensures forall s :: Square(s) >= 0.0 && (Square(s) == 0.0 <==> s == 0.0)
  {
    forall s
      ensures Square(s) >= 0.0 && (Square(s) == 0.0 <==> s == 0.0)
    {
      SquareSign(s);
    }
  }

  /** `np.power(sigma, 2)`: squares are never negative, and an entry is
      zero only where the standard deviation was zero. */
  function Variances(sigma: seq<seq<real>>): (v: seq<seq<real>>)
    ensures SameShape(v, sigma)
    ensures forall loc, e :: 0 <= loc < |sigma| && 0 <= e < |sigma[loc]| ==>
      v[loc][e] >= 0.0 && (v[loc][e] == 0.0 <==> sigma[loc][e] == 0.0)
  {
    SquaresSign();
    seq(|sigma|, loc requires 0 <= loc < |sigma| =>
      seq(|sigma[loc]|, e requires 0 <= e < |sigma[loc]| => Square(sigma[loc][e])))
  }

  /** The variances `_combine` and `np.log` receive: every one of them is
      strictly positive. */
  function FlooredVariances(sigma: seq<seq<real>>): (v: seq<seq<real>>)
    ensures SameShape(v, sigma)
    ensures forall loc, e :: 0 <= loc < |sigma| && 0 <= e < |sigma[loc]| ==> v[loc][e] > 0.0
  {
    Variances(FloorZeros(sigma))
  }

  /** The differential-entropy weights beta = 0.5 * (log prior_var - log var).
      One prior term serves every location, so equal variances get equal
      weights wherever they occur, and a variance equal to the prior's gets
      weight zero. */
  function Beta(v: seq<seq<real>>, priorVar: real, ln: real -> real): (beta: seq<seq<real>>)
    ensures SameShape(beta, v)
    ensures forall loc, e :: 0 <= loc < |v| && 0 <= e < |v[loc]| && v[loc][e] == priorVar ==> beta[loc][e] == 0.0
  {
    var logPriorVar := ln(priorVar);
    seq(|v|, loc requires 0 <= loc < |v| =>
      seq(|v[loc]|, e requires 0 <= e < |v[loc]| => 0.5 * (logPriorVar - ln(v[loc][e]))))
  }

  /** One prior term serves every location: equal variances get equal
      weights wherever they occur. */
  lemma BetaDependsOnlyOnVariance(v: seq<seq<real>>, priorVar: real, ln: real -> real, l1: nat, e1: nat, l2: nat, e2: nat)
    requires l1 < |v| && e1 < |v[l1]| && l2 < |v| && e2 < |v[l2]|
    requires v[l1][e1] == v[l2][e2]
    ensures Beta(v, priorVar, ln)[l1][e1] == Beta(v, priorVar, ln)[l2][e2]
  {
  }

  /** `ln` is strictly increasing on the positive reals, as the logarithm is. */
  ghost predicate StrictlyIncreasingOnPositives(ln: real -> real)
  {
    forall x, y :: 0.0 < x < y ==> ln(x) < ln(y)
  }

  /** For a strictly increasing logarithm, an expert gets a positive weight
      exactly when it is more confident than the prior (smaller variance),
      and a negative weight exactly when it is less confident. */
  lemma BetaSignFollowsConfidence(v: seq<seq<real>>, priorVar: real, ln: real -> real, loc: nat, e: nat)
    requires StrictlyIncreasingOnPositives(ln)
    requires priorVar > 0.0
    requires loc < |v| && e < |v[loc]| && v[loc][e] > 0.0
    ensures Beta(v, priorVar, ln)[loc][e] > 0.0 <==> v[loc][e] < priorVar
    ensures Beta(v, priorVar, ln)[loc][e] < 0.0 <==> v[loc][e] > priorVar
  {
    var x := v[loc][e];
    assert Beta(v, priorVar, ln)[loc][e] == 0.5 * (ln(priorVar) - ln(x));
    if x < priorVar {
      assert ln(x) < ln(priorVar);
    } else if x > priorVar {
      assert ln(priorVar) < ln(x);
    }
  }

  /** The weights of the call: beta from the floored variances. */
  function Weights(sigma: seq<seq<real>>, priorStd: real, ln: real -> real): seq<seq<real>>
  {
    Beta(FlooredVariances(sigma), Square(priorStd), ln)
  }

  /** `differential_entropy_weighting` on the values the caller passes; the
      effect of the call on the caller's sigma array is FloorZerosInPlace.
      The results are those of equations 21 and 22 for the weights derived
      from the floored variances; where every expert's variance equals the
      prior variance, the fused variance is the prior variance and the fused
      mean is 0 for every feature, whatever the experts predicted.
      `Conformant(predictions, sigma, sigma)` says sigma is indexed by
      (location, expert) like the predictions' first and last axes. */
  method DifferentialEntropyWeighting(predictions: seq<seq<seq<real>>>, sigma: seq<seq<real>>, priorStd: real, ln: real -> real)
    returns (preds: seq<seq<real>>, rbcmVar: seq<real>)
    requires Conformant(predictions, sigma, sigma)
    requires priorStd != 0.0
    requires forall loc :: 0 <= loc < |sigma| ==>
      Precision(Weights(sigma, priorStd, ln)[loc], FlooredVariances(sigma)[loc], Square(priorStd)) != 0.0
    ensures CombinedResults(predictions, FlooredVariances(sigma), Weights(sigma, priorStd, ln), Square(priorStd), preds, rbcmVar)
    ensures forall loc :: 0 <= loc < |sigma| && AllAtPrior(sigma[loc], priorStd) ==>
      CollapsedToPrior(preds[loc], rbcmVar[loc], Square(priorStd))
  {
    var v := FlooredVariances(sigma);
    var priorVar := Square(priorStd);
    var beta := Weights(sigma, priorStd, ln);
    WeightsConform(predictions, sigma, priorStd, ln);
    preds, rbcmVar := Combine(predictions, v, beta, priorVar);
    CollapsesWhereAllAtPrior(predictions, sigma, priorStd, ln, preds, rbcmVar);
  }

  /** `differential_entropy_weighting` on the caller's own sigma array: the
      zeros of the array are overwritten with the floor, and the results are
      computed from the overwritten array. Flooring again changes nothing, so
      they are the results the value version gives on the array's old
      contents. */
  method DifferentialEntropyWeightingInPlace(predictions: seq<seq<seq<real>>>, sigma: array2<real>, priorStd: real, ln: real -> real)
    returns (preds: seq<seq<real>>, rbcmVar: seq<real>)
    modifies sigma
    requires Conformant(predictions, Contents(sigma), Contents(sigma))
    requires priorStd != 0.0
    requires forall loc :: 0 <= loc < sigma.Length0 ==>
      Precision(Weights(Contents(sigma), priorStd, ln)[loc], FlooredVariances(Contents(sigma))[loc], Square(priorStd)) != 0.0
    ensures Contents(sigma) == FloorZeros(old(Contents(sigma)))
    ensures FlooredVariances(Contents(sigma)) == FlooredVariances(old(Contents(sigma)))
    ensures CombinedResults(predictions, FlooredVariances(Contents(sigma)), Weights(Contents(sigma), priorStd, ln),
                            Square(priorStd), preds, rbcmVar)
  {
    ghost var before := Contents(sigma);
    FloorZerosInPlace(sigma);
    var floored := Contents(sigma);
    FlooringAgainChangesNothing(before);
    preds, rbcmVar := DifferentialEntropyWeighting(predictions, floored, priorStd, ln);
  }

  /** The variances computed from floored values are those computed from the
      values themselves. */
  lemma FlooringAgainChangesNothing(sigma: seq<seq<real>>)
    ensures FlooredVariances(FloorZeros(sigma)) == FlooredVariances(sigma)
    ensures SameShape(FloorZeros(sigma), sigma)
  {
    FloorZerosIdempotent(sigma);
  }

  /** The floored variances and their weights have the shape of sigma. */
  lemma WeightsConform(predictions: seq<seq<seq<real>>>, sigma: seq<seq<real>>, priorStd: real, ln: real -> real)
    requires Conformant(predictions, sigma, sigma)
    ensures Conformant(predictions, FlooredVariances(sigma), Weights(sigma, priorStd, ln))
    ensures NonZeroEntries(FlooredVariances(sigma))
  {
  }

  /** Where every expert at a location has the prior's variance, the
      results that equations 21 and 22 give for the differential-entropy
      weights collapse to the prior. */
  lemma CollapsesWhereAllAtPrior(predictions: seq<seq<seq<real>>>, sigma: seq<seq<real>>, priorStd: real, ln: real -> real,
                                 preds: seq<seq<real>>, rbcmVar: seq<real>)
    requires priorStd != 0.0
    requires CombinedResults(predictions, FlooredVariances(sigma), Weights(sigma, priorStd, ln), Square(priorStd), preds, rbcmVar)
    ensures forall loc :: 0 <= loc < |sigma| && AllAtPrior(sigma[loc], priorStd) ==>
      CollapsedToPrior(preds[loc], rbcmVar[loc], Square(priorStd))
  {
    forall loc | 0 <= loc < |sigma| && AllAtPrior(sigma[loc], priorStd)
      ensures CollapsedToPrior(preds[loc], rbcmVar[loc], Square(priorStd))
    {
      FusedAtPrior(predictions, sigma, priorStd, ln, preds, rbcmVar, loc);
    }
  }

  /** The fused results at a location where every expert has the prior's
      variance are the prior variance and a zero mean. */
  lemma FusedAtPrior(predictions: seq<seq<seq<real>>>, sigma: seq<seq<real>>, priorStd: real, ln: real -> real,
                     preds: seq<seq<real>>, rbcmVar: seq<real>, loc: nat)
    requires priorStd != 0.0
    requires CombinedResults(predictions, FlooredVariances(sigma), Weights(sigma, priorStd, ln), Square(priorStd), preds, rbcmVar)
    requires loc < |sigma| && AllAtPrior(sigma[loc], priorStd)
    ensures CollapsedToPrior(preds[loc], rbcmVar[loc], Square(priorStd))
  {
    var beta := Weights(sigma, priorStd, ln)[loc];
    var v := FlooredVariances(sigma)[loc];
    PriorLocationCollapses(predictions[loc], sigma, priorStd, ln, loc);
    assert rbcmVar[loc] * Precision(beta, v, Square(priorStd)) == 1.0;
    ReciprocalUnique(rbcmVar[loc], Square(priorStd));
    forall feat | 0 <= feat < |preds[loc]|
      ensures preds[loc][feat] == 0.0
    {
      assert preds[loc][feat] == rbcmVar[loc] * WeightedMeanSum(beta, v, predictions[loc][feat]);
    }
  }

  /** At a location where every expert has the prior's variance, every
      weight is zero: the fused precision is the prior's precision and every
      weighted mean sum is zero. */
  lemma PriorLocationCollapses(predictionsAt: seq<seq<real>>, sigma: seq<seq<real>>, priorStd: real, ln: real -> real, loc: nat)
    requires priorStd != 0.0
    requires loc < |sigma| && AllAtPrior(sigma[loc], priorStd)
    requires forall feat :: 0 <= feat < |predictionsAt| ==> |predictionsAt[feat]| == |sigma[loc]|
    ensures Precision(Weights(sigma, priorStd, ln)[loc], FlooredVariances(sigma)[loc], Square(priorStd)) == 1.0 / Square(priorStd)
    ensures forall feat :: 0 <= feat < |predictionsAt| ==>
      WeightedMeanSum(Weights(sigma, priorStd, ln)[loc], FlooredVariances(sigma)[loc], predictionsAt[feat]) == 0.0
  {
    var beta := Weights(sigma, priorStd, ln)[loc];
    var v := FlooredVariances(sigma)[loc];
    PriorExpertsHaveZeroWeight(sigma, priorStd, ln, loc);
    ZeroWeightsGivePrior(beta, v, Square(priorStd), beta);
    forall feat | 0 <= feat < |predictionsAt|
      ensures WeightedMeanSum(beta, v, predictionsAt[feat]) == 0.0
    {
      ZeroWeightsGivePrior(beta, v, Square(priorStd), predictionsAt[feat]);
    }
  }

  /** The fused variance is the prior variance and every fused mean is 0. */
  predicate CollapsedToPrior(predsAt: seq<real>, rbcmVarAt: real, priorVar: real)
  {
    rbcmVarAt == priorVar && forall feat :: 0 <= feat < |predsAt| ==> predsAt[feat] == 0.0
  }

  lemma ReciprocalUnique(x: real, p: real)
    requires p != 0.0 && x * (1.0 / p) == 1.0
    ensures x == p
  {
    assert x * (1.0 / p) * p == p;
  }

  /** Every expert at this location has the prior's variance. */
  predicate AllAtPrior(sigmaRow: seq<real>, priorStd: real)
  {
    forall e :: 0 <= e < |sigmaRow| ==> Square(sigmaRow[e]) == Square(priorStd)
  }

  /** Experts as uncertain as the prior get weight zero. */
  lemma PriorExpertsHaveZeroWeight(sigma: seq<seq<real>>, priorStd: real, ln: real -> real, loc: nat)
    requires priorStd != 0.0
    requires loc < |sigma| && AllAtPrior(sigma[loc], priorStd)
    ensures forall e :: 0 <= e < |sigma[loc]| ==>
      FlooredVariances(sigma)[loc][e] == Square(priorStd) && Weights(sigma, priorStd, ln)[loc][e] == 0.0
  {
    forall e | 0 <= e < |sigma[loc]|
      ensures FlooredVariances(sigma)[loc][e] == Square(priorStd)
    {
      SquareSign(sigma[loc][e]);
      assert FloorZeros(sigma)[loc][e] == sigma[loc][e];
    }
  }
}
