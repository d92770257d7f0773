/**
 Operating-point calibration of the text classifier: the bias is shifted so that the validation
 false positives fit one in a thousand at the configured threshold.
 */
module Calibration {
  import opened Orders

  /** margin is the weighted feature sum; the logit adds the bias. */
  datatype Example = Example(margin: real, spam: bool)

  /** The logistic function and its inverse. */
  datatype Curve = Curve(sigma: real -> real, logit: real -> real)

  ghost predicate Logistic(curve: Curve) {
    && (forall x, y :: x < y ==> curve.sigma(x) < curve.sigma(y))
    && (forall x :: 0.0 < curve.sigma(x) < 1.0)
    && (forall q :: 0.0 < q < 1.0 ==> curve.sigma(curve.logit(q)) == q)
    && curve.sigma(-40.0) < 0.000001 && curve.sigma(40.0) > 0.999999
  }

  function Clamp(x: real, lo: real, hi: real): real { if x < lo then lo else if x > hi then hi else x }

  /** The logistic function of the clamped logit. */
  function Sigmoid(curve: Curve, x: real): real { curve.sigma(Clamp(x, -40.0, 40.0)) }

  predicate Predicted(curve: Curve, threshold: real, logit: real) { Sigmoid(curve, logit) * 100.0 >= threshold }

  function Is(spam: bool): Example -> bool { (e: Example) => e.spam == spam }

  function Positive(curve: Curve, bias: real, threshold: real, spam: bool): Example -> bool {
    (e: Example) => e.spam == spam && Predicted(curve, threshold, bias + e.margin)
  }

  function Positives(curve: Curve, bias: real, threshold: real, spam: bool, examples: seq<Example>): nat {
    Count(examples, Positive(curve, bias, threshold, spam))
  }

  function Size(examples: seq<Example>, spam: bool): nat { Count(examples, Is(spam)) }

  // ---------------------------------------------------------------- calibration

  function Falling(): (real, real) -> bool { (a: real, b: real) => a >= b }

  function Logit(bias: real): Example -> real { (e: Example) => bias + e.margin }

  function Logits(bias: real, s: seq<Example>): seq<real> { Image(s, Logit(bias)) }

  /** Logits of the legitimate examples, highest first. */
  function HamLogits(bias: real, validation: seq<Example>): (r: seq<real>)
    ensures |r| == Size(validation, false)
  {
    CountIsKept(validation, Is(false));
    Sort(Logits(bias, Keep(validation, Is(false))), Falling())
  }

  /** The floor of a thousandth. */
  function Allowed(n: nat): (a: nat)
    ensures forall fp: nat :: fp <= a <==> Affordable(fp, n)
  {
    n / 1000
  }

  /** At most one in a thousand. */
  predicate Affordable(fp: nat, n: nat) { 1000 * fp <= n }

  function Target(threshold: real): (p: real)
    ensures 0.000001 <= p <= 0.999999
    ensures 0.0001 <= threshold <= 99.9999 ==> p * 100.0 == threshold
    ensures (threshold < 0.0001 ==> p == 0.000001) && (threshold > 99.9999 ==> p == 0.999999)
  {
    Clamp(threshold / 100.0, 0.000001, 0.999999)
  }

  class Model {
    var bias: real

    /** Shifts the bias; the legitimate example of rank Allowed lands just below the target. */
    method Calibrate(curve: Curve, validation: seq<Example>, threshold: real)
      requires Size(validation, false) > 0
      modifies this
      ensures bias == old(bias) + Shift(curve, old(bias), validation, threshold)
      ensures Logistic(curve) ==>
                (Affordable(Positives(curve, bias, threshold, false, validation), Size(validation, false))
                 <==> Sigmoid(curve, curve.logit(Target(threshold)) - 0.02) * 100.0 < threshold)
    {
      var ham := HamLogits(bias, validation);
      var allowed := Allowed(|ham|);
      var cutoff := ham[if allowed < |ham| - 1 then allowed else |ham| - 1] + 0.02;
      if Logistic(curve) {
        CalibrationMeetsBudget(curve, bias, validation, threshold);
      }
      bias := bias + curve.logit(Target(threshold)) - cutoff;
    }

    /** The loop of the evaluation over the examples. */
    method Tally(curve: Curve, examples: seq<Example>, threshold: real) returns (ham: nat, spam: nat, tp: nat, fp: nat)
      ensures ham == Size(examples, false) && spam == Size(examples, true)
      ensures tp == Positives(curve, bias, threshold, true, examples)
      ensures fp == Positives(curve, bias, threshold, false, examples)
    {
      ham, spam, tp, fp := 0, 0, 0, 0;
      for i := 0 to |examples|
        invariant ham == Size(examples[..i], false) && spam == Size(examples[..i], true)
        invariant tp == Positives(curve, bias, threshold, true, examples[..i])
        invariant fp == Positives(curve, bias, threshold, false, examples[..i])
      {
        CountStep(examples, i, Is(false));
        CountStep(examples, i, Is(true));
        CountStep(examples, i, Positive(curve, bias, threshold, true));
        CountStep(examples, i, Positive(curve, bias, threshold, false));
        var predicted := Predicted(curve, threshold, bias + examples[i].margin);
        if examples[i].spam {
          spam := spam + 1;
          if predicted {
            tp := tp + 1;
          }
        } else {
          ham := ham + 1;
          if predicted {
            fp := fp + 1;
          }
        }
      }
      assert examples[..|examples|] == examples;
    }
  }

  // ---------------------------------------------------------------- false positives after calibration

  function Shifted(curve: Curve, shift: real, threshold: real): real -> bool {
    (x: real) => Predicted(curve, threshold, x + shift)
  }

  lemma CountLogits(curve: Curve, bias: real, shift: real, threshold: real, s: seq<Example>)
    ensures Positives(curve, bias + shift, threshold, false, s)
            == Count(Logits(bias, Keep(s, Is(false))), Shifted(curve, shift, threshold))
  {
    var test, both := Shifted(curve, shift, threshold), Positive(curve, bias + shift, threshold, false);
    forall e ensures both(e) == (Is(false)(e) && test(Logit(bias)(e))) {
      assert bias + shift + e.margin == bias + e.margin + shift;
    }
    CountImage(s, Logit(bias), Is(false), test, both);
  }

  lemma PredictedRises(curve: Curve, threshold: real, x: real, y: real)
    requires Logistic(curve) && x <= y && Predicted(curve, threshold, x)
    ensures Predicted(curve, threshold, y)
  {
    var cx, cy := Clamp(x, -40.0, 40.0), Clamp(y, -40.0, 40.0);
    assert cx < cy || cx == cy;
  }

  lemma ShiftedRises(curve: Curve, shift: real, threshold: real)
    requires Logistic(curve)
    ensures forall x, y :: Falling()(x, y) && Shifted(curve, shift, threshold)(y) ==> Shifted(curve, shift, threshold)(x)
  {
    forall x, y | Falling()(x, y) && Shifted(curve, shift, threshold)(y) ensures Shifted(curve, shift, threshold)(x) {
      PredictedRises(curve, threshold, y + shift, x + shift);
    }
  }

  /** With the shift of a calibration, the budget holds exactly when the ranked example is not predicted. */
  lemma BudgetByRank(curve: Curve, bias: real, shift: real, threshold: real, s: seq<Example>, a: nat)
    requires Logistic(curve) && a < Size(s, false)
    ensures Positives(curve, bias + shift, threshold, false, s) <= a
            <==> !Predicted(curve, threshold, HamLogits(bias, s)[a] + shift)
  {
    var v, test := Logits(bias, Keep(s, Is(false))), Shifted(curve, shift, threshold);
    CountLogits(curve, bias, shift, threshold, s);
    SortMultiset(v, Falling());
    CountForgetsOrder(v, Sort(v, Falling()), test);
    SortSorted(v, Falling());
    ShiftedRises(curve, shift, threshold);
    assert a < |HamLogits(bias, s)|;
    CountByRank(HamLogits(bias, s), Falling(), test, a);
  }

  /** The calibration amount as a function of the validation set. */
  function Shift(curve: Curve, bias: real, validation: seq<Example>, threshold: real): real
    requires Size(validation, false) > 0
  {
    curve.logit(Target(threshold)) - (HamLogits(bias, validation)[Allowed(Size(validation, false))] + 0.02)
  }

  /**
   For every validation set, calibration meets the false-positive budget exactly when the
   clamped target lowered by the 0.02 margin stays below the threshold.
   */
  lemma CalibrationMeetsBudget(curve: Curve, bias: real, validation: seq<Example>, threshold: real)
    requires Logistic(curve) && Size(validation, false) > 0
    ensures Affordable(Positives(curve, bias + Shift(curve, bias, validation, threshold), threshold, false, validation),
                       Size(validation, false))
            <==> Sigmoid(curve, curve.logit(Target(threshold)) - 0.02) * 100.0 < threshold
  {
    var a, shift := Allowed(Size(validation, false)), Shift(curve, bias, validation, threshold);
    BudgetByRank(curve, bias, shift, threshold, validation, a);
    assert HamLogits(bias, validation)[a] + shift == curve.logit(Target(threshold)) - 0.02;
  }

  /** Every threshold of at least 0.0001, also one that the clamp lowers, keeps the budget. */
  lemma UsualThresholdsMeetBudget(curve: Curve, bias: real, validation: seq<Example>, threshold: real)
    requires Logistic(curve) && Size(validation, false) > 0 && threshold >= 0.0001
    ensures Affordable(Positives(curve, bias + Shift(curve, bias, validation, threshold), threshold, false, validation),
                       Size(validation, false))
  {
    CalibrationMeetsBudget(curve, bias, validation, threshold);
    var q := Target(threshold);
    assert Clamp(curve.logit(q) - 0.02, -40.0, 40.0) < curve.logit(q);
    assert q * 100.0 <= threshold;
  }

  /** The smallest operating point that the clamp allows, lowered by the margin, as a score. */
  function LowestPoint(curve: Curve): real { Sigmoid(curve, curve.logit(0.000001) - 0.02) * 100.0 }

  /** One bound for all thresholds: the budget is met exactly above the lowest operating point. */
  lemma BudgetMetAboveLowestPoint(curve: Curve, bias: real, validation: seq<Example>, threshold: real)
    requires Logistic(curve) && Size(validation, false) > 0
    ensures Affordable(Positives(curve, bias + Shift(curve, bias, validation, threshold), threshold, false, validation),
                       Size(validation, false))
            <==> threshold > LowestPoint(curve)
  {
    if threshold >= 0.0001 {
      UsualThresholdsMeetBudget(curve, bias, validation, threshold);
      assert Clamp(curve.logit(0.000001) - 0.02, -40.0, 40.0) < curve.logit(0.000001);
      assert LowestPoint(curve) < 0.0001;
    } else {
      CalibrationMeetsBudget(curve, bias, validation, threshold);
      assert Target(threshold) == 0.000001;
    }
  }

  /** Threshold zero is accepted as input and flags every legitimate example. */
  lemma ZeroThresholdMissesBudget(curve: Curve, bias: real, validation: seq<Example>)
    requires Logistic(curve) && Size(validation, false) > 0
    ensures !Affordable(Positives(curve, bias + Shift(curve, bias, validation, 0.0), 0.0, false, validation),
                        Size(validation, false))
  {
    CalibrationMeetsBudget(curve, bias, validation, 0.0);
  }

  /** The score is the logistic value of the logit, constant beyond forty. */
  lemma SigmoidMeans(curve: Curve, x: real)
    requires Logistic(curve)
    ensures -40.0 <= x <= 40.0 ==> Sigmoid(curve, x) == curve.sigma(x)
    ensures (x > 40.0 ==> Sigmoid(curve, x) == curve.sigma(40.0)) && (x < -40.0 ==> Sigmoid(curve, x) == curve.sigma(-40.0))
  {
  }
}
