/** The campfire's intensity: raised by every note played, capped at five
    times the baseline, and decayed by 2% every frame back to the baseline. */
module Intensity {
  import opened Scene

  /** The intensity after one successful trigger: raised by IntensityBoost,
      never past MaxIntensity. */
  function Boost(i: real): (r: real)
    ensures r <= MaxIntensity
    ensures r == MaxIntensity || r == i + IntensityBoost
    ensures r >= i || i > MaxIntensity
    ensures i + IntensityBoost <= MaxIntensity ==> r == i + IntensityBoost
  {
    if i + IntensityBoost < MaxIntensity then i + IntensityBoost else MaxIntensity
  }

  /** The intensity at the start of a frame: above the baseline it shrinks
      by 2%, otherwise it is reset to exactly the baseline. */
  function Decay(i: real): (r: real)
    ensures i > BaseIntensity ==> DecayFactor * BaseIntensity < r < i
    ensures i <= BaseIntensity ==> r == BaseIntensity
    ensures r > 0.0
  {
    if i > BaseIntensity then i * DecayFactor else BaseIntensity
  }

  /** The range the intensity keeps between any two events. */
  predicate InRange(i: real) {
    DecayFactor * BaseIntensity < i <= MaxIntensity
  }

  /** The baseline lies in the range. */
  lemma BaselineInRange()
    ensures InRange(BaseIntensity)
  {
  }

  /** Both transitions keep the intensity within (0.98, 5]; a decay even
      leaves it at most 4.9. */
  lemma StepsKeepRange(i: real)
    requires InRange(i)
    ensures InRange(Boost(i))
    ensures InRange(Decay(i)) && Decay(i) <= DecayFactor * MaxIntensity
  {
  }

  /** The intensity can sit just below the baseline for one frame: a value a
      hair above 1 decays to below 1, and the next frame resets it to 1. */
  lemma DipsBelowBaselineForOneFrame()
    ensures Decay(1.01) < BaseIntensity
    ensures Decay(Decay(1.01)) == BaseIntensity
  {
  }

  /** The intensity after n undisturbed frames. */
  function DecayFrames(i: real, n: nat): real {
    if n == 0 then i else Decay(DecayFrames(i, n - 1))
  }

  /** Left undisturbed, the intensity stays within (0.98, 5] and falls
      every frame while it is above the baseline. */
  lemma {:induction false} UndisturbedDecay(i: real, n: nat)
    requires InRange(i)
    ensures InRange(DecayFrames(i, n))
    ensures DecayFrames(i, n) > BaseIntensity ==> DecayFrames(i, n + 1) < DecayFrames(i, n)
  {
    if n > 0 {
      UndisturbedDecay(i, n - 1);
      StepsKeepRange(DecayFrames(i, n - 1));
    }
  }

  /** Once the intensity is at or below the baseline, every later
      undisturbed frame has it exactly at the baseline. */
  lemma {:induction false} BaselineIsAbsorbing(i: real, n: nat, m: nat)
    requires DecayFrames(i, n) <= BaseIntensity
    requires m >= 1
    ensures DecayFrames(i, n + m) == BaseIntensity
  {
    if m > 1 {
      BaselineIsAbsorbing(i, n, m - 1);
    }
  }

  /** DecayFactor to the n-th power: what n decays in a row multiply by. */
  function Pow(n: nat): (r: real)
    ensures 0.0 < r <= 1.0
  {
    if n == 0 then 1.0 else DecayFactor * Pow(n - 1)
  }

  /** Powers add: n + m decays shrink by the product of n and m decays. */
  lemma {:induction false} PowAdd(n: nat, m: nat)
    ensures Pow(n + m) == Pow(n) * Pow(m)
  {
    if m > 0 {
      PowAdd(n, m - 1);
      Scaled(Pow(n), Pow(m - 1));
    }
  }

  /** Scaling a product by the decay factor scales its second factor. */
  lemma Scaled(a: real, b: real)
    ensures DecayFactor * (a * b) == a * (DecayFactor * b)
  {
  }

  /** Squaring keeps a strict upper bound on a positive number. */
  lemma SquareBelow(x: real, b: real)
    requires 0.0 < x < b
    ensures x * x < b * b
  {
    assert x * x < x * b;
    assert x * b < b * b;
  }

  /** A strict bound on n decays gives one on 2n decays. */
  lemma DoubleDecays(n: nat, b: real)
    requires Pow(n) < b
    ensures Pow(2 * n) < b * b
  {
    PowAdd(n, n);
    SquareBelow(Pow(n), b);
  }

  /** Ten decays shrink the intensity below 0.8171. */
  lemma TenDecays()
    ensures Pow(10) < 0.8171
  {
  }

  /** Until it reaches the baseline, n undisturbed frames shrink the
      intensity by at least the factor 0.98 each. */
  lemma {:induction false} DecayBelowPow(i: real, n: nat)
    requires InRange(i)
    ensures DecayFrames(i, n) <= BaseIntensity || DecayFrames(i, n) <= i * Pow(n)
  {
    if n > 0 {
      DecayBelowPow(i, n - 1);
      var p := DecayFrames(i, n - 1);
      if p > BaseIntensity {
        assert DecayFactor * (i * Pow(n - 1)) == i * Pow(n);
      }
    }
  }

  /** Left undisturbed, the intensity gets back to exactly the baseline
      within 81 frames from anywhere in its range, and stays there: 0.98
      to the 80th power is below a fifth, so 80 decays take even the cap 5
      below 1, and the next frame resets it. */
  lemma ReturnsToBaseline(i: real, n: nat)
    requires InRange(i) && n >= 81
    ensures DecayFrames(i, n) == BaseIntensity
  {
    var ten: nat := 10;
    var twenty: nat := ten + ten;
    var forty: nat := twenty + twenty;
    var eighty: nat := forty + forty;
    TenDecays();
    DoubleDecays(ten, 0.8171);
    DoubleDecays(twenty, 0.6677);
    DoubleDecays(forty, 0.4459);
    BaselineAfterFifth(i, eighty, n);
  }

  /** Once k decays shrink by more than a fifth, the intensity is back at
      the baseline on every frame after the k-th. */
  lemma BaselineAfterFifth(i: real, k: nat, n: nat)
    requires InRange(i) && Pow(k) < 0.2 && n > k
    ensures DecayFrames(i, n) == BaseIntensity
  {
    DecayBelowPow(i, k);
    var p := Pow(k);
    assert i * p <= MaxIntensity * p;
    BaselineIsAbsorbing(i, k, n - k);
  }
}
