/**
 The closed-form Doppler arithmetic of doppler.py: the shift for a relative
 velocity, the conversion of a known shift to another frequency, and the
 two-way nearest-frequency comparison. Frequencies are in MHz, shifts in Hz,
 velocities in m/s; all of them are modelled as exact reals.
 */
module DopplerMath {

  /** Speed of light in m/s. */
  const C: real := 299792458.0

  /** Hertz per megahertz: inputs are in MHz, shifts come out in Hz. */
  const HzPerMHz: real := 1000000.0

  /** Python's ZeroDivisionError is the only way this arithmetic fails. */
  datatype Result<T> = Ok(value: T) | DivisionByZero

  function Abs(x: real): (r: real)
    ensures r >= 0.0 && (r == x || r == -x)
  {
    if x < 0.0 then -x else x
  }

  /**
   Doppler shift in Hz of an emitted frequency `f0` (MHz) for a relative
   velocity `vel` (m/s, positive when closing). The received frequency is
   f0 * C / (C + vel) and the shift is what it lost, so the shift is the
   unique value s with s * (C + vel) == f0 * vel (in Hz).
   */
  function DopplerShift(f0: real, vel: real): (r: Result<real>)
    ensures r.DivisionByZero? <==> vel == -C
    ensures r.Ok? ==> r.value * (C + vel) == f0 * HzPerMHz * vel
  {
    if C + vel == 0.0 then DivisionByZero
    else
      var f0Hz := f0 * HzPerMHz;
      var f := (C / (C + vel)) * f0Hz;
      var shift := f0Hz - f;
      assert shift * (C + vel) == f0Hz * (C + vel) - (C / (C + vel)) * (C + vel) * f0Hz;
      Ok(shift)
  }

  /** With no relative velocity there is no shift. */
  lemma DopplerShiftAtRest(f0: real)
    ensures DopplerShift(f0, 0.0) == Ok(0.0)
  {
    var s := DopplerShift(f0, 0.0).value;
    assert s * C == 0.0 * C;
    CancelFactor(s, 0.0, C);
  }

  /**
   For a positive frequency and a velocity above -C, the shift has the sign
   of the velocity: positive while closing, negative while receding.
   */
  lemma DopplerShiftSign(f0: real, vel: real)
    requires f0 > 0.0 && vel > -C
    ensures DopplerShift(f0, vel).Ok?
    ensures DopplerShift(f0, vel).value > 0.0 <==> vel > 0.0
    ensures DopplerShift(f0, vel).value < 0.0 <==> vel < 0.0
  {
    var s := DopplerShift(f0, vel).value;
    var d := C + vel;
    var p := f0 * HzPerMHz;
    assert d > 0.0 && p > 0.0;
    assert s * d == p * vel;
    SignOfProduct(p, vel);
    SignOfProduct(s, d);
  }

  /** Helper: the sign of a product at least one of whose factors is positive. */
  lemma SignOfProduct(x: real, y: real)
    requires x > 0.0 || y > 0.0
    ensures x > 0.0 && y > 0.0 ==> x * y > 0.0
    ensures x > 0.0 && y < 0.0 ==> x * y < 0.0
    ensures y > 0.0 && x < 0.0 ==> x * y < 0.0
    ensures x * y == 0.0 ==> x == 0.0 || y == 0.0
  {
  }

  /**
   True when `f` is at least as close to `fRight` as to `fLeft`; ties go to
   the right-hand frequency. Equivalently, `f` has reached the midpoint of
   the two frequencies, measured from the side of `fLeft`.
   */
  function ShouldShiftFreqs(f: real, fLeft: real, fRight: real): (r: bool)
    ensures r <==> Abs(fRight - f) <= Abs(fLeft - f)
    ensures fLeft < fRight ==> (r <==> 2.0 * f >= fLeft + fRight)
    ensures fRight < fLeft ==> (r <==> 2.0 * f <= fLeft + fRight)
    ensures fLeft == fRight ==> r
  {
    var leftDiff := Abs(fLeft - f);
    var rightDiff := Abs(fRight - f);
    leftDiff >= rightDiff
  }

  /**
   Carries a shift `fShift` (Hz) computed for `fOrig` (MHz) over to `fNew`
   (MHz) by scaling with the ratio of the shifted to the unshifted original
   frequency: the result is the unique s with s * fOrig == fShift * fNew.
   */
  function DopplerConvert(fOrig: real, fShift: real, fNew: real): (r: Result<real>)
    ensures r.DivisionByZero? <==> fOrig == 0.0
    ensures r.Ok? ==> r.value * fOrig == fShift * fNew
  {
    var fOrigHz := fOrig * HzPerMHz;
    var fNewHz := fNew * HzPerMHz;
    var f := fOrigHz + fShift;
    if fOrigHz == 0.0 then DivisionByZero
    else
      var dopplerConst := f / fOrigHz;
      var fNewShift := dopplerConst * fNewHz;
      var newShift := fNewShift - fNewHz;
      assert newShift * fOrigHz == f * fNewHz - fNewHz * fOrigHz;
      Ok(newShift)
  }

  /** Converting to the same frequency leaves the shift unchanged. */
  lemma ConvertToSameFrequency(f: real, shift: real)
    requires f != 0.0
    ensures DopplerConvert(f, shift, f) == Ok(shift)
  {
    var s := DopplerConvert(f, shift, f).value;
    assert s * f == shift * f;
    CancelFactor(s, shift, f);
  }

  /** Converting a zero shift yields a zero shift. */
  lemma ConvertZeroShift(fOrig: real, fNew: real)
    requires fOrig != 0.0
    ensures DopplerConvert(fOrig, 0.0, fNew) == Ok(0.0)
  {
    var s := DopplerConvert(fOrig, 0.0, fNew).value;
    assert s * fOrig == 0.0 * fOrig;
    CancelFactor(s, 0.0, fOrig);
  }

  /** Helper: a non-zero factor cancels from both sides. */
  lemma CancelFactor(x: real, y: real, k: real)
    requires k != 0.0 && x * k == y * k
    ensures x == y
  {
    assert (x - y) * k == 0.0;
  }

  /** Converting to another frequency and back restores the original shift. */
  lemma ConvertRoundTrip(fOrig: real, shift: real, fNew: real)
    requires fOrig != 0.0 && fNew != 0.0
    ensures DopplerConvert(fOrig, shift, fNew).Ok?
    ensures DopplerConvert(fNew, DopplerConvert(fOrig, shift, fNew).value, fOrig) == Ok(shift)
  {
    var there := DopplerConvert(fOrig, shift, fNew).value;
    var back := DopplerConvert(fNew, there, fOrig).value;
    assert there * fOrig == shift * fNew;
    assert back * fNew == there * fOrig;
    CancelFactor(back, shift, fNew);
  }

  /**
   Why converting a shift is sound: for one and the same velocity,
   converting the shift of `fOrig` to `fNew` gives exactly the shift that
   `DopplerShift` computes for `fNew`.
   */
  lemma ConvertAgreesWithShift(fOrig: real, fNew: real, vel: real)
    requires fOrig != 0.0 && vel != -C
    ensures DopplerShift(fOrig, vel).Ok?
    ensures DopplerConvert(fOrig, DopplerShift(fOrig, vel).value, fNew) == DopplerShift(fNew, vel)
  {
    var d := C + vel;
    var s := DopplerShift(fOrig, vel).value;
    var t := DopplerShift(fNew, vel).value;
    var u := DopplerConvert(fOrig, s, fNew).value;
    assert s * d == fOrig * HzPerMHz * vel;
    assert t * d == fNew * HzPerMHz * vel;
    assert u * fOrig == s * fNew;
    calc {
      (u * d) * fOrig;
      (u * fOrig) * d;
      (s * fNew) * d;
      (s * d) * fNew;
      (fOrig * HzPerMHz * vel) * fNew;
      (fNew * HzPerMHz * vel) * fOrig;
      (t * d) * fOrig;
    }
    CancelFactor(u * d, t * d, fOrig);
    CancelFactor(u, t, d);
  }

  /**
   Receive/transmit frequency (MHz) once a shift in Hz is applied to it;
   the shift is recovered from the result.
   */
  function Shifted(freq: real, shiftHz: real): (r: real)
    ensures (r - freq) * HzPerMHz == shiftHz
  {
    freq + shiftHz / HzPerMHz
  }
}
