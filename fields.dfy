/** Complex field values and the `max(np.abs(field))` normaliser. */
module Fields {
  import opened Numerics

  datatype Complex = Complex(re: real, im: real)

  const Zero: Complex := Complex(0.0, 0.0)

  /**
   * `np.abs` on a complex number. The square root itself is not modelled; a
   * modulus function is any one that, like the Euclidean magnitude, lies
   * between max(|re|, |im|) and |re| + |im|.
   */
  ghost predicate IsModulus(modulus: Complex -> real) {
    forall z :: MagnitudeBounds(z, modulus(z))
  }

  ghost predicate MagnitudeBounds(z: Complex, r: real) {
    Abs(z.re) <= r && Abs(z.im) <= r && r <= Abs(z.re) + Abs(z.im)
  }

  /** Multiplication of a complex number by a real factor. */
  function ScaleBy(c: real, z: Complex): Complex {
    Complex(c * z.re, c * z.im)
  }

  /** `field.imag` of an array of complex values. */
  function Imag(fs: seq<Complex>): (r: seq<real>)
    ensures |r| == |fs|
    ensures forall j :: 0 <= j < |fs| ==> r[j] == fs[j].im
  {
    seq(|fs|, j requires 0 <= j < |fs| => fs[j].im)
  }

  /** `field.real` of an array of complex values. */
  function Real(fs: seq<Complex>): (r: seq<real>)
    ensures |r| == |fs|
    ensures forall j :: 0 <= j < |fs| ==> r[j] == fs[j].re
  {
    seq(|fs|, j requires 0 <= j < |fs| => fs[j].re)
  }

  /** `max(np.abs(field))` over a non-empty array. */
  function MaxModulus(fs: seq<Complex>, modulus: Complex -> real): (m: real)
    requires |fs| > 0
    ensures exists j :: 0 <= j < |fs| && m == modulus(fs[j])
    ensures forall j :: 0 <= j < |fs| ==> modulus(fs[j]) <= m
  {
    var mods := seq(|fs|, j requires 0 <= j < |fs| => modulus(fs[j]));
    var m := Max(mods);
    assert forall j :: 0 <= j < |fs| ==> mods[j] == modulus(fs[j]);
    m
  }

  /** A modulus is non-negative and vanishes exactly at zero. */
  lemma ModulusZero(modulus: Complex -> real, z: Complex)
    requires IsModulus(modulus)
    ensures modulus(z) >= 0.0
    ensures modulus(z) > 0.0 <==> z != Zero
  {
    assert MagnitudeBounds(z, modulus(z));
  }

  /** The normaliser is positive exactly when some field value is non-zero. */
  lemma MaxModulusPositive(fs: seq<Complex>, modulus: Complex -> real)
    requires |fs| > 0 && IsModulus(modulus)
    ensures MaxModulus(fs, modulus) > 0.0 <==> exists j :: 0 <= j < |fs| && fs[j] != Zero
  {
    var m := MaxModulus(fs, modulus);
    var k :| 0 <= k < |fs| && m == modulus(fs[k]);
    ModulusZero(modulus, fs[k]);
    if m > 0.0 {
      assert fs[k] != Zero;
    } else {
      forall j | 0 <= j < |fs| ensures fs[j] == Zero {
        ModulusZero(modulus, fs[j]);
      }
    }
  }

  /** Every imaginary part is bounded by the normaliser. */
  lemma ImagWithinMaxModulus(fs: seq<Complex>, modulus: Complex -> real, j: nat)
    requires j < |fs| && IsModulus(modulus)
    ensures Abs(fs[j].im) <= MaxModulus(fs, modulus)
  {
    assert MagnitudeBounds(fs[j], modulus(fs[j]));
  }
}
