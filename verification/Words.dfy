/** Go's fixed-width machine words, as ranges of the mathematical integers. */
module Words {
  const TWO32: nat := 0x1_0000_0000
  const TWO64: nat := 0x1_0000_0000_0000_0000

  type UInt8 = x: nat | x < 256
  type UInt32 = x: nat | x < TWO32
  type UInt64 = x: nat | x < TWO64

  datatype Option<+T> = None | Some(value: T)

  function Min(a: nat, b: nat): nat { if a < b then a else b }

  /** uint32 multiplication, which wraps around. */
  function Mul32(a: UInt32, b: UInt32): UInt32 {
    a * b % TWO32
  }

  /** uint32 addition, which wraps around. */
  function Add32(a: UInt32, b: UInt32): UInt32 {
    (a + b) % TWO32
  }

  /** The bit patterns of finite doubles: the exponent field is not all ones. */
  predicate Finite(bits: UInt64) {
    bits / 0x10_0000_0000_0000 % 2048 < 2047
  }

  /** A finite float64, identified by its bit pattern (so that 0 and -0 are two values). */
  type Float64 = bits: UInt64 | Finite(bits) witness 0

  /** m * 2^e. */
  function Scale(m: real, e: int): real
    decreases if e < 0 then -e else e
  {
    if e == 0 then m else if e > 0 then 2.0 * Scale(m, e - 1) else Scale(m, e + 1) / 2.0
  }

  /** The number that a finite double denotes (IEEE 754-2019, section 3.4). */
  function Value(f: Float64): real {
    var fraction := f % 0x10_0000_0000_0000;
    var exponent := f / 0x10_0000_0000_0000 % 2048;
    var magnitude := if exponent == 0
                     then Scale(fraction as real, -1074)
                     else Scale((0x10_0000_0000_0000 + fraction) as real, exponent - 1075);
    if f < 0x8000_0000_0000_0000 then magnitude else -magnitude
  }

  // ----- what a double denotes -----

  const SIGN: nat := 0x8000_0000_0000_0000
  const INFINITY: nat := 0x7ff0_0000_0000_0000

  lemma {:induction false} ScaleLinear(m: real, e: int)
    ensures Scale(m, e) == m * Scale(1.0, e)
    decreases if e < 0 then -e else e
  {
    if e == 0 {
    } else if e > 0 {
      ScaleLinear(m, e - 1);
    } else {
      ScaleLinear(m, e + 1);
    }
  }

  lemma {:induction false} ScalePositive(e: int)
    ensures Scale(1.0, e) > 0.0
    decreases if e < 0 then -e else e
  {
    if e == 0 {
    } else if e > 0 {
      ScalePositive(e - 1);
    } else {
      ScalePositive(e + 1);
    }
  }

  lemma ScaleDoubles(e: int)
    ensures Scale(1.0, e + 1) == 2.0 * Scale(1.0, e)
  {
  }

  /** The finite patterns are those below infinity, without and with the sign. */
  lemma FiniteIff(f: nat)
    requires f < SIGN
    ensures Finite(f) <==> f < INFINITY
    ensures Finite(f + SIGN) <==> f < INFINITY
  {
    assert (f + SIGN) / 0x10_0000_0000_0000 == f / 0x10_0000_0000_0000 + 2048;
  }

  /** A finite double by its magnitude and sign. */
  function Signed(f: nat, negative: bool): Float64
    requires f < INFINITY
  {
    FiniteIff(f);
    if negative then f + SIGN else f
  }

  lemma SignNegates(f: nat)
    requires f < INFINITY
    ensures Value(Signed(f, true)) == -Value(Signed(f, false))
  {
    hide Scale;
    assert (f + SIGN) / 0x10_0000_0000_0000 == f / 0x10_0000_0000_0000 + 2048;
    assert (f + SIGN) % 0x10_0000_0000_0000 == f % 0x10_0000_0000_0000;
  }

  /** The distance from one pattern without a sign to the next, by the exponent. */
  function Ulp(exponent: nat): real {
    Scale(1.0, if exponent == 0 then -1074 else exponent - 1075)
  }

  lemma UlpDoubles(exponent: nat)
    ensures Ulp(exponent) > 0.0
    ensures exponent == 0 ==> Ulp(exponent + 1) == Ulp(exponent)
    ensures exponent > 0 ==> Ulp(exponent + 1) == 2.0 * Ulp(exponent)
  {
    ScalePositive(if exponent == 0 then -1074 else exponent - 1075);
    ScaleDoubles(exponent - 1075);
  }

  lemma Fields(f: nat, exponent: nat, fraction: nat)
    requires f == 0x10_0000_0000_0000 * exponent + fraction && fraction < 0x10_0000_0000_0000
    ensures f / 0x10_0000_0000_0000 == exponent && f % 0x10_0000_0000_0000 == fraction
  {
  }

  lemma ValueOf(f: nat, exponent: nat, fraction: nat)
    requires f < INFINITY && f == 0x10_0000_0000_0000 * exponent + fraction && fraction < 0x10_0000_0000_0000
    ensures exponent == 0 ==> Value(Signed(f, false)) == fraction as real * Ulp(exponent)
    ensures exponent > 0 ==> Value(Signed(f, false)) == (0x10_0000_0000_0000 + fraction) as real * Ulp(exponent)
  {
    hide Scale;
    Fields(f, exponent, fraction);
    if exponent == 0 {
      ScaleLinear(fraction as real, -1074);
    } else {
      ScaleLinear((0x10_0000_0000_0000 + fraction) as real, exponent - 1075);
    }
  }

  lemma OneMoreUlp(m: nat, ulp: real)
    ensures (m + 1) as real * ulp == m as real * ulp + ulp
  {
  }

  lemma NextInBinade(f: nat, exponent: nat, fraction: nat)
    requires f + 1 < INFINITY && f == 0x10_0000_0000_0000 * exponent + fraction && fraction + 1 < 0x10_0000_0000_0000
    ensures Value(Signed(f + 1, false)) == Value(Signed(f, false)) + Ulp(exponent)
  {
    hide Value, Signed, Ulp;
    ValueOf(f, exponent, fraction);
    ValueOf(f + 1, exponent, fraction + 1);
    OneMoreUlp(if exponent == 0 then fraction else 0x10_0000_0000_0000 + fraction, Ulp(exponent));
  }

  lemma NextBinade(f: nat, exponent: nat)
    requires f + 1 < INFINITY && f == 0x10_0000_0000_0000 * exponent + 0xf_ffff_ffff_ffff
    ensures Value(Signed(f + 1, false)) == Value(Signed(f, false)) + Ulp(exponent)
  {
    hide Value, Signed, Ulp;
    ValueOf(f, exponent, 0xf_ffff_ffff_ffff);
    ValueOf(f + 1, exponent + 1, 0);
    UlpDoubles(exponent);
  }

  /** The next pattern denotes the number one ulp further, also where the exponent changes; the first denotes 0. With
      SignNegates this determines every value. */
  lemma NextValue(f: nat)
    requires f + 1 < INFINITY
    ensures Value(Signed(0, false)) == 0.0
    ensures
      var ulp := Ulp(f / 0x10_0000_0000_0000);
      ulp > 0.0 && Value(Signed(f + 1, false)) == Value(Signed(f, false)) + ulp
  {
    hide Value, Signed, Ulp;
    var fraction, exponent := f % 0x10_0000_0000_0000, f / 0x10_0000_0000_0000;
    ValueOf(0, 0, 0);
    UlpDoubles(exponent);
    if fraction + 1 < 0x10_0000_0000_0000 {
      NextInBinade(f, exponent, fraction);
    } else {
      NextBinade(f, exponent);
    }
  }

  lemma {:induction false} ValueIncreases(f: nat, g: nat)
    requires f < g < INFINITY
    ensures 0.0 <= Value(Signed(f, false)) < Value(Signed(g, false))
  {
    hide Value, Ulp, Signed;
    NextValue(g - 1);
    if f < g - 1 {
      ValueIncreases(f, g - 1);
    } else if f > 0 {
      ValueIncreases(0, f);
    }
  }

  /** The order of the numbers is that of the patterns without a sign, and the reverse with it. Only the two zeros
      denote the same number. */
  lemma ValueOrdered(f: nat, g: nat)
    requires f < INFINITY && g < INFINITY
    ensures Value(Signed(f, false)) < Value(Signed(g, false)) <==> f < g
    ensures Value(Signed(f, true)) < Value(Signed(g, true)) <==> g < f
    ensures Value(Signed(f, true)) <= Value(Signed(g, false))
    ensures Value(Signed(f, true)) == Value(Signed(g, false)) <==> f == 0 && g == 0
  {
    hide Value, Signed;
    SignNegates(f);
    SignNegates(g);
    NextValue(0);
    if f < g {
      ValueIncreases(f, g);
    } else if g < f {
      ValueIncreases(g, f);
    }
    if f > 0 {
      ValueIncreases(0, f);
    }
    if g > 0 {
      ValueIncreases(0, g);
    }
  }
}
