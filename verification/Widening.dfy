/** A delta may arrive as a float32. Widening its bit pattern keeps its value exactly. */
module Widening {
  import opened MessagePack

  function Pow2(n: nat): nat { if n == 0 then 1 else 2 * Pow2(n - 1) }

  lemma {:induction false} Pow2Adds(m: nat, n: nat)
    ensures Pow2(m + n) == Pow2(m) * Pow2(n)
  {
    if m > 0 {
      Pow2Adds(m - 1, n);
      assert 2 * (Pow2(m - 1) * Pow2(n)) == 2 * Pow2(m - 1) * Pow2(n);
    }
  }

  /** The magnitude of a finite binary float in units of its least subnormal: the fraction as it
      is when the exponent field is 0, else with its hidden bit and scaled. */
  function Magnitude(exponent: nat, fraction: nat, hidden: nat): nat {
    if exponent == 0 then fraction else (hidden + fraction) * Pow2(exponent - 1)
  }

  // The parts of the two patterns: a sign bit, 8 and 23 bits, 11 and 52 bits.
  function Sign32(bits: nat): nat { bits / 0x8000_0000 }
  function Exponent32(bits: nat): nat { bits / 0x80_0000 % 256 }
  function Fraction32(bits: nat): nat { bits % 0x80_0000 }
  function Sign64(bits: nat): nat { bits / 0x8000_0000_0000_0000 }
  function Exponent64(bits: nat): nat { bits / 0x10_0000_0000_0000 % 2048 }
  function Fraction64(bits: nat): nat { bits % 0x10_0000_0000_0000 }

  lemma Parts(sign: nat, exponent: nat, fraction: nat)
    requires sign < 2 && exponent < 2048 && fraction < 0x10_0000_0000_0000
    ensures var bits := sign * 0x8000_0000_0000_0000 + exponent * 0x10_0000_0000_0000 + fraction;
            Sign64(bits) == sign && Exponent64(bits) == exponent && Fraction64(bits) == fraction
  {
  }

  /** A subnormal fraction is shifted until its leading bit is the hidden one. */
  lemma {:induction false} NormalizedShifts(fraction: nat, exponent: int, n: nat) returns (k: nat)
    requires 0 < fraction && 0x80_0000 <= fraction * Pow2(n) && fraction < 0x100_0000
    ensures k <= n
    ensures Normalized(fraction, exponent, n) == (exponent - k, fraction * Pow2(k))
    ensures 0x80_0000 <= fraction * Pow2(k) < 0x100_0000
    decreases n
  {
    if n == 0 || fraction >= 0x80_0000 {
      k := 0;
    } else {
      assert 2 * fraction * Pow2(n - 1) == fraction * Pow2(n) by {
        assert fraction * (2 * Pow2(n - 1)) == 2 * fraction * Pow2(n - 1);
      }
      var j := NormalizedShifts(2 * fraction, exponent - 1, n - 1);
      k := j + 1;
      assert fraction * (2 * Pow2(j)) == 2 * fraction * Pow2(j);
    }
  }

  lemma Scaled(f: nat, p: nat, q: nat, r: nat, a: nat, b: nat, c: nat)
    requires a == r * f && b == p * q && c == q * r
    ensures a * b == f * p * c
  {
    Regroup(f, p, q, r);
  }

  lemma NormalScales(exponent: nat, fraction: nat, unit: nat)
    requires 0 < exponent < 255 && unit == 925
    ensures Magnitude(exponent + 896, 0x2000_0000 * fraction, 0x10_0000_0000_0000)
            == Magnitude(exponent, fraction, 0x80_0000) * Pow2(unit)
  {
    var low, high := unit - 896, unit - 29;
    Pow2Adds(exponent - 1, high);
    Pow2Adds(high, low);
    Shift29(low);
    Scaled(0x80_0000 + fraction, Pow2(exponent - 1), Pow2(high), Pow2(low),
           0x10_0000_0000_0000 + 0x2000_0000 * fraction, Pow2(exponent - 1 + high), Pow2(unit));
  }

  lemma Regroup(f: nat, p: nat, q: nat, r: nat)
    ensures r * f * (p * q) == f * p * (q * r)
  {
    assert r * f * (p * q) == f * (r * (p * q)) by {
      assert r * f == f * r;
      Associate(f, r, p * q);
    }
    assert r * (p * q) == p * (q * r) by {
      Associate(r, p, q);
      Associate(p, q, r);
      assert r * (p * q) == p * q * r;
    }
    Associate(f, p, q * r);
  }

  lemma Associate(a: nat, b: nat, c: nat)
    ensures a * b * c == a * (b * c)
  {
  }

  lemma Shift29(n: nat)
    requires n == 29
    ensures Pow2(n) == 0x2000_0000
  {
    Pow2Adds(16, 13);
    assert Pow2(16) == 0x1_0000 && Pow2(13) == 0x2000;
  }

  lemma SubnormalScales(fraction: nat, k: nat, unit: nat)
    requires k <= 23 && 0x80_0000 <= fraction * Pow2(k) && unit == 925
    ensures Magnitude(897 - k, 0x2000_0000 * (fraction * Pow2(k) - 0x80_0000), 0x10_0000_0000_0000)
            == fraction * Pow2(unit)
  {
    var low, high := unit - 896, unit - 29 - k;
    Pow2Adds(k, high + low);
    Pow2Adds(high, low);
    Shift29(low);
    var g := fraction * Pow2(k);
    Scaled(g, 1, Pow2(high), Pow2(low),
           0x10_0000_0000_0000 + 0x2000_0000 * (g - 0x80_0000), Pow2(high), Pow2(high + low));
    Associate(fraction, Pow2(k), Pow2(high + low));
  }

  /** The bit pattern of a float64 from its parts. */
  function Joined(sign: nat, exponent: nat, fraction: nat): nat {
    sign * 0x8000_0000_0000_0000 + exponent * 0x10_0000_0000_0000 + fraction
  }

  /** The parts of the wide pattern, case by case. */
  lemma WidenedSpecial(bits: nat)
    requires bits < 0x1_0000_0000 && Exponent32(bits) == 255
    ensures exists f: nat :: f < 0x80_0000 && (f == 0 <==> Fraction32(bits) == 0)
                             && Widened(bits) == Joined(Sign32(bits), 2047, 0x2000_0000 * f)
  {
    var fraction := Fraction32(bits);
    var f := if fraction == 0 then 0 else if fraction < 0x40_0000 then fraction + 0x40_0000 else fraction;
    assert Widened(bits) == Joined(Sign32(bits), 2047, 0x2000_0000 * f);
  }

  lemma WidenedNormal(bits: nat)
    requires bits < 0x1_0000_0000 && 0 < Exponent32(bits) < 255
    ensures Widened(bits) == Joined(Sign32(bits), Exponent32(bits) + 896, 0x2000_0000 * Fraction32(bits))
  {
  }

  lemma WidenedSubnormal(bits: nat) returns (k: nat)
    requires bits < 0x1_0000_0000 && Exponent32(bits) == 0 && Fraction32(bits) > 0
    ensures k <= 23 && 0x80_0000 <= Fraction32(bits) * Pow2(k) < 0x100_0000
    ensures Widened(bits)
            == Joined(Sign32(bits), 897 - k, 0x2000_0000 * (Fraction32(bits) * Pow2(k) - 0x80_0000))
  {
    AtLeast(Fraction32(bits), 23);
    k := NormalizedShifts(Fraction32(bits), 1, 23);
  }

  lemma AtLeast(fraction: nat, n: nat)
    requires fraction > 0 && n == 23
    ensures fraction * Pow2(n) >= 0x80_0000
  {
    Pow2Adds(13, 10);
    assert Pow2(13) == 0x2000 && Pow2(10) == 0x400;
  }

  /** Widening keeps the sign, and of a finite float the value: with unit 925, one of the narrow
      format is 2^unit of the wide. Infinities stay infinities and NaNs stay NaNs. */
  ghost predicate SameValue(bits: nat, w: nat, unit: nat) {
    && Sign64(w) == Sign32(bits)
    && (Exponent32(bits) == 255 <==> Exponent64(w) == 2047)
    && (Exponent32(bits) == 255 ==> (Fraction32(bits) == 0 <==> Fraction64(w) == 0))
    && (Exponent32(bits) < 255 ==>
          Magnitude(Exponent64(w), Fraction64(w), 0x10_0000_0000_0000)
          == Magnitude(Exponent32(bits), Fraction32(bits), 0x80_0000) * Pow2(unit))
  }

  lemma JoinedParts(bits: nat, exponent: nat, fraction: nat, unit: nat)
    requires bits < 0x1_0000_0000 && exponent < 2048 && fraction < 0x10_0000_0000_0000
    requires Exponent32(bits) == 255 <==> exponent == 2047
    requires Exponent32(bits) == 255 ==> (Fraction32(bits) == 0 <==> fraction == 0)
    requires Exponent32(bits) < 255 ==>
               Magnitude(exponent, fraction, 0x10_0000_0000_0000)
               == Magnitude(Exponent32(bits), Fraction32(bits), 0x80_0000) * Pow2(unit)
    ensures SameValue(bits, Joined(Sign32(bits), exponent, fraction), unit)
    ensures Joined(Sign32(bits), exponent, fraction) < 0x1_0000_0000_0000_0000
  {
    Parts(Sign32(bits), exponent, fraction);
  }

  lemma KeepsSpecial(bits: nat, unit: nat)
    requires bits < 0x1_0000_0000 && unit == 925 && Exponent32(bits) == 255
    ensures 0 <= Widened(bits) < 0x1_0000_0000_0000_0000 && SameValue(bits, Widened(bits), unit)
  {
    WidenedSpecial(bits);
    var f: nat :| f < 0x80_0000 && (f == 0 <==> Fraction32(bits) == 0)
                  && Widened(bits) == Joined(Sign32(bits), 2047, 0x2000_0000 * f);
    JoinedParts(bits, 2047, 0x2000_0000 * f, unit);
  }

  lemma KeepsNormal(bits: nat, unit: nat)
    requires bits < 0x1_0000_0000 && unit == 925 && 0 < Exponent32(bits) < 255
    ensures 0 <= Widened(bits) < 0x1_0000_0000_0000_0000 && SameValue(bits, Widened(bits), unit)
  {
    WidenedNormal(bits);
    NormalScales(Exponent32(bits), Fraction32(bits), unit);
    JoinedParts(bits, Exponent32(bits) + 896, 0x2000_0000 * Fraction32(bits), unit);
  }

  lemma KeepsZero(bits: nat, unit: nat)
    requires bits < 0x1_0000_0000 && unit == 925 && Exponent32(bits) == 0 && Fraction32(bits) == 0
    ensures 0 <= Widened(bits) < 0x1_0000_0000_0000_0000 && SameValue(bits, Widened(bits), unit)
  {
    JoinedParts(bits, 0, 0, unit);
    assert Widened(bits) == Joined(Sign32(bits), 0, 0);
  }

  lemma KeepsSubnormal(bits: nat, unit: nat)
    requires bits < 0x1_0000_0000 && unit == 925 && Exponent32(bits) == 0 && Fraction32(bits) > 0
    ensures 0 <= Widened(bits) < 0x1_0000_0000_0000_0000 && SameValue(bits, Widened(bits), unit)
  {
    var k := WidenedSubnormal(bits);
    SubnormalScales(Fraction32(bits), k, unit);
    JoinedParts(bits, 897 - k, 0x2000_0000 * (Fraction32(bits) * Pow2(k) - 0x80_0000), unit);
  }

  lemma WidenedKeepsValue(bits: nat, unit: nat)
    requires bits < 0x1_0000_0000 && unit == 925
    ensures 0 <= Widened(bits) < 0x1_0000_0000_0000_0000 && SameValue(bits, Widened(bits), unit)
  {
    if Exponent32(bits) == 255 {
      KeepsSpecial(bits, unit);
    } else if Exponent32(bits) > 0 {
      KeepsNormal(bits, unit);
    } else if Fraction32(bits) == 0 {
      KeepsZero(bits, unit);
    } else {
      KeepsSubnormal(bits, unit);
    }
  }
}
