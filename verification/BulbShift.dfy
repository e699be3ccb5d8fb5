/**
 Shifting a bulb time by third-stops: one step longer multiplies it by the cube root
 of two, one step shorter divides by it. Floats are modelled as reals and the cast
 back to milliseconds as the floor.
 */
module BulbShift {

  const CUBE_ROOT_OF_2: real := 1.25992104989

  function Power(n: nat): (p: real)
    ensures p >= 1.0
  {
    if n == 0 then 1.0 else Power(n - 1) * CUBE_ROOT_OF_2
  }

  /** The unrounded shifted time. */
  function Scaled(ms: nat, ev: int): (f: real)
    ensures f >= 0.0
  {
    if ev >= 0 then ms as real * Power(ev) else ms as real / Power(-ev)
  }

  function Shifted(ms: nat, ev: int): (r: nat) {
    Scaled(ms, ev).Floor
  }

  /** Shifting by nothing is exact. */
  lemma ShiftedByZero(ms: nat)
    ensures Shifted(ms, 0) == ms
  {
  }

  lemma DivideThenMultiply(m: real, p: real, c: real)
    requires p > 0.0 && c > 0.0
    ensures p * c > 0.0 && m / (p * c) * c == m / p
  {
    var q := m / (p * c);
    assert q * (p * c) == m;
    assert (q * c) * p == q * (p * c);
  }

  lemma Associate(m: real, p: real, c: real)
    ensures m * (p * c) == (m * p) * c
  {
  }

  lemma ScaledStep(ms: nat, ev: int)
    ensures Scaled(ms, ev + 1) == Scaled(ms, ev) * CUBE_ROOT_OF_2
  {
    if ev >= 0 {
      Associate(ms as real, Power(ev), CUBE_ROOT_OF_2);
    } else {
      DivideThenMultiply(ms as real, Power(-ev - 1), CUBE_ROOT_OF_2);
    }
  }

  /** One more third-stop never shortens the time. */
  lemma {:induction false} ShiftedMonotone(ms: nat, low: int, high: int)
    requires low <= high
    ensures Scaled(ms, low) <= Scaled(ms, high)
    ensures Shifted(ms, low) <= Shifted(ms, high)
    decreases high - low
  {
    if low < high {
      ShiftedMonotone(ms, low, high - 1);
      ScaledStep(ms, high - 1);
    }
  }

  /** The time in whole milliseconds, rounded down. */
  lemma RoundedDown(ms: nat, ev: int)
    ensures Shifted(ms, ev) as real <= Scaled(ms, ev) < Shifted(ms, ev) as real + 1.0
    ensures Scaled(ms, 0) == ms as real
  {
  }

  /** Three third-stops double the time, to ten digits. */
  lemma ThreeThirdsDouble(ms: nat, ev: int)
    ensures 1.9999999999 * Scaled(ms, ev) <= Scaled(ms, ev + 3) <= 2.0 * Scaled(ms, ev)
  {
    ScaledStep(ms, ev);
    ScaledStep(ms, ev + 1);
    ScaledStep(ms, ev + 2);
    Cubed(Scaled(ms, ev));
  }

  lemma Cubed(f: real)
    requires f >= 0.0
    ensures 1.9999999999 * f <= f * CUBE_ROOT_OF_2 * CUBE_ROOT_OF_2 * CUBE_ROOT_OF_2 <= 2.0 * f
  {
  }

  // Shifts are kept in signed bytes

  type int8 = x: int | -128 <= x < 128

  /** Conversion to a signed byte. */
  function Wrap8(x: int): (r: int8)
    ensures -128 <= x < 128 ==> r == x
    decreases if x < 0 then -x else x + 1
  {
    if x < -128 then Wrap8(x + 256) else if x >= 128 then Wrap8(x - 256) else x
  }

  /** A step added to a byte. */
  function Add8(s: int8, step: int): (r: int8)
    ensures -128 <= s + step < 128 ==> r == s + step
  {
    Wrap8(s + step)
  }

  lemma WrapPeriod(x: int)
    ensures Wrap8(x + 256) == Wrap8(x)
  {
  }

  /** Sums may be cut to a byte early or late. */
  lemma {:induction false} WrapSum(x: int, y: int)
    ensures Wrap8(Wrap8(x) + y) == Wrap8(x + y)
    decreases if x < 0 then -x else x + 1
  {
    if x < -128 {
      WrapSum(x + 256, y);
      WrapPeriod(x + y);
    } else if x >= 128 {
      WrapSum(x - 256, y);
      WrapPeriod(x - 256 + y);
    }
  }

  lemma AddChain(s: int8, first: int, second: int)
    ensures Add8(Add8(s, first), second) == Add8(s, first + second)
  {
    WrapSum(s + first, second);
  }

  lemma AddWrapped(s: int8, x: int)
    ensures Add8(s, Add8(0, x)) == Add8(s, x)
  {
    WrapSum(x, s);
  }

  /** The multiplying and dividing loops compute the shifted time. The count that divides
      never reaches 128, so the smallest shift of all would not come to an end. */
  method ShiftBulb(ms: nat, ev: int8) returns (r: nat)
    requires ev > -128
    ensures r == Shifted(ms, ev)
  {
    var f := ms as real;
    if ev > 0 {
      for i := 0 to ev
        invariant f == Scaled(ms, i)
      {
        ScaledStep(ms, i);
        f := f * CUBE_ROOT_OF_2;
      }
    } else if ev < 0 {
      for i := 0 to -ev
        invariant f == Scaled(ms, -i)
      {
        ScaledStep(ms, -i - 1);
        f := f / CUBE_ROOT_OF_2;
      }
    } else {
      return ms;
    }
    r := f.Floor;
  }
}
