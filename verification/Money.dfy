/** Rounding to cents, halves away from zero, and what it does to sums. */
module Money {

  function Nearest(x: real): int {
    if x >= 0.0 then (x + 0.5).Floor else -((0.5 - x).Floor)
  }

  function Cents(n: int): real { n as real / 100.0 }

  function Round2(v: real): real { Cents(Nearest(v * 100.0)) }

  /** A whole number of cents. */
  ghost predicate IsCents(v: real) { exists n :: v == Cents(n) }

  lemma NearestClose(x: real)
    ensures -0.5 <= Nearest(x) as real - x <= 0.5
  {
  }

  lemma NearestMonotone(x: real, y: real)
    requires x <= y
    ensures Nearest(x) <= Nearest(y)
  {
    if x < 0.0 <= y {
      NearestClose(x);
      assert Nearest(x) as real < 0.5 + 0.5;
      assert Nearest(x) <= 0 <= Nearest(y);
    }
  }

  lemma NearestOfInt(n: int)
    ensures Nearest(n as real) == n
  {
    NearestClose(n as real);
    var d := Nearest(n as real) - n;
    assert d as real == Nearest(n as real) as real - n as real;
    if n >= 0 {
      assert (n as real + 0.5).Floor == n;
    } else {
      assert (0.5 - n as real).Floor == -n;
    }
  }

  /** Halves go away from zero. */
  lemma HalvesGoAway(n: nat)
    ensures Nearest(n as real + 0.5) == n + 1 && Nearest(-(n as real) - 0.5) == 0 - n - 1
  {
    assert (n as real + 0.5 + 0.5).Floor == ((n + 1) as real).Floor == n + 1;
    assert (0.5 - (-(n as real) - 0.5)).Floor == ((n + 1) as real).Floor == n + 1;
  }

  lemma Round2Close(v: real)
    ensures -0.005 <= Round2(v) - v <= 0.005
    ensures IsCents(Round2(v))
    ensures v >= 0.0 ==> Round2(v) >= 0.0
  {
    NearestClose(v * 100.0);
  }

  lemma Round2Monotone(a: real, b: real)
    requires a <= b
    ensures Round2(a) <= Round2(b)
  {
    NearestMonotone(a * 100.0, b * 100.0);
  }

  /** Rounding changes nothing that is in cents already. */
  lemma Round2Cents(v: real)
    requires IsCents(v)
    ensures Round2(v) == v
  {
    var n :| v == Cents(n);
    assert v * 100.0 == n as real;
    NearestOfInt(n);
  }

  lemma CentsAdd(a: real, b: real)
    requires IsCents(a) && IsCents(b)
    ensures IsCents(a + b)
  {
    var m :| a == Cents(m);
    var n :| b == Cents(n);
    assert a + b == Cents(m + n);
  }
}
