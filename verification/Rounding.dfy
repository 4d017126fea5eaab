/**
 The branch-free divisions by powers of two of the video decoder's headers, and what each of
 them means: truncation toward zero, and rounding to nearest with ties away from zero or to
 the even quotient.
 */
module Rounding {

  function Pow2(s: nat): (p: nat)
    ensures p > 0
  {
    if s == 0 then 1 else 2 * Pow2(s - 1)
  }

  // ---- The machine's operations, on two's complement ----

  /** x >> s, the shift that keeps the sign. */
  function ShiftRight(x: int, s: nat): int {
    x / Pow2(s)
  }

  /** All ones for a negative number, all zeros otherwise. */
  function SignMask(x: int): int {
    if x < 0 then -1 else 0
  }

  /** mask & v for a mask of all ones or all zeros. */
  function Masked(mask: int, v: int): int
    requires mask == -1 || mask == 0
  {
    if mask == -1 then v else 0
  }

  /** x & 1. */
  function LowBit(x: int): int {
    x % 2
  }

  // ---- The macros ----

  function DivPow2(x: int, s: nat, rmask: int): int {
    ShiftRight(x + Masked(SignMask(x), rmask), s)
  }

  function DivRoundPow2(x: int, s: nat, rval: int): int {
    ShiftRight(x + SignMask(x) + rval, s)
  }

  function Div2Re(x: int): int {
    ShiftRight(x + LowBit(ShiftRight(x, 1)), 1)
  }

  function DivPow2Re(x: int, s: nat): int {
    ShiftRight(x + LowBit(ShiftRight(x, s)) + ShiftRight(Pow2(s) - 1, 1), s)
  }

  // ---- What they are to compute ----

  function Abs(x: int): nat {
    if x < 0 then -x else x
  }

  /** q is x / d with its fraction cut off. */
  predicate Truncated(q: int, x: int, d: int) {
    && Abs(q * d) <= Abs(x) < Abs(q * d) + d
    && (x >= 0 ==> q >= 0) && (x <= 0 ==> q <= 0)
  }

  predicate Nearest(q: int, x: int, d: int) {
    2 * Abs(x - q * d) <= d
  }

  predicate Tie(q: int, x: int, d: int) {
    2 * Abs(x - q * d) == d
  }

  /** q is the integer nearest to x / d and, between two, the one further from zero. */
  predicate NearestAway(q: int, x: int, d: int) {
    Nearest(q, x, d) && (Tie(q, x, d) ==> Abs(q * d) > Abs(x))
  }

  /** q is the integer nearest to x / d and, between two, the even one. */
  predicate NearestEven(q: int, x: int, d: int) {
    Nearest(q, x, d) && (Tie(q, x, d) ==> q % 2 == 0)
  }

  // ---- Quotients ----

  /** The quotient rounded down is the one integer with this property. */
  lemma FloorIs(n: int, d: int, q: int)
    requires d > 0
    ensures n / d == q <==> q * d <= n < q * d + d
  {
    var f := n / d;
    assert n == f * d + n % d;
    if f < q {
      Ordered(f + 1, q, d);
      assert (f + 1) * d == f * d + d;
    }
    if q < f {
      Ordered(q + 1, f, d);
      assert (q + 1) * d == q * d + d;
    }
  }

  lemma Ordered(a: int, b: int, d: int)
    requires a <= b && d >= 0
    ensures a * d <= b * d
  {
  }

  /** The sign of a multiple, and that it is zero or at least d. */
  lemma Multiple(q: int, d: int)
    requires d > 0
    ensures q > 0 ==> q * d >= d
    ensures q < 0 ==> q * d <= 0 - d
    ensures q == 0 ==> q * d == 0
  {
    if q > 0 {
      Ordered(1, q, d);
    } else if q < 0 {
      Ordered(q, -1, d);
    }
  }

  lemma HalfMask(s: nat)
    requires s >= 1
    ensures ShiftRight(Pow2(s) - 1, 1) == Pow2(s - 1) - 1
  {
    FloorIs(Pow2(s) - 1, 2, Pow2(s - 1) - 1);
    assert Pow2(1) == 2;
  }

  // ---- The theorems ----

  /** Truncation toward zero, for every dividend and every shift. */
  lemma DivPow2Truncates(x: int, s: nat, q: int)
    ensures DivPow2(x, s, Pow2(s) - 1) == q <==> Truncated(q, x, Pow2(s))
  {
    var d := Pow2(s);
    Multiple(q, d);
    if x >= 0 {
      FloorIs(x, d, q);
    } else {
      FloorIs(x + d - 1, d, q);
    }
  }

  lemma RoundsAway(x: int, h: int, q: int)
    requires h > 0
    ensures (x + SignMask(x) + h) / (2 * h) == q <==> NearestAway(q, x, 2 * h)
  {
    FloorIs(x + SignMask(x) + h, 2 * h, q);
    Multiple(q, 2 * h);
  }

  /** Rounding to nearest, ties away from zero, when half the divisor is passed for rval. */
  lemma DivRoundPow2RoundsAway(x: int, s: nat, q: int)
    requires s >= 1
    ensures DivRoundPow2(x, s, Pow2(s - 1)) == q <==> NearestAway(q, x, Pow2(s))
  {
    RoundsAway(x, Pow2(s - 1), q);
  }

  lemma EvenRound(x: int, h: int)
    requires h > 0
    ensures var d := 2 * h; var k := x / d; var e := (x + k % 2 + h - 1) / d;
            && (e == k || e == k + 1)
            && (x - k * d < h ==> e == k) && (x - k * d > h ==> e == k + 1)
            && (x - k * d == h ==> e % 2 == 0)
  {
    var d := 2 * h;
    var k := x / d;
    FloorIs(x, d, k);
    FloorIs(x + k % 2 + h - 1, d, k);
    FloorIs(x + k % 2 + h - 1, d, k + 1);
    assert (k + 1) * d == k * d + d;
  }

  lemma NearestIsBeside(x: int, h: int, q: int)
    requires h > 0 && Nearest(q, x, 2 * h)
    ensures q == x / (2 * h) || q == x / (2 * h) + 1
  {
    var d := 2 * h;
    var k := x / d;
    FloorIs(x, d, k);
    assert (k + 1) * d == k * d + d;
    if q < k {
      Ordered(q, k - 1, d);
    }
    if q > k + 1 {
      Ordered(k + 2, q, d);
    }
  }

  lemma EvenIsNearest(x: int, h: int)
    requires h > 0
    ensures NearestEven((x + (x / (2 * h)) % 2 + h - 1) / (2 * h), x, 2 * h)
  {
    var k := x / (2 * h);
    FloorIs(x, 2 * h, k);
    EvenRound(x, h);
    assert (k + 1) * (2 * h) == k * (2 * h) + 2 * h;
  }

  /** Two neighbours are both nearest only in a tie, and only one of them is even. */
  lemma OneIsEven(k: int, x: int, h: int)
    requires h > 0
    ensures !(NearestEven(k, x, 2 * h) && NearestEven(k + 1, x, 2 * h))
  {
    assert (k + 1) * (2 * h) == k * (2 * h) + 2 * h;
  }

  lemma RoundsEven(x: int, h: int, q: int)
    requires h > 0
    ensures (x + (x / (2 * h)) % 2 + h - 1) / (2 * h) == q <==> NearestEven(q, x, 2 * h)
  {
    EvenIsNearest(x, h);
    if NearestEven(q, x, 2 * h) {
      NearestIsBeside(x, h, q);
      NearestIsBeside(x, h, (x + (x / (2 * h)) % 2 + h - 1) / (2 * h));
      OneIsEven(x / (2 * h), x, h);
    }
  }

  /** Rounding to nearest, ties to the even quotient. */
  lemma DivPow2ReRoundsEven(x: int, s: nat, q: int)
    requires s >= 1
    ensures DivPow2Re(x, s) == q <==> NearestEven(q, x, Pow2(s))
  {
    HalfMask(s);
    RoundsEven(x, Pow2(s - 1), q);
  }

  lemma Div2ReRoundsEven(x: int, q: int)
    ensures Div2Re(x) == q <==> NearestEven(q, x, 2)
  {
    assert Pow2(1) == 2;
    RoundsEven(x, 1, q);
  }

  /** The special form for one bit and the general one agree there. */
  lemma Div2ReIsDivPow2Re(x: int)
    ensures Div2Re(x) == DivPow2Re(x, 1)
  {
    Div2ReRoundsEven(x, Div2Re(x));
    assert Pow2(1) == 2;
    DivPow2ReRoundsEven(x, 1, Div2Re(x));
  }

  // ---- With the shifts that the header names, and at the ties ----

  /** OC_DIV2, OC_DIV8, OC_DIV16 and OC_DIV2_16 divide by 2, 8, 16 and 65536. */
  lemma NamedDivisions(x: int, q: int)
    ensures DivPow2(x, 1, 0x1) == q <==> Truncated(q, x, 2)
    ensures DivPow2(x, 3, 0x7) == q <==> Truncated(q, x, 8)
    ensures DivPow2(x, 4, 0xF) == q <==> Truncated(q, x, 16)
    ensures DivPow2(x, 16, 0xFFFF) == q <==> Truncated(q, x, 65536)
  {
    assert Pow2(1) == 2 && Pow2(3) == 8 && Pow2(4) == 16 && Pow2(16) == 65536;
    DivPow2Truncates(x, 1, q);
    DivPow2Truncates(x, 3, q);
    DivPow2Truncates(x, 4, q);
    DivPow2Truncates(x, 16, q);
  }

  /** What becomes of k and a half, and of its negative: k, k + 1, or the even one of them. */
  lemma HalvesRounded(k: int)
    requires k >= 0
    ensures DivPow2(2 * k + 1, 1, 1) == k && DivPow2(-2 * k - 1, 1, 1) == -k
    ensures DivRoundPow2(2 * k + 1, 1, 1) == k + 1 && DivRoundPow2(-2 * k - 1, 1, 1) == -k - 1
    ensures DivPow2Re(2 * k + 1, 1) == k + k % 2 && DivPow2Re(-2 * k - 1, 1) == -(k + k % 2)
  {
    assert Pow2(0) == 1 && Pow2(1) == 2;
    DivPow2Truncates(2 * k + 1, 1, k);
    DivPow2Symmetric(2 * k + 1, 1);
    DivRoundPow2RoundsAway(2 * k + 1, 1, k + 1);
    DivRoundPow2Symmetric(2 * k + 1, 1);
    DivPow2ReRoundsEven(2 * k + 1, 1, k + k % 2);
    DivPow2ReSymmetric(2 * k + 1, 1);
  }

  // ---- None of them prefers a sign ----

  lemma NegatedMultiple(q: int, d: int)
    ensures (-q) * d == -(q * d)
  {
  }

  lemma MirroredNearest(q: int, x: int, d: int)
    ensures Nearest(-q, -x, d) == Nearest(q, x, d) && Tie(-q, -x, d) == Tie(q, x, d)
  {
    NegatedMultiple(q, d);
  }

  lemma DivPow2Symmetric(x: int, s: nat)
    ensures DivPow2(-x, s, Pow2(s) - 1) == -DivPow2(x, s, Pow2(s) - 1)
  {
    var q := DivPow2(x, s, Pow2(s) - 1);
    DivPow2Truncates(x, s, q);
    NegatedMultiple(q, Pow2(s));
    DivPow2Truncates(-x, s, -q);
  }

  lemma DivRoundPow2Symmetric(x: int, s: nat)
    requires s >= 1
    ensures DivRoundPow2(-x, s, Pow2(s - 1)) == -DivRoundPow2(x, s, Pow2(s - 1))
  {
    var q := DivRoundPow2(x, s, Pow2(s - 1));
    DivRoundPow2RoundsAway(x, s, q);
    MirroredNearest(q, x, Pow2(s));
    NegatedMultiple(q, Pow2(s));
    DivRoundPow2RoundsAway(-x, s, -q);
  }

  lemma DivPow2ReSymmetric(x: int, s: nat)
    requires s >= 1
    ensures DivPow2Re(-x, s) == -DivPow2Re(x, s)
  {
    var q := DivPow2Re(x, s);
    DivPow2ReRoundsEven(x, s, q);
    MirroredNearest(q, x, Pow2(s));
    DivPow2ReRoundsEven(-x, s, -q);
  }
}
