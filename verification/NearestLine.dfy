/** Which lines the algorithm draws without a flaw: for which distances every pixel is the nearest. */
module NearestLine {
  import opened Bresenham
  import opened LineLaws

  /** The distances have a common factor, so the line passes through grid points in between. */
  ghost predicate CommonFactor(minor: nat, major: nat) {
    exists g: nat :: g > 1 && minor % g == 0 && major % g == 0
  }

  ghost predicate AllNearest(minor: nat, major: nat) {
    forall i: nat :: i <= major ==> Best(MinorSteps(i, minor, major), i, minor, major)
  }

  lemma Scaled(g: nat, p: int)
    ensures p > 0 ==> g * p >= g
    ensures p < 0 ==> g * p <= 0 - g
  {
  }

  lemma MultipleOf(a: int, g: nat, u: int)
    requires g > 0 && a == g * u
    ensures a % g == 0
  {
    var q := a / g;
    assert a % g == g * (u - q);
    Scaled(g, u - q);
  }

  lemma Regroups(b: int, q: int, r: int, x: int, y: int)
    ensures b * x + r * y == (q * b + r) * y + b * (x - q * y)
  {
  }

  lemma Factors(g: int, q: int, u: int, v: int)
    ensures q * (g * u) + g * v == g * (q * u + v)
  {
  }

  /** Euclid's algorithm, with the factors it finds. */
  lemma {:induction false} Bezout(a: nat, b: nat) returns (g: nat, x: int, y: int, u: int, v: int)
    requires a > 0 || b > 0
    ensures g > 0 && a == g * u && b == g * v && a * x + b * y == g
    decreases b
  {
    if b == 0 {
      g, x, y, u, v := a, 1, 0, 1, 0;
    } else {
      var q, r := a / b, a % b;
      var x', y', u', v';
      g, x', y', u', v' := Bezout(b, r);
      Regroups(b, q, r, x', y');
      Factors(g, q, u', v');
      x, y := y', x' - q * y';
      u, v := q * u' + v', u';
    }
  }

  lemma NoFactorOfOne(g: nat, z: int)
    requires g * z == 1
    ensures g <= 1
  {
    Scaled(g, z);
  }

  lemma Cancels(g: int, a: int, b: int, i: int, q: int, h: int)
    requires g * b == 2 * h + 1 && h + i * (g * a) == q * (g * b)
    ensures g * (b + 2 * (i * a) - 2 * (q * b)) == 1
  {
    assert i * (g * a) == g * (i * a);
    assert q * (g * b) == g * (q * b);
  }

  lemma HalfOfMultiple(g: nat, a: int, b: int, i: int, q: int, h: int)
    requires g > 1 && g * b == 2 * h + 1
    ensures h + i * (g * a) != q * (g * b)
  {
    if h + i * (g * a) == q * (g * b) {
      Cancels(g, a, b, i, q, h);
      NoFactorOfOne(g, b + 2 * (i * a) - 2 * (q * b));
    }
  }

  lemma WholeQuotient(n: nat, m: nat) returns (q: int)
    requires m > 0 && n % m == 0
    ensures n == q * m
  {
    q := n / m;
  }

  /** With a common factor no half is lost. */
  lemma FactorKeepsHalf(i: nat, minor: nat, major: nat)
    requires major > 0 && CommonFactor(minor, major)
    ensures !HalfLost(i, minor, major)
  {
    if HalfLost(i, minor, major) {
      var q := WholeQuotient(Reach(i, minor, major), major);
      var g: nat :| g > 1 && minor % g == 0 && major % g == 0;
      HalfOfMultiple(g, minor / g, major / g, i, q, major / 2);
    }
  }

  lemma Inverse(h: int, i: int, q: int, x: int, y: int, minor: int, major: int)
    requires minor * x + major * y == 1 && 0 - h * x == q * major + i
    ensures h + i * minor == major * (h * y - q * minor)
  {
    assert i * minor == (0 - h * x - q * major) * minor;
    assert (h * x) * minor == h * (minor * x);
    assert h * (minor * x) == h * (1 - major * y);
    assert h * (major * y) == major * (h * y);
    assert (q * major) * minor == major * (q * minor);
    assert (0 - h * x - q * major) * minor == 0 - (h * x) * minor - (q * major) * minor;
  }

  /** Without one, half a pixel is lost somewhere on every line with an odd major distance. */
  lemma HalfLostSomewhere(minor: nat, major: nat) returns (i: nat)
    requires 0 < minor <= major && major % 2 == 1 && !CommonFactor(minor, major)
    ensures i <= major && HalfLost(i, minor, major)
  {
    if major == 1 {
      i := 1;
      return;
    }
    var g, x, y, u, v := Bezout(minor, major);
    MultipleOf(minor, g, u);
    MultipleOf(major, g, v);
    assert g == 1;
    var h := major / 2;
    var q := (0 - h * x) / major;
    i := (0 - h * x) % major;
    Inverse(h, i, q, x, y, minor, major);
    MultipleOf(Reach(i, minor, major), major, h * y - q * minor);
  }

  /** Every pixel of the line is the nearest exactly when the longer distance is even, the
      line is straight along an axis, or the two distances have a common factor. */
  lemma AllNearestExactly(minor: nat, major: nat)
    requires minor <= major && major > 0
    ensures AllNearest(minor, major) <==> major % 2 == 0 || minor == 0 || CommonFactor(minor, major)
  {
    if major % 2 == 0 || minor == 0 || CommonFactor(minor, major) {
      forall i: nat | i <= major ensures Best(MinorSteps(i, minor, major), i, minor, major) {
        NearestExactly(i, minor, major);
        if CommonFactor(minor, major) {
          FactorKeepsHalf(i, minor, major);
        } else if minor == 0 {
          StraightKeepsHalf(i, major);
        }
      }
    } else {
      var i := HalfLostSomewhere(minor, major);
      NearestExactly(i, minor, major);
    }
  }

  lemma StraightKeepsHalf(i: nat, major: nat)
    requires major > 0
    ensures !HalfLost(i, 0, major)
  {
    var n := Reach(i, 0, major);
    assert n == major / 2 < major;
  }
}
