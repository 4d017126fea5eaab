/**
 What the plotted pixels have to do with the ideal line: their distance from it, which of them
 are the nearest in their row or column, that they are connected, and where they end.
 */
module LineLaws {
  import opened Bresenham

  /** How far a pixel lies off the ideal line from a to b, times the length of that line:
      the cross product of the two directions, zero exactly on the line. */
  function Off(a: Point, b: Point, p: Point): int {
    (p.x - a.x) * (b.y - a.y) - (p.y - a.y) * (b.x - a.x)
  }

  /** The minor error after k minor and i major steps. */
  function Error(k: int, i: nat, minor: nat, major: nat): int {
    k * major - i * minor
  }

  lemma ErrorIsCycle(i: nat, minor: nat, major: nat)
    requires minor <= major && major > 0
    ensures var k := MinorSteps(i, minor, major); var e := Error(k, i, minor, major);
            && e == major / 2 - Cycle(i, k, minor, major)
            && major / 2 - major <= e <= major / 2
            && (e == major / 2 ==> Reach(i, minor, major) == 0)
  {
    StepsUnique(i, MinorSteps(i, minor, major), minor, major);
  }

  /** The accumulated remainder is a full major distance exactly when Reach is a multiple of it. */
  lemma FullCycle(i: nat, minor: nat, major: nat)
    requires major > 0
    ensures Cycle(i, MinorSteps(i, minor, major), minor, major) == major <==>
            Reach(i, minor, major) > 0 && Reach(i, minor, major) % major == 0
  {
    var k, n := MinorSteps(i, minor, major), Reach(i, minor, major);
    StepsUnique(i, k, minor, major);
    DivBounds(n, major);
    var q := DivAtLeastZero(n, major);
    if n > 0 {
      assert n == q * major + n % major;
      if n - k * major == major {
        assert (k + 1) * major == n;
        DivUnique(n, major, k + 1);
      } else {
        DivUnique(n, major, k);
      }
    }
  }

  /** With an odd major distance the rounding of its half costs the best pixel here. */
  predicate HalfLost(i: nat, minor: nat, major: nat)
    requires major > 0
  {
    major % 2 == 1 && Reach(i, minor, major) > 0 && Reach(i, minor, major) % major == 0
  }

  lemma ErrorExact(i: nat, minor: nat, major: nat)
    requires minor <= major && major > 0
    ensures var e := Error(MinorSteps(i, minor, major), i, minor, major);
            && 2 * Abs(e) <= major + 1
            && (HalfLost(i, minor, major) <==> 2 * Abs(e) == major + 1)
  {
    ErrorIsCycle(i, minor, major);
    FullCycle(i, minor, major);
    StepsUnique(i, MinorSteps(i, minor, major), minor, major);
  }

  /** Any other number of minor steps is off by whole major distances. */
  lemma OtherError(k: nat, other: nat, i: nat, minor: nat, major: nat)
    requires k != other && 2 * Abs(Error(k, i, minor, major)) <= major
    ensures Abs(Error(k, i, minor, major)) <= Abs(Error(other, i, minor, major))
  {
    var e, f := Error(k, i, minor, major), Error(other, i, minor, major);
    assert f - e == (other - k) * major;
    if k < other {
      Monotone(1, other - k, major);
    } else {
      Monotone(1, k - other, major);
      assert (other - k) * major == 0 - (k - other) * major;
    }
  }

  ghost predicate Best(k: nat, i: nat, minor: nat, major: nat) {
    forall other: nat :: Abs(Error(k, i, minor, major)) <= Abs(Error(other, i, minor, major))
  }

  /** The algorithm picks the nearest pixel of every column (or row) - except exactly where
      HalfLost says so, where the next one would have been nearer. */
  lemma NearestExactly(i: nat, minor: nat, major: nat)
    requires minor <= major && major > 0
    ensures Best(MinorSteps(i, minor, major), i, minor, major) <==> !HalfLost(i, minor, major)
  {
    var k := MinorSteps(i, minor, major);
    ErrorExact(i, minor, major);
    if HalfLost(i, minor, major) {
      ErrorIsCycle(i, minor, major);
      assert Error(k + 1, i, minor, major) == Error(k, i, minor, major) + major by {
        assert (k + 1) * major == k * major + major;
      }
      assert Abs(Error(k + 1, i, minor, major)) < Abs(Error(k, i, minor, major));
    } else {
      forall other: nat ensures Abs(Error(k, i, minor, major)) <= Abs(Error(other, i, minor, major)) {
        if other != k {
          OtherError(k, other, i, minor, major);
        }
      }
    }
  }

  // ---- In the plane ----

  lemma NoMinorSteps(i: nat, major: nat)
    ensures MinorSteps(i, 0, major) == 0
  {
    if major > 0 {
      StepsUnique(i, 0, 0, major);
    }
  }

  lemma SignedProduct(k: nat, s: int, d: int)
    ensures Along(k, s) * d == Sgn(s) * Sgn(d) * (k * Abs(d))
  {
    assert (0 - k) * d == 0 - k * d && k * (0 - d) == 0 - k * d;
  }

  lemma CrossProduct(k: nat, i: nat, dx: int, dy: int)
    requires dx == 0 ==> k == 0
    requires dy == 0 ==> dx == 0
    ensures Abs(Along(k, dx) * dy - Along(i, dy) * dx) == Abs(k * Abs(dy) - i * Abs(dx))
  {
    SignedProduct(k, dx, dy);
    SignedProduct(i, dy, dx);
    SameSign(Sgn(dx), Sgn(dy), k * Abs(dy), i * Abs(dx));
  }

  lemma SameSign(s: int, t: int, m: nat, n: nat)
    requires -1 <= s <= 1 && -1 <= t <= 1
    requires s == 0 || t == 0 ==> m == 0 && n == 0
    ensures Abs(s * t * m - t * s * n) == Abs(m - n)
  {
  }

  /** Signs and octants do not matter: how far a pixel is off is the minor error. */
  lemma OffIsError(a: Point, b: Point, i: nat)
    ensures Abs(Off(a, b, Pixel(a, b, i))) ==
            Abs(Error(MinorSteps(i, Minor(a, b), Major(a, b)), i, Minor(a, b), Major(a, b)))
  {
    var dx, dy := b.x - a.x, b.y - a.y;
    var k := MinorSteps(i, Minor(a, b), Major(a, b));
    NoMinorSteps(i, Major(a, b));
    if Steep(a, b) {
      CrossProduct(k, i, dx, dy);
    } else {
      CrossProduct(k, i, dy, dx);
      assert Off(a, b, Pixel(a, b, i)) == Along(i, dx) * dy - Along(k, dy) * dx;
    }
  }

  lemma PixelClose(a: Point, b: Point, i: nat)
    requires i <= Major(a, b)
    ensures 2 * Abs(Off(a, b, Pixel(a, b, i))) <= Major(a, b) + 1
  {
    OffIsError(a, b, i);
    ErrorSmall(i, Minor(a, b), Major(a, b));
  }

  lemma ErrorSmall(i: nat, minor: nat, major: nat)
    requires minor <= major && i <= major
    ensures 2 * Abs(Error(MinorSteps(i, minor, major), i, minor, major)) <= major + 1
  {
    if major > 0 {
      ErrorExact(i, minor, major);
    }
  }

  /** Every pixel is within half a pixel of the line, rounded up, in all octants. */
  lemma CloseToTheLine(a: Point, b: Point, j: nat)
    requires j < |Pixels(a, b)|
    ensures 2 * Abs(Off(a, b, Pixels(a, b)[j])) <= Major(a, b) + 1
  {
    if j <= Major(a, b) {
      PixelClose(a, b, j);
      assert Pixels(a, b)[j] == Pixel(a, b, j);
    } else {
      assert Pixels(a, b)[j] == b;
      Commute(b.x - a.x, b.y - a.y);
    }
  }

  lemma Commute(m: int, n: int)
    ensures m * n == n * m
  {
  }

  /** No gaps: each pixel touches the one before, along both axes at most one apart. */
  lemma Connected(a: Point, b: Point, j: nat)
    requires j + 1 < |Pixels(a, b)|
    ensures var p, q := Pixels(a, b)[j], Pixels(a, b)[j + 1];
            Abs(q.x - p.x) <= 1 && Abs(q.y - p.y) <= 1
  {
    if j < Major(a, b) {
      PixelNext(a, b, j);
    } else {
      LastPixel(a, b);
    }
  }

  lemma FirstAndLast(a: Point, b: Point)
    ensures Pixels(a, b)[0] == Pixel(a, b, 0)
    ensures Pixels(a, b)[|Pixels(a, b)| - 1] == if Steep(a, b) then Pixel(a, b, Major(a, b)) else b
  {
  }

  /** The line starts at a and ends at b, unless it is a diagonal of one pixel. */
  lemma Ends(a: Point, b: Point)
    ensures Pixels(a, b)[0] == a
    ensures Pixels(a, b)[|Pixels(a, b)| - 1] == b <==> !(Abs(b.x - a.x) == 1 && Abs(b.y - a.y) == 1)
  {
    FirstAndLast(a, b);
    PixelStart(a, b);
    LastPixel(a, b);
  }

  /** One pixel for each place along the longer axis, in order. A line that is longer across has
      its last pixel drawn once more. */
  lemma OnePixelAPlace(a: Point, b: Point, j: nat)
    requires j <= Major(a, b)
    ensures var dx, dy := if b.x >= a.x then b.x - a.x else a.x - b.x, if b.y >= a.y then b.y - a.y else a.y - b.y;
            if dx <= dy then
              |Pixels(a, b)| == dy + 1 && Pixels(a, b)[j].y == if b.y >= a.y then a.y + j else a.y - j
            else
              && |Pixels(a, b)| == dx + 2 && Pixels(a, b)[dx + 1] == b
              && Pixels(a, b)[j].x == if b.x >= a.x then a.x + j else a.x - j
  {
    assert Pixels(a, b)[j] == Pixel(a, b, j);
  }

  // ---- Where it fails ----

  lemma TwoPixels(a: Point, b: Point)
    requires Steep(a, b) && Major(a, b) == 1
    ensures Pixels(a, b) == [Pixel(a, b, 0), Pixel(a, b, 1)]
  {
  }

  lemma NoMinorStepYet(minor: nat, major: nat)
    requires minor == 1 && major == 1
    ensures MinorSteps(1, minor, major) == 0
  {
    assert Cycle(1, 0, minor, major) == 1;
    StepsUnique(1, 0, minor, major);
  }

  lemma PixelStraightDown(a: Point, b: Point, i: nat)
    requires Steep(a, b) && MinorSteps(i, Abs(b.x - a.x), Abs(b.y - a.y)) == 0
    ensures Pixel(a, b, i) == Point(a.x, a.y + Along(i, b.y - a.y))
  {
  }

  lemma DiagonalPixels(a: Point, b: Point)
    requires Abs(b.x - a.x) == 1 && Abs(b.y - a.y) == 1
    ensures Pixel(a, b, 0) == a && Pixel(a, b, 1) == Point(a.x, a.y + Along(1, b.y - a.y))
  {
    PixelStart(a, b);
    NoMinorStepYet(Abs(b.x - a.x), Abs(b.y - a.y));
    PixelStraightDown(a, b, 1);
  }

  lemma UnitStep(d: int)
    requires Abs(d) == 1
    ensures Along(1, d) == d
  {
  }

  /** A diagonal of one pixel ends beside its end point, in all four directions. */
  lemma DiagonalMissed(a: Point, b: Point)
    requires Abs(b.x - a.x) == 1 && Abs(b.y - a.y) == 1
    ensures Pixels(a, b) == [a, Point(a.x, b.y)]
  {
    TwoPixels(a, b);
    DiagonalPixels(a, b);
    UnitStep(b.y - a.y);
  }

  lemma FirstStepOfThree(minor: nat, major: nat)
    requires minor == 2 && major == 3
    ensures HalfLost(1, minor, major) && Error(0, 1, minor, major) == -2 && Error(1, 1, minor, major) == 1
    ensures !Best(0, 1, minor, major)
  {
    assert Reach(1, minor, major) == 3;
  }

  /** Three pixels to the right and two down, the second pixel plotted is (1, 0) from the start,
      but (1, 1) would have been nearer. */
  lemma SecondBestPlotted(a: Point, b: Point)
    requires b.x == a.x + 3 && b.y == a.y + 2
    ensures Pixels(a, b)[1] == Point(a.x + 1, a.y)
    ensures Abs(Off(a, b, Point(a.x + 1, a.y + 1))) < Abs(Off(a, b, Point(a.x + 1, a.y)))
  {
    PixelStart(a, b);
    PixelNext(a, b, 0);
    assert Pixels(a, b)[1] == Pixel(a, b, 1);
  }
}
