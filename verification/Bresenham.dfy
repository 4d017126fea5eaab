/**
 The line drawing of the diagnostics GUI: the incremental algorithm, the pixels it plots in
 closed form, and how close they are to the line.
 */
module Bresenham {

  datatype Point = Point(x: int, y: int)

  function Sgn(d: int): int {
    if d > 0 then 1 else if d == 0 then 0 else -1
  }

  function Abs(d: int): nat {
    if d > 0 then d else -d
  }

  /** k steps in the direction of d. */
  function Along(k: nat, d: int): int {
    if d > 0 then k else if d == 0 then 0 else 0 - k
  }

  // ---- The pixels in closed form ----

  /** The numerator whose quotient by `major` counts the minor steps after i major steps. */
  function Reach(i: nat, minor: nat, major: nat): nat {
    major / 2 + i * minor
  }

  /** How many minor steps the line has taken after i major steps. */
  function MinorSteps(i: nat, minor: nat, major: nat): (k: nat)
  {
    if major == 0 || Reach(i, minor, major) == 0 then 0 else DivAtLeastZero(Reach(i, minor, major) - 1, major)
  }

  function DivAtLeastZero(a: nat, b: nat): nat
    requires b > 0
  {
    a / b
  }

  predicate Steep(a: Point, b: Point) {
    Abs(b.x - a.x) <= Abs(b.y - a.y)
  }

  /** The pixel after i steps along the longer axis. */
  function Pixel(a: Point, b: Point, i: nat): Point {
    var dx, dy := b.x - a.x, b.y - a.y;
    if Steep(a, b) then Point(a.x + Along(MinorSteps(i, Abs(dx), Abs(dy)), dx), a.y + Along(i, dy))
    else Point(a.x + Along(i, dx), a.y + Along(MinorSteps(i, Abs(dy), Abs(dx)), dy))
  }

  function Major(a: Point, b: Point): nat {
    if Steep(a, b) then Abs(b.y - a.y) else Abs(b.x - a.x)
  }

  /** All pixels from a on, the last of a shallow line plotted twice. */
  function Pixels(a: Point, b: Point): (ps: seq<Point>)
    ensures |ps| == Major(a, b) + (if Steep(a, b) then 1 else 2)
  {
    seq(Major(a, b) + 1, i requires 0 <= i => Pixel(a, b, i)) + (if Steep(a, b) then [] else [b])
  }

  // ---- Quotients ----

  lemma DivBounds(a: nat, m: nat)
    requires m > 0
    ensures var q := DivAtLeastZero(a, m); q * m <= a < q * m + m
  {
    assert a == a / m * m + a % m;
  }

  lemma DivUnique(a: nat, m: nat, k: nat)
    requires m > 0 && k * m <= a < k * m + m
    ensures DivAtLeastZero(a, m) == k
  {
    var q := DivAtLeastZero(a, m);
    DivBounds(a, m);
    if q < k {
      Monotone(q + 1, k, m);
    }
    if k < q {
      Monotone(k + 1, q, m);
    }
  }

  lemma Monotone(a: nat, b: nat, m: nat)
    requires a <= b
    ensures a * m <= b * m
  {
  }

  // ---- The steps ----

  /** What is left over after k minor steps, the `cycle` of the algorithm. */
  function Cycle(i: nat, k: nat, minor: nat, major: nat): int {
    Reach(i, minor, major) - k * major
  }

  /** The number of minor steps is the one that leaves a remainder between 1 and major. */
  lemma StepsUnique(i: nat, k: nat, minor: nat, major: nat)
    requires major > 0
    ensures MinorSteps(i, minor, major) == k <==>
            1 <= Cycle(i, k, minor, major) <= major || (k == 0 && Reach(i, minor, major) == 0)
  {
    var n := Reach(i, minor, major);
    if n > 0 {
      DivBounds(n - 1, major);
      if 1 <= n - k * major <= major {
        DivUnique(n - 1, major, k);
      }
    } else {
      assert k > 0 ==> k * major > 0;
    }
  }

  lemma ReachNext(i: nat, minor: nat, major: nat)
    ensures Reach(i + 1, minor, major) == Reach(i, minor, major) + minor
  {
  }

  /** One round of the algorithm's loop. */
  lemma StepsNext(i: nat, minor: nat, major: nat)
    requires minor <= major && major > 0
    ensures var k := MinorSteps(i, minor, major);
            var cycle := Cycle(i, k, minor, major);
            && 0 <= cycle <= major
            && MinorSteps(i + 1, minor, major) == (if cycle + minor > major then k + 1 else k)
            && Cycle(i + 1, k, minor, major) == cycle + minor
            && Cycle(i + 1, k + 1, minor, major) == cycle + minor - major
  {
    var k := MinorSteps(i, minor, major);
    StepsUnique(i, k, minor, major);
    ReachNext(i, minor, major);
    assert (k + 1) * major == k * major + major;
    StepsUnique(i + 1, k, minor, major);
    StepsUnique(i + 1, k + 1, minor, major);
  }

  lemma StepsStart(minor: nat, major: nat)
    ensures MinorSteps(0, minor, major) == 0 && Cycle(0, 0, minor, major) == major / 2
  {
    if major > 0 {
      StepsUnique(0, 0, minor, major);
    }
  }

  /** The minor steps add up to the whole minor distance - except on the one-pixel diagonal. */
  lemma StepsEnd(minor: nat, major: nat)
    requires minor <= major
    ensures MinorSteps(major, minor, major) == minor <==> !(minor == 1 && major == 1)
  {
    if major > 0 {
      StepsUnique(major, minor, minor, major);
      assert Cycle(major, minor, minor, major) == major / 2;
    }
  }

  // ---- From pixel to pixel ----

  function Minor(a: Point, b: Point): nat {
    if Steep(a, b) then Abs(b.x - a.x) else Abs(b.y - a.y)
  }

  function CycleAt(a: Point, b: Point, i: nat): int {
    Cycle(i, MinorSteps(i, Minor(a, b), Major(a, b)), Minor(a, b), Major(a, b))
  }

  function Cycles(a: Point, b: Point): (cs: seq<int>)
    ensures |cs| == Major(a, b) + 1
  {
    seq(Major(a, b) + 1, i requires 0 <= i => CycleAt(a, b, i))
  }

  /** The pixel one step on: along the longer axis always, along the other when the
      accumulated remainder exceeds the major distance. */
  lemma PixelNext(a: Point, b: Point, i: nat)
    requires i < Major(a, b)
    ensures var p, cycle := Pixel(a, b, i), CycleAt(a, b, i) + Minor(a, b);
            var carry := cycle > Major(a, b);
            && 0 <= CycleAt(a, b, i) <= Major(a, b)
            && CycleAt(a, b, i + 1) == (if carry then cycle - Major(a, b) else cycle)
            && Pixel(a, b, i + 1) ==
               if Steep(a, b) then Point(p.x + (if carry then Sgn(b.x - a.x) else 0), p.y + Sgn(b.y - a.y))
               else Point(p.x + Sgn(b.x - a.x), p.y + (if carry then Sgn(b.y - a.y) else 0))
  {
    var minor, major := Minor(a, b), Major(a, b);
    var k := MinorSteps(i, minor, major);
    StepsNext(i, minor, major);
  }

  lemma PixelStart(a: Point, b: Point)
    ensures Pixel(a, b, 0) == a && CycleAt(a, b, 0) == Major(a, b) / 2
  {
    StepsStart(Minor(a, b), Major(a, b));
  }

  /** The coordinate along the longer axis reaches its end after exactly Major steps. */
  lemma MajorReached(a: Point, b: Point, i: nat)
    requires i <= Major(a, b)
    ensures Steep(a, b) ==> (Pixel(a, b, i).y == b.y <==> i == Major(a, b))
    ensures !Steep(a, b) ==> (Pixel(a, b, i).x == b.x <==> i == Major(a, b))
  {
  }

  /** The last pixel is the end point, unless the line is a diagonal of one pixel. */
  lemma LastPixel(a: Point, b: Point)
    ensures Pixel(a, b, Major(a, b)) == b <==> !(Abs(b.x - a.x) == 1 && Abs(b.y - a.y) == 1)
  {
    var minor, major := Minor(a, b), Major(a, b);
    var k := MinorSteps(major, minor, major);
    StepsEnd(minor, major);
    if minor == 0 && major > 0 {
      StepsUnique(major, 0, 0, major);
    }
  }

  /** One round of the second loop. */
  lemma SteepNext(a: Point, b: Point, i: nat, x: int, y: int, cycle: int)
    requires Steep(a, b) && y != b.y && 0 <= i <= Major(a, b)
    requires Point(x, y) == Pixel(a, b, i) && cycle == CycleAt(a, b, i)
    ensures i < Major(a, b) && 0 <= cycle <= Abs(b.y - a.y)
    ensures var next := cycle + Abs(b.x - a.x);
            var carry := next > Abs(b.y - a.y);
            && CycleAt(a, b, i + 1) == (if carry then next - Abs(b.y - a.y) else next)
            && Pixel(a, b, i + 1) == Point(if carry then x + Sgn(b.x - a.x) else x, y + Sgn(b.y - a.y))
  {
    MajorReached(a, b, i);
    PixelNext(a, b, i);
  }

  lemma OnePixel(a: Point, b: Point)
    requires Steep(a, b) && a.y == b.y
    ensures Pixels(a, b) == [a]
  {
    PixelStart(a, b);
  }

  // ---- The algorithm ----

  const LENGTH_LIMIT := 0x4000_0000

  predicate IsUint32(v: int) {
    0 <= v < 0x1_0000_0000
  }

  /** Any coordinates the parameters can have, less than 2^30 apart: on a longer line the
      accumulated remainder would overflow an int. */
  predicate InReach(a: Point, b: Point) {
    && IsUint32(a.x) && IsUint32(a.y) && IsUint32(b.x) && IsUint32(b.y)
    && Abs(b.x - a.x) < LENGTH_LIMIT && Abs(b.y - a.y) < LENGTH_LIMIT
  }

  /** The difference of two unsigned numbers, stored in an int: modulo 2^32, then signed. */
  function AsInt(d: int): (r: int)
    ensures -0x8000_0000 <= d < 0x8000_0000 ==> r == d
  {
    var u := d % 0x1_0000_0000;
    if u < 0x8000_0000 then u else u - 0x1_0000_0000
  }

  predicate FitsInt(v: int) {
    -0x8000_0000 <= v < 0x8000_0000
  }

  /** The pixels in the order they are drawn. */
  method BresenhamLine(a: Point, b: Point) returns (drawn: seq<Point>)
    requires InReach(a, b)
    ensures drawn == Pixels(a, b)
  {
    var x1, y1 := a.x, a.y;
    var lgDelta, shDelta := AsInt(b.x - x1), AsInt(b.y - y1);
    var lgStep, shStep := Sgn(lgDelta), Sgn(shDelta);
    lgDelta, shDelta := Abs(lgDelta), Abs(shDelta);
    drawn := [];
    if shDelta < lgDelta {
      drawn, x1, y1 := DrawShallow(a, b, lgDelta, shDelta, lgStep, shStep);
    }
    if y1 == b.y && Steep(a, b) {
      OnePixel(a, b);
    }
    if y1 != b.y {
      // Behind the first loop the second one has no step left to take.
      var rest;
      rest, x1, y1 := DrawSteep(a, b, lgDelta, shDelta, lgStep, shStep);
      drawn := drawn + rest;
    }
    drawn := drawn + [Point(x1, y1)];
  }

  lemma ShallowNext(a: Point, b: Point, i: nat, x: int, y: int, cycle: int)
    requires !Steep(a, b) && x != b.x && 0 <= i <= Major(a, b)
    requires Point(x, y) == Pixel(a, b, i) && cycle == CycleAt(a, b, i)
    ensures i < Major(a, b) && 0 <= cycle <= Abs(b.x - a.x)
    ensures var next := cycle + Abs(b.y - a.y);
            var carry := next > Abs(b.x - a.x);
            && CycleAt(a, b, i + 1) == (if carry then next - Abs(b.x - a.x) else next)
            && Pixel(a, b, i + 1) == Point(x + Sgn(b.x - a.x), if carry then y + Sgn(b.y - a.y) else y)
  {
    MajorReached(a, b, i);
    PixelNext(a, b, i);
  }

  /** One round of the first loop. */
  method StepAlongX(ghost a: Point, ghost b: Point, ghost ps: seq<Point>, ghost cs: seq<int>, ghost i: nat,
                    x1: int, y1: int, cycle: int, lgDelta: nat, shDelta: nat, lgStep: int, shStep: int)
      returns (x: int, y: int, left: int)
    requires InReach(a, b) && !Steep(a, b)
    requires lgDelta == Abs(b.x - a.x) && shDelta == Abs(b.y - a.y)
    requires lgStep == Sgn(b.x - a.x) && shStep == Sgn(b.y - a.y)
    requires ps == Pixels(a, b) && cs == Cycles(a, b)
    requires x1 != b.x && i + 1 < |ps| && Point(x1, y1) == ps[i] && cycle == cs[i]
    ensures i + 2 < |ps| && Point(x, y) == ps[i + 1] && left == cs[i + 1]
  {
    ShallowNext(a, b, i, x1, y1, cycle);
    y, left := y1, cycle + shDelta;
    assert FitsInt(left);
    if left > lgDelta {
      left := left - lgDelta;
      y := y + shStep;
    }
    x := x1 + lgStep;
  }

  lemma ShallowEnd(a: Point, b: Point, i: nat)
    requires !Steep(a, b) && i + 1 < |Pixels(a, b)|
    ensures Pixels(a, b)[i].x == b.x <==> i + 2 == |Pixels(a, b)|
    ensures i + 2 == |Pixels(a, b)| ==> Pixels(a, b)[i] == b == Pixels(a, b)[i + 1]
  {
    MajorReached(a, b, i);
    LastPixel(a, b);
  }

  lemma ShallowStart(a: Point, b: Point)
    requires !Steep(a, b)
    ensures Pixels(a, b)[0] == a && Cycles(a, b)[0] == Abs(b.x - a.x) / 2
  {
    PixelStart(a, b);
  }

  /** The first loop, along x, and the pixel drawn behind it. */
  method DrawShallow(a: Point, b: Point, lgDelta: nat, shDelta: nat, lgStep: int, shStep: int)
      returns (drawn: seq<Point>, x1: int, y1: int)
    requires InReach(a, b) && !Steep(a, b)
    requires lgDelta == Abs(b.x - a.x) && shDelta == Abs(b.y - a.y)
    requires lgStep == Sgn(b.x - a.x) && shStep == Sgn(b.y - a.y)
    ensures drawn + [b] == Pixels(a, b) && Point(x1, y1) == b
  {
    x1, y1 := a.x, a.y;
    var cycle := lgDelta / 2;
    ghost var ps, cs, i := Pixels(a, b), Cycles(a, b), 0;
    drawn := [];
    ShallowStart(a, b);
    while x1 != b.x
      invariant 0 <= i < |ps| - 1 && Point(x1, y1) == ps[i] && drawn == ps[..i] && cycle == cs[i]
      decreases |ps| - i
    {
      ShallowEnd(a, b, i);
      drawn := drawn + [Point(x1, y1)];
      x1, y1, cycle := StepAlongX(a, b, ps, cs, i, x1, y1, cycle, lgDelta, shDelta, lgStep, shStep);
      i := i + 1;
    }
    ShallowEnd(a, b, i);
    drawn := drawn + [Point(x1, y1)];
  }

  /** One round of the second loop. */
  method StepAlongY(ghost a: Point, ghost b: Point, ghost ps: seq<Point>, ghost cs: seq<int>, ghost i: nat,
                    x1: int, y1: int, cycle: int, lgDelta: nat, shDelta: nat, lgStep: int, shStep: int)
      returns (x: int, y: int, left: int)
    requires InReach(a, b) && Steep(a, b)
    requires lgDelta == Abs(b.x - a.x) && shDelta == Abs(b.y - a.y)
    requires lgStep == Sgn(b.x - a.x) && shStep == Sgn(b.y - a.y)
    requires ps == Pixels(a, b) && cs == Cycles(a, b)
    requires y1 != b.y && i < |ps| && Point(x1, y1) == ps[i] && cycle == cs[i]
    ensures i + 1 < |ps| && Point(x, y) == ps[i + 1] && left == cs[i + 1]
  {
    SteepNext(a, b, i, x1, y1, cycle);
    x, left := x1, cycle + lgDelta;
    assert FitsInt(left);
    if left > shDelta {
      left := left - shDelta;
      x := x + lgStep;
    }
    y := y1 + shStep;
  }

  lemma SteepEnd(a: Point, b: Point, i: nat)
    requires Steep(a, b) && i < |Pixels(a, b)|
    ensures Pixels(a, b)[i].y == b.y <==> i + 1 == |Pixels(a, b)|
  {
    MajorReached(a, b, i);
  }

  lemma SteepStart(a: Point, b: Point)
    requires Steep(a, b)
    ensures Pixels(a, b)[0] == a && Cycles(a, b)[0] == Abs(b.y - a.y) / 2
  {
    PixelStart(a, b);
  }

  /** The second loop, along y, up to the pixel drawn behind it. */
  method DrawSteep(a: Point, b: Point, lgDelta: nat, shDelta: nat, lgStep: int, shStep: int)
      returns (drawn: seq<Point>, x1: int, y1: int)
    requires InReach(a, b) && Steep(a, b)
    requires lgDelta == Abs(b.x - a.x) && shDelta == Abs(b.y - a.y)
    requires lgStep == Sgn(b.x - a.x) && shStep == Sgn(b.y - a.y)
    ensures drawn + [Point(x1, y1)] == Pixels(a, b)
  {
    x1, y1 := a.x, a.y;
    var cycle := shDelta / 2;
    ghost var ps, cs, i := Pixels(a, b), Cycles(a, b), 0;
    drawn := [];
    SteepStart(a, b);
    while y1 != b.y
      invariant 0 <= i < |ps| && Point(x1, y1) == ps[i] && drawn == ps[..i] && cycle == cs[i]
      decreases |ps| - i
    {
      SteepEnd(a, b, i);
      drawn := drawn + [Point(x1, y1)];
      x1, y1, cycle := StepAlongY(a, b, ps, cs, i, x1, y1, cycle, lgDelta, shDelta, lgStep, shStep);
      i := i + 1;
    }
    SteepEnd(a, b, i);
  }
}
