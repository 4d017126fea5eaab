/**
 What each deinterlacer does to every pixel, in terms of the input lines: copied from which
 line, or the floor of the mean of which two.
 */
module DeinterlacePixels {
  import opened Bytes
  import opened PixelRows
  import opened Deinterlace
  import opened DeinterlaceLaws
  import opened DeinterlacePlanes

  /** The floor of the mean of a and b. */
  predicate MeanOf(m: int, a: int, b: int) {
    2 * m <= a + b <= 2 * m + 1
  }

  // ---- Lines ----

  lemma DiscardLine(lines: seq<Row>, n: nat, field: Field, y: nat)
    requires y < n && Covers(Discard, |lines|, n, field)
    ensures field + 2 * y < |lines| && Rendered(Discard, lines, n, field)[y] == lines[field + 2 * y]
  {
    RenderedAt(Discard, lines, n, field, y);
  }

  /** Lines of the field and the outermost lines stay; between them the line above is repeated. */
  lemma BobLine(lines: seq<Row>, n: nat, field: Field, y: nat)
    requires y < n <= |lines|
    ensures Rendered(Bob, lines, n, field)[y] ==
            lines[if y % 2 == field || y == 0 || y == n - 1 then y else y - 1]
  {
    RenderedAt(Bob, lines, n, field, y);
  }

  lemma LinearLine(lines: seq<Row>, w: nat, n: nat, field: Field, y: nat, x: nat)
    requires y < n <= |lines| && AllWide(lines, w) && x < w
    ensures var row := Rendered(Linear, lines, n, field)[y];
            && |row| == w
            && if y % 2 == field || y == 0 || y == n - 1 then row == lines[y]
               else MeanOf(row[x], lines[y - 1][x], lines[y + 1][x])
  {
    RenderedAt(Linear, lines, n, field, y);
    if !Deinterlace.Kept(n, field, y) {
      MixBetween(lines[y - 1], lines[y + 1], x);
    }
  }

  lemma MeanLinePixel(lines: seq<Row>, w: nat, n: nat, y: nat, x: nat)
    requires y < n && 2 * n <= |lines| && AllWide(lines, w) && x < w
    ensures var row := Rendered(Mean, lines, n, 0)[y];
            |row| == w && MeanOf(row[x], lines[2 * y][x], lines[2 * y + 1][x])
  {
    RenderedAt(Mean, lines, n, 0, y);
    MixBetween(lines[2 * y], lines[2 * y + 1], x);
  }

  /** The first line of a blended picture is the first line of the input. */
  lemma BlendFirstLine(lines: seq<Row>, n: nat)
    requires 0 < n <= |lines|
    ensures Rendered(Blend, lines, n, 0)[0] == lines[0]
  {
    RenderedAt(Blend, lines, n, 0, 0);
  }

  lemma BlendLinePixel(lines: seq<Row>, w: nat, n: nat, y: nat, x: nat)
    requires 0 < y < n <= |lines| && AllWide(lines, w) && x < w
    ensures var row := Rendered(Blend, lines, n, 0)[y];
            |row| == w && MeanOf(row[x], lines[y - 1][x], lines[y][x])
  {
    RenderedAt(Blend, lines, n, 0, y);
    MixBetween(lines[y - 1], lines[y], x);
  }

  // ---- Planes ----

  /** Pixel x of line y of a plane with this pitch. */
  predicate PixelIs(plane: seq<Byte>, pitch: nat, y: nat, x: nat, b: int) {
    Times(y, pitch) + x < |plane| && plane[Times(y, pitch) + x] == b
  }

  lemma ShownPixel(plane: seq<Byte>, pitch: nat, w: nat, row: Row, y: nat, x: nat)
    requires ShowsRow(plane, y, pitch, w, row) && x < w
    ensures |row| == w && PixelIs(plane, pitch, y, x, row[x])
  {
    assert RowAt(plane, Times(y, pitch), w)[x] == plane[Times(y, pitch) + x];
  }

  lemma RenderedPixel(mode: Mode, lines: seq<Row>, w: nat, n: nat, field: Field, plane: seq<Byte>, pitch: nat,
                      y: nat, x: nat)
    requires AllWide(lines, w) && w <= pitch && Covers(mode, |lines|, n, field) && y < n && x < w
    requires Fits(|plane|, pitch, Rendered(mode, lines, n, field))
    ensures |Rendered(mode, lines, n, field)[y]| == w
    ensures PixelIs(Paint(plane, pitch, Rendered(mode, lines, n, field)), pitch, y, x, Rendered(mode, lines, n, field)[y][x])
  {
    PlaneLine(mode, lines, w, n, field, plane, pitch, y);
    ShownPixel(Paint(plane, pitch, Rendered(mode, lines, n, field)), pitch, w, Line(mode, lines, n, field, y), y, x);
    RenderedAt(mode, lines, n, field, y);
  }

  /** Discard: every pixel of output line y is that of input line field + 2y. */
  lemma DiscardPlane(lines: seq<Row>, w: nat, n: nat, field: Field, plane: seq<Byte>, pitch: nat, y: nat, x: nat)
    requires AllWide(lines, w) && w <= pitch && Covers(Discard, |lines|, n, field) && y < n && x < w
    requires Fits(|plane|, pitch, Rendered(Discard, lines, n, field))
    ensures PixelIs(Paint(plane, pitch, Rendered(Discard, lines, n, field)), pitch, y, x, lines[field + 2 * y][x])
  {
    RenderedPixel(Discard, lines, w, n, field, plane, pitch, y, x);
    DiscardLine(lines, n, field, y);
  }

  /** Bob: that of input line y or, where y is an inner line of the other field, of the one above. */
  lemma BobPlane(lines: seq<Row>, w: nat, n: nat, field: Field, plane: seq<Byte>, pitch: nat, y: nat, x: nat)
    requires AllWide(lines, w) && w <= pitch && n <= |lines| && y < n && x < w
    requires Fits(|plane|, pitch, Rendered(Bob, lines, n, field))
    ensures PixelIs(Paint(plane, pitch, Rendered(Bob, lines, n, field)), pitch, y, x,
                    lines[if y % 2 == field || y == 0 || y == n - 1 then y else y - 1][x])
  {
    RenderedPixel(Bob, lines, w, n, field, plane, pitch, y, x);
    BobLine(lines, n, field, y);
  }

  /** Linear: that of input line y or, where y is an inner line of the other field, the floor of
      the mean of those above and below. */
  lemma LinearPlane(lines: seq<Row>, w: nat, n: nat, field: Field, plane: seq<Byte>, pitch: nat, y: nat, x: nat)
      returns (b: int)
    requires AllWide(lines, w) && w <= pitch && n <= |lines| && y < n && x < w
    requires Fits(|plane|, pitch, Rendered(Linear, lines, n, field))
    ensures PixelIs(Paint(plane, pitch, Rendered(Linear, lines, n, field)), pitch, y, x, b)
    ensures if y % 2 == field || y == 0 || y == n - 1 then b == lines[y][x]
            else MeanOf(b, lines[y - 1][x], lines[y + 1][x])
  {
    RenderedPixel(Linear, lines, w, n, field, plane, pitch, y, x);
    LinearLine(lines, w, n, field, y, x);
    b := Rendered(Linear, lines, n, field)[y][x];
  }

  /** Mean: the floor of the mean of those of input lines 2y and 2y + 1. */
  lemma MeanPlane(lines: seq<Row>, w: nat, n: nat, plane: seq<Byte>, pitch: nat, y: nat, x: nat) returns (b: int)
    requires AllWide(lines, w) && w <= pitch && 2 * n <= |lines| && y < n && x < w
    requires Fits(|plane|, pitch, Rendered(Mean, lines, n, 0))
    ensures PixelIs(Paint(plane, pitch, Rendered(Mean, lines, n, 0)), pitch, y, x, b)
    ensures MeanOf(b, lines[2 * y][x], lines[2 * y + 1][x])
  {
    RenderedPixel(Mean, lines, w, n, 0, plane, pitch, y, x);
    MeanLinePixel(lines, w, n, y, x);
    b := Rendered(Mean, lines, n, 0)[y][x];
  }

  /** Blend: line 0 is input line 0, line y the floor of the mean of input lines y - 1 and y. */
  lemma BlendPlane(lines: seq<Row>, w: nat, n: nat, plane: seq<Byte>, pitch: nat, y: nat, x: nat) returns (b: int)
    requires AllWide(lines, w) && w <= pitch && n <= |lines| && y < n && x < w
    requires Fits(|plane|, pitch, Rendered(Blend, lines, n, 0))
    ensures PixelIs(Paint(plane, pitch, Rendered(Blend, lines, n, 0)), pitch, y, x, b)
    ensures if y == 0 then b == lines[0][x] else MeanOf(b, lines[y - 1][x], lines[y][x])
  {
    RenderedPixel(Blend, lines, w, n, 0, plane, pitch, y, x);
    if y == 0 {
      BlendFirstLine(lines, n);
    } else {
      BlendLinePixel(lines, w, n, y, x);
    }
    b := Rendered(Blend, lines, n, 0)[y][x];
  }
}
