/**
 The deinterlacers on planes: what the visible lines of a plane are afterwards, which lines are
 missed or written too many, and one renderer run on the plane another one wrote.
 */
module DeinterlacePlanes {
  import opened Bytes
  import opened PixelRows
  import opened Deinterlace
  import opened DeinterlaceLaws

  // ---- What is written to a plane ----

  /** What RenderBob or RenderLinear leaves of a plane with so many visible lines. */
  function Interpolated(mode: Mode, lines: seq<Row>, visible: nat, field: Field, plane: seq<Byte>, pitch: nat)
      : (r: seq<Byte>)
    requires Written(visible, field) <= |lines| && Interpolates(mode)
    requires Fits(|plane|, pitch, Rendered(mode, lines, Written(visible, field), field))
    ensures |r| == |plane|
  {
    Paint(plane, pitch, Rendered(mode, lines, Written(visible, field), field))
  }

  lemma RenderedPicture(mode: Mode, lines: seq<Row>, w: nat, n: nat, field: Field, size: nat, pitch: nat)
    requires AllWide(lines, w) && w <= pitch && Covers(mode, |lines|, n, field)
    requires Fits(size, pitch, Rendered(mode, lines, n, field))
    ensures Picture(size, pitch, w, Rendered(mode, lines, n, field))
  {
    var rows := Rendered(mode, lines, n, field);
    forall y | 0 <= y < n ensures |rows[y]| == w {
      RenderedAt(mode, lines, n, field, y);
      LineWide(mode, lines, w, n, field, y);
    }
  }

  /** Line y of the plane is output line y. */
  lemma PlaneLine(mode: Mode, lines: seq<Row>, w: nat, n: nat, field: Field, plane: seq<Byte>, pitch: nat, y: nat)
    requires AllWide(lines, w) && w <= pitch && Covers(mode, |lines|, n, field) && y < n
    requires Fits(|plane|, pitch, Rendered(mode, lines, n, field))
    ensures ShowsRow(Paint(plane, pitch, Rendered(mode, lines, n, field)), y, pitch, w, Line(mode, lines, n, field, y))
  {
    RenderedPicture(mode, lines, w, n, field, |plane|, pitch);
    PaintedRow(plane, pitch, w, Rendered(mode, lines, n, field), y);
    RenderedAt(mode, lines, n, field, y);
  }

  lemma RowsBefore(size: nat, pitch: nat, w: nat, rows: seq<Row>, k: nat)
    requires Picture(size, pitch, w, rows) && Times(|rows|, pitch) <= k
    ensures Outside(pitch, rows, k)
  {
    forall i | 0 <= i < |rows| ensures Beside(i, pitch, rows[i], k) {
      TimesOrdered(i, |rows|, pitch);
    }
  }

  /** Behind the lines that are written the plane keeps its bytes. */
  lemma PlaneKept(mode: Mode, lines: seq<Row>, w: nat, n: nat, field: Field, plane: seq<Byte>, pitch: nat, k: nat)
    requires AllWide(lines, w) && w <= pitch && Covers(mode, |lines|, n, field)
    requires Fits(|plane|, pitch, Rendered(mode, lines, n, field)) && Times(n, pitch) <= k < |plane|
    ensures Paint(plane, pitch, Rendered(mode, lines, n, field))[k] == plane[k]
  {
    var rows := Rendered(mode, lines, n, field);
    RenderedPicture(mode, lines, w, n, field, |plane|, pitch);
    RowsBefore(|plane|, pitch, w, rows, k);
    PaddingStays(plane, pitch, rows, k);
  }

  // ---- Odd planes ----

  /** For the top field of a plane with an odd number of lines, a line behind the plane is
      written: it becomes the input line of that number. */
  lemma OddTopOverruns(mode: Mode, lines: seq<Row>, w: nat, visible: nat, plane: seq<Byte>, pitch: nat)
    requires Interpolates(mode) && AllWide(lines, w) && w <= pitch && visible % 2 == 1 && visible < |lines|
    requires Fits(|plane|, pitch, Rendered(mode, lines, Written(visible, 0), 0))
    ensures ShowsRow(Interpolated(mode, lines, visible, 0, plane, pitch), visible, pitch, w, lines[visible])
  {
    PlaneLine(mode, lines, w, visible + 1, 0, plane, pitch, visible);
  }

  /** For the bottom field of such a plane, the last line keeps the bytes it had. */
  lemma OddBottomMissesLast(mode: Mode, lines: seq<Row>, w: nat, visible: nat, plane: seq<Byte>, pitch: nat, k: nat)
    requires Interpolates(mode) && AllWide(lines, w) && w <= pitch
    requires visible % 2 == 1 && visible >= 3 && visible <= |lines| + 1
    requires Fits(|plane|, pitch, Rendered(mode, lines, Written(visible, 1), 1))
    requires Times(visible - 1, pitch) <= k < |plane|
    ensures Interpolated(mode, lines, visible, 1, plane, pitch)[k] == plane[k]
  {
    PlaneKept(mode, lines, w, visible - 1, 1, plane, pitch, k);
  }

  /** Every visible line is written, so that nothing of what the plane held before is left in
      it, and nothing behind the visible lines is touched. */
  ghost predicate FillsPlane(mode: Mode, lines: seq<Row>, w: nat, visible: nat, field: Field, size: nat, pitch: nat)
    requires Written(visible, field) <= |lines| && Interpolates(mode)
    requires Fits(size, pitch, Rendered(mode, lines, Written(visible, field), field))
  {
    forall a: seq<Byte>, b: seq<Byte> :: |a| == size && |b| == size ==>
      SameLines(Interpolated(mode, lines, visible, field, a, pitch),
                Interpolated(mode, lines, visible, field, b, pitch), w, visible, pitch)
      && SameBehind(Interpolated(mode, lines, visible, field, a, pitch), a, Times(visible, pitch))
  }

  predicate SameLine(p: seq<Byte>, q: seq<Byte>, y: nat, w: nat, pitch: nat) {
    Times(y, pitch) + w <= |p| && Times(y, pitch) + w <= |q| && RowAt(p, Times(y, pitch), w) == RowAt(q, Times(y, pitch), w)
  }

  predicate SameLines(p: seq<Byte>, q: seq<Byte>, w: nat, visible: nat, pitch: nat) {
    forall y :: 0 <= y < visible ==> SameLine(p, q, y, w, pitch)
  }

  predicate SameBehind(p: seq<Byte>, q: seq<Byte>, at: nat) {
    |p| == |q| && forall k :: at <= k < |p| ==> p[k] == q[k]
  }

  lemma EvenFills(mode: Mode, lines: seq<Row>, w: nat, visible: nat, field: Field, pitch: nat,
                  a: seq<Byte>, b: seq<Byte>)
    requires Interpolates(mode) && AllWide(lines, w) && w <= pitch && |a| == |b|
    requires Written(visible, field) == visible <= |lines|
    requires Fits(|a|, pitch, Rendered(mode, lines, visible, field))
    ensures SameLines(Interpolated(mode, lines, visible, field, a, pitch),
                      Interpolated(mode, lines, visible, field, b, pitch), w, visible, pitch)
    ensures SameBehind(Interpolated(mode, lines, visible, field, a, pitch), a, Times(visible, pitch))
  {
    var p, q := Interpolated(mode, lines, visible, field, a, pitch), Interpolated(mode, lines, visible, field, b, pitch);
    forall y | 0 <= y < visible ensures SameLine(p, q, y, w, pitch) {
      PlaneLine(mode, lines, w, visible, field, a, pitch, y);
      PlaneLine(mode, lines, w, visible, field, b, pitch, y);
    }
    forall k | Times(visible, pitch) <= k < |a| ensures p[k] == a[k] {
      PlaneKept(mode, lines, w, visible, field, a, pitch, k);
    }
  }

  lemma FirstByte(p: seq<Byte>, at: nat, w: nat)
    requires at + w <= |p| && w > 0
    ensures RowAt(p, at, w)[0] == p[at]
  {
  }

  /** A plane that shows when line `visible` behind it is written. */
  lemma OverrunShows(mode: Mode, lines: seq<Row>, w: nat, visible: nat, field: Field, size: nat, pitch: nat)
      returns (a: seq<Byte>)
    requires Interpolates(mode) && AllWide(lines, w) && 0 < w <= pitch && visible < Written(visible, field) <= |lines|
    requires Fits(size, pitch, Rendered(mode, lines, Written(visible, field), field))
    ensures |a| == size
    ensures !SameBehind(Interpolated(mode, lines, visible, field, a, pitch), a, Times(visible, pitch))
  {
    var n := Written(visible, field);
    var line, at := Line(mode, lines, n, field, visible), Times(visible, pitch);
    LineWide(mode, lines, w, n, field, visible);
    var other: Byte := if line[0] == 0 then 1 else 0;
    a := seq(size, _ => other);
    PlaneLine(mode, lines, w, n, field, a, pitch, visible);
    FirstByte(Interpolated(mode, lines, visible, field, a, pitch), at, w);
    assert a[at] != line[0];
  }

  /** Two planes that show when the last visible line is not written. */
  lemma MissShows(mode: Mode, lines: seq<Row>, w: nat, visible: nat, field: Field, size: nat, pitch: nat)
      returns (a: seq<Byte>, b: seq<Byte>)
    requires Interpolates(mode) && AllWide(lines, w) && 0 < w <= pitch
    requires Written(visible, field) < visible && Written(visible, field) <= |lines|
    requires Fits(size, pitch, Rendered(mode, lines, Written(visible, field), field))
    requires Times(Written(visible, field), pitch) + w <= size
    ensures |a| == size && |b| == size
    ensures !SameLines(Interpolated(mode, lines, visible, field, a, pitch),
                       Interpolated(mode, lines, visible, field, b, pitch), w, visible, pitch)
  {
    var n := Written(visible, field);
    var at := Times(n, pitch);
    a, b := seq(size, _ => 0), seq(size, _ => 1);
    var p, q := Interpolated(mode, lines, visible, field, a, pitch), Interpolated(mode, lines, visible, field, b, pitch);
    PlaneKept(mode, lines, w, n, field, a, pitch, at);
    PlaneKept(mode, lines, w, n, field, b, pitch, at);
    FirstByte(p, at, w);
    FirstByte(q, at, w);
    assert !SameLine(p, q, n, w, pitch);
  }

  /** Bob and Linear fill the plane, and nothing else, exactly when it has an even number of
      lines, and not none. */
  lemma FillsPlaneExactly(mode: Mode, lines: seq<Row>, w: nat, visible: nat, field: Field, size: nat, pitch: nat)
    requires Interpolates(mode) && AllWide(lines, w) && 0 < w <= pitch
    requires Written(visible, field) <= |lines| && Times(visible, pitch) <= size
    requires Fits(size, pitch, Rendered(mode, lines, Written(visible, field), field))
    ensures FillsPlane(mode, lines, w, visible, field, size, pitch) <==> visible >= 2 && visible % 2 == 0
  {
    var n := Written(visible, field);
    if n == visible {
      forall a: seq<Byte>, b: seq<Byte> | |a| == size && |b| == size
        ensures SameLines(Interpolated(mode, lines, visible, field, a, pitch),
                          Interpolated(mode, lines, visible, field, b, pitch), w, visible, pitch)
        ensures SameBehind(Interpolated(mode, lines, visible, field, a, pitch), a, Times(visible, pitch))
      {
        EvenFills(mode, lines, w, visible, field, pitch, a, b);
      }
    } else if n > visible {
      var a := OverrunShows(mode, lines, w, visible, field, size, pitch);
    } else {
      TimesOrdered(n, visible, pitch);
      var a, b := MissShows(mode, lines, w, visible, field, size, pitch);
    }
  }

  // ---- One renderer after another ----

  /** The visible part of a line, without what lies behind it up to the next one. */
  function CropLine(row: Row, w: nat): Row {
    if w <= |row| then row[..w] else row
  }

  function Cropped(rows: seq<Row>, w: nat): (r: seq<Row>)
    ensures |r| == |rows|
  {
    if rows == [] then [] else Cropped(rows[..|rows| - 1], w) + [CropLine(rows[|rows| - 1], w)]
  }

  lemma {:induction false} CroppedAt(rows: seq<Row>, w: nat, y: nat)
    requires y < |rows|
    ensures Cropped(rows, w)[y] == CropLine(rows[y], w)
  {
    if y < |rows| - 1 {
      CroppedAt(rows[..|rows| - 1], w, y);
    }
  }

  lemma {:induction false} MixAt(a: Row, b: Row, x: nat)
    requires |a| == |b| && x < |a|
    ensures Mix(a, b)[x] == Avg(a[x], b[x])
  {
    if x < |a| - 1 {
      MixAt(a[..|a| - 1], b[..|b| - 1], x);
    }
  }

  lemma SameBytes(a: Row, b: Row)
    requires |a| == |b| && forall x :: 0 <= x < |a| ==> a[x] == b[x]
    ensures a == b
  {
  }

  lemma CropMix(a: Row, b: Row, w: nat)
    requires |a| == |b| && w <= |a|
    ensures CropLine(Mix(a, b), w) == Mix(CropLine(a, w), CropLine(b, w))
  {
    var cropped, mixed := CropLine(Mix(a, b), w), Mix(CropLine(a, w), CropLine(b, w));
    forall x | 0 <= x < w ensures cropped[x] == mixed[x] {
      MixAt(a, b, x);
      MixAt(a[..w], b[..w], x);
    }
    SameBytes(cropped, mixed);
  }

  lemma CropPair(lines: seq<Row>, wide: nat, w: nat, y: nat, z: nat)
    requires AllWide(lines, wide) && w <= wide && y < |lines| && z < |lines|
    ensures CropLine(Mix(lines[y], lines[z]), w) == Mix(Cropped(lines, w)[y], Cropped(lines, w)[z])
  {
    CroppedAt(lines, w, y);
    CroppedAt(lines, w, z);
    CropMix(lines[y], lines[z], w);
  }

  lemma CropFieldLine(mode: Mode, lines: seq<Row>, wide: nat, w: nat, n: nat, field: Field, y: nat)
    requires AllWide(lines, wide) && w <= wide && y < n <= |lines| && Interpolates(mode)
    ensures CropLine(Line(mode, lines, n, field, y), w) == Line(mode, Cropped(lines, w), n, field, y)
  {
    if Kept(n, field, y) {
      CroppedAt(lines, w, y);
    } else if mode.Bob? {
      CroppedAt(lines, w, y - 1);
    } else {
      NeighboursKept(n, field, y);
      CropPair(lines, wide, w, y - 1, y + 1);
    }
  }

  lemma CropBlendLine(lines: seq<Row>, wide: nat, w: nat, n: nat, field: Field, y: nat)
    requires AllWide(lines, wide) && w <= wide && y < n <= |lines|
    ensures CropLine(Line(Blend, lines, n, field, y), w) == Line(Blend, Cropped(lines, w), n, field, y)
  {
    if y == 0 {
      CroppedAt(lines, w, 0);
    } else {
      CropPair(lines, wide, w, y - 1, y);
    }
  }

  lemma CropOutputLine(mode: Mode, lines: seq<Row>, wide: nat, w: nat, n: nat, field: Field, y: nat)
    requires AllWide(lines, wide) && w <= wide && y < n && Covers(mode, |lines|, n, field)
    ensures CropLine(Line(mode, lines, n, field, y), w) == Line(mode, Cropped(lines, w), n, field, y)
  {
    if Interpolates(mode) {
      CropFieldLine(mode, lines, wide, w, n, field, y);
    } else if mode.Blend? {
      CropBlendLine(lines, wide, w, n, field, y);
    } else if mode.Mean? {
      CropPair(lines, wide, w, 2 * y, 2 * y + 1);
    } else {
      CroppedAt(lines, w, field + 2 * y);
    }
  }

  /** What a renderer makes of the visible part of a picture does not depend on the rest. */
  lemma RenderingCrops(mode: Mode, lines: seq<Row>, wide: nat, w: nat, n: nat, field: Field)
    requires AllWide(lines, wide) && w <= wide && Covers(mode, |lines|, n, field)
    ensures Cropped(Rendered(mode, lines, n, field), w) == Rendered(mode, Cropped(lines, w), n, field)
  {
    var cropped, rendered := Cropped(Rendered(mode, lines, n, field), w), Rendered(mode, Cropped(lines, w), n, field);
    forall y | 0 <= y < n ensures cropped[y] == rendered[y] {
      CroppedAt(Rendered(mode, lines, n, field), w, y);
      RenderedAt(mode, lines, n, field, y);
      RenderedAt(mode, Cropped(lines, w), n, field, y);
      CropOutputLine(mode, lines, wide, w, n, field, y);
    }
    SameRows(cropped, rendered);
  }

  lemma CropRow(buf: seq<Byte>, at: nat, wide: nat, w: nat)
    requires at + wide <= |buf| && w <= wide
    ensures CropLine(RowAt(buf, at, wide), w) == RowAt(buf, at, w)
  {
  }

  lemma WideReadable(size: nat, pitch: nat, w: nat, n: nat)
    requires Readable(size, 0, pitch, pitch, n) && w <= pitch
    ensures Readable(size, 0, pitch, w, n)
  {
  }

  /** The visible part of the lines that a second renderer reads from a plane. */
  lemma {:induction false} CroppedRows(buf: seq<Byte>, pitch: nat, w: nat, n: nat)
    requires Readable(|buf|, 0, pitch, pitch, n) && w <= pitch
    ensures Readable(|buf|, 0, pitch, w, n)
    ensures Cropped(RowsOf(buf, 0, pitch, pitch, n), w) == RowsOf(buf, 0, pitch, w, n)
  {
    WideReadable(|buf|, pitch, w, n);
    var wide, narrow := RowsOf(buf, 0, pitch, pitch, n), RowsOf(buf, 0, pitch, w, n);
    forall y | 0 <= y < n ensures Cropped(wide, w)[y] == narrow[y] {
      CroppedAt(wide, w, y);
      RowOf(buf, 0, pitch, pitch, n, y);
      RowOf(buf, 0, pitch, w, n, y);
      CropRow(buf, Times(y, pitch), pitch, w);
    }
    SameRows(Cropped(wide, w), narrow);
  }

  /** The plane a renderer wrote, as the input of a second one with that pitch. */
  function Again(inner: Mode, lines: seq<Row>, n: nat, field: Field, plane: seq<Byte>, pitch: nat): (r: seq<Row>)
    requires Covers(inner, |lines|, n, field) && Fits(|plane|, pitch, Rendered(inner, lines, n, field))
    requires Readable(|plane|, 0, pitch, pitch, n)
    ensures |r| == n
  {
    RowsOf(Paint(plane, pitch, Rendered(inner, lines, n, field)), 0, pitch, pitch, n)
  }

  /** It is input as that renderer asks for it and, where the first one wrote, shows its lines;
      with a pitch equal to the width that is all there is. */
  lemma AgainIsInput(inner: Mode, lines: seq<Row>, src: seq<Byte>, w: nat, n: nat, field: Field,
                     plane: seq<Byte>, pitch: nat)
    requires LinesOf(lines, src, w) && w <= pitch && Covers(inner, |lines|, n, field)
    requires Fits(|plane|, pitch, Rendered(inner, lines, n, field)) && Readable(|plane|, 0, pitch, pitch, n)
    ensures LinesOf(Again(inner, lines, n, field, plane, pitch), Paint(plane, pitch, Rendered(inner, lines, n, field)), pitch)
    ensures Cropped(Again(inner, lines, n, field, plane, pitch), w) == Rendered(inner, lines, n, field)
    ensures pitch == w ==> Again(inner, lines, n, field, plane, pitch) == Rendered(inner, lines, n, field)
  {
    RenderedReadsBack(inner, lines, src, w, n, field, plane, pitch);
    CroppedRows(Paint(plane, pitch, Rendered(inner, lines, n, field)), pitch, w, n);
  }

  /** The visible lines a second renderer makes of the plane of a first one are those it would
      have made of the first one's lines, for every pitch. */
  lemma SecondRenderer(inner: Mode, outer: Mode, lines: seq<Row>, src: seq<Byte>, w: nat, n: nat, field: Field,
                       plane: seq<Byte>, pitch: nat, k: nat, field2: Field)
    requires LinesOf(lines, src, w) && w <= pitch && Covers(inner, |lines|, n, field) && Covers(outer, n, k, field2)
    requires Fits(|plane|, pitch, Rendered(inner, lines, n, field)) && Readable(|plane|, 0, pitch, pitch, n)
    ensures Cropped(Rendered(outer, Again(inner, lines, n, field, plane, pitch), k, field2), w) ==
            Rendered(outer, Rendered(inner, lines, n, field), k, field2)
  {
    var again := Again(inner, lines, n, field, plane, pitch);
    AgainIsInput(inner, lines, src, w, n, field, plane, pitch);
    LinesWide(again, Paint(plane, pitch, Rendered(inner, lines, n, field)), pitch);
    RenderingCrops(outer, again, pitch, w, k, field2);
  }

  lemma ShowsCropped(p: seq<Byte>, y: nat, pitch: nat, wide: nat, w: nat, row: Row)
    requires ShowsRow(p, y, pitch, wide, row) && w <= wide
    ensures ShowsRow(p, y, pitch, w, CropLine(row, w))
  {
    CropRow(p, Times(y, pitch), wide, w);
  }

  lemma AgainKeepsField(mode: Mode, lines: seq<Row>, src: seq<Byte>, w: nat, n: nat, field: Field,
                        plane: seq<Byte>, pitch: nat, y: nat)
    requires Interpolates(mode) && LinesOf(lines, src, w) && w <= pitch && n <= |lines| && field + 2 * y < n
    requires Fits(|plane|, pitch, Rendered(mode, lines, n, field)) && Readable(|plane|, 0, pitch, pitch, n)
    ensures CropLine(Again(mode, lines, n, field, plane, pitch)[field + 2 * y], w) == lines[field + 2 * y]
  {
    AgainIsInput(mode, lines, src, w, n, field, plane, pitch);
    CroppedAt(Again(mode, lines, n, field, plane, pitch), w, field + 2 * y);
    FieldLine(n, field, y);
    RenderedAt(mode, lines, n, field, field + 2 * y);
  }

  lemma DiscardShows(again: seq<Row>, wide: nat, w: nat, k: nat, field: Field, plane: seq<Byte>, pitch: nat, y: nat)
    requires AllWide(again, wide) && w <= wide <= pitch && Covers(Discard, |again|, k, field) && y < k
    requires Fits(|plane|, pitch, Rendered(Discard, again, k, field))
    ensures ShowsRow(Paint(plane, pitch, Rendered(Discard, again, k, field)), y, pitch, w, CropLine(again[field + 2 * y], w))
  {
    PlaneLine(Discard, again, wide, k, field, plane, pitch, y);
    ShowsCropped(Paint(plane, pitch, Rendered(Discard, again, k, field)), y, pitch, wide, w, again[field + 2 * y]);
  }

  lemma AgainWide(inner: Mode, lines: seq<Row>, n: nat, field: Field, plane: seq<Byte>, pitch: nat)
    requires Covers(inner, |lines|, n, field) && Fits(|plane|, pitch, Rendered(inner, lines, n, field))
    requires Readable(|plane|, 0, pitch, pitch, n)
    ensures AllWide(Again(inner, lines, n, field, plane, pitch), pitch)
  {
    LinesWide(Again(inner, lines, n, field, plane, pitch), Paint(plane, pitch, Rendered(inner, lines, n, field)), pitch);
  }

  /** Discarding the other field of the plane that Bob or Linear wrote leaves, in the visible
      part of a second plane, the lines that discarding at once would have left. */
  lemma DiscardUndoesOnPlanes(mode: Mode, lines: seq<Row>, src: seq<Byte>, w: nat, n: nat, field: Field,
                              plane: seq<Byte>, pitch: nat, k: nat, plane2: seq<Byte>, pitch2: nat, y: nat)
    requires Interpolates(mode) && LinesOf(lines, src, w) && w <= pitch <= pitch2 && n <= |lines| && 2 * k <= n && y < k
    requires Fits(|plane|, pitch, Rendered(mode, lines, n, field)) && Readable(|plane|, 0, pitch, pitch, n)
    requires Fits(|plane2|, pitch2, Rendered(Discard, Again(mode, lines, n, field, plane, pitch), k, field))
    ensures ShowsRow(Paint(plane2, pitch2, Rendered(Discard, Again(mode, lines, n, field, plane, pitch), k, field)),
                     y, pitch2, w, lines[field + 2 * y])
  {
    AgainWide(mode, lines, n, field, plane, pitch);
    AgainKeepsField(mode, lines, src, w, n, field, plane, pitch, y);
    DiscardShows(Again(mode, lines, n, field, plane, pitch), pitch, w, k, field, plane2, pitch2, y);
  }

  /** Running Bob or Linear on the plane that Bob or Linear wrote leaves, in the visible part,
      what the second one alone would have left. */
  lemma AbsorbsOnPlanes(inner: Mode, outer: Mode, lines: seq<Row>, src: seq<Byte>, w: nat, n: nat, field: Field,
                        plane: seq<Byte>, pitch: nat)
    requires Interpolates(inner) && Interpolates(outer) && LinesOf(lines, src, w) && w <= pitch && n <= |lines|
    requires Fits(|plane|, pitch, Rendered(inner, lines, n, field)) && Readable(|plane|, 0, pitch, pitch, n)
    ensures Cropped(Rendered(outer, Again(inner, lines, n, field, plane, pitch), n, field), w) ==
            Rendered(outer, lines, n, field)
  {
    SecondRenderer(inner, outer, lines, src, w, n, field, plane, pitch, n, field);
    Absorbs(inner, outer, lines, n, field);
  }
}
