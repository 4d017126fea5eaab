/**
 How the deinterlacers relate: which lines they keep, which of them absorb each other, and
 that every merged byte lies between the two it is made of.
 */
module DeinterlaceLaws {
  import opened Bytes
  import opened PixelRows
  import opened Deinterlace

  // ---- Means ----

  function Min(a: int, b: int): int {
    if a <= b then a else b
  }

  function Max(a: int, b: int): int {
    if a <= b then b else a
  }

  /** The floor of the mean, so it lies between the two, whichever comes first. */
  lemma {:induction false} MixBetween(a: Row, b: Row, x: nat)
    requires |a| == |b| && x < |a|
    ensures var m: int := Mix(a, b)[x];
            && Min(a[x], b[x]) <= m <= Max(a[x], b[x])
            && 2 * m <= a[x] as int + b[x] as int <= 2 * m + 1
            && Mix(b, a)[x] == m
  {
    if x < |a| - 1 {
      MixBetween(a[..|a| - 1], b[..|b| - 1], x);
    }
  }

  lemma {:induction false} MixSame(a: Row)
    ensures Mix(a, a) == a
  {
    if a != [] {
      MixSame(a[..|a| - 1]);
      assert a == a[..|a| - 1] + [a[|a| - 1]];
    }
  }

  // ---- Absorption ----

  /** Bob and Linear depend only on the lines they keep. */
  predicate SameKept(a: seq<Row>, b: seq<Row>, n: nat, field: Field) {
    n <= |a| && n <= |b| && forall y :: 0 <= y < n && Kept(n, field, y) ==> a[y] == b[y]
  }

  predicate Interpolates(mode: Mode) {
    mode.Bob? || mode.Linear?
  }

  /** Lines beside one that is not kept are kept. */
  lemma NeighboursKept(n: nat, field: Field, y: nat)
    requires y < n && !Kept(n, field, y)
    ensures 0 < y < n - 1 && Kept(n, field, y - 1) && Kept(n, field, y + 1)
  {
  }

  lemma SameLine(mode: Mode, a: seq<Row>, b: seq<Row>, n: nat, field: Field, y: nat)
    requires Interpolates(mode) && SameKept(a, b, n, field) && y < n
    ensures Line(mode, a, n, field, y) == Line(mode, b, n, field, y)
  {
    if !Kept(n, field, y) {
      NeighboursKept(n, field, y);
    }
  }

  lemma SamePicture(mode: Mode, a: seq<Row>, b: seq<Row>, n: nat, field: Field)
    requires Interpolates(mode) && SameKept(a, b, n, field)
    ensures Rendered(mode, a, n, field) == Rendered(mode, b, n, field)
  {
    forall y | 0 <= y < n ensures Rendered(mode, a, n, field)[y] == Rendered(mode, b, n, field)[y] {
      RenderedAt(mode, a, n, field, y);
      RenderedAt(mode, b, n, field, y);
      SameLine(mode, a, b, n, field, y);
    }
    SameRows(Rendered(mode, a, n, field), Rendered(mode, b, n, field));
  }

  /** Both keep every line of the chosen field, and the outermost lines. */
  lemma KeepsField(mode: Mode, lines: seq<Row>, n: nat, field: Field)
    requires Interpolates(mode) && n <= |lines|
    ensures SameKept(Rendered(mode, lines, n, field), lines, n, field)
  {
    forall y | 0 <= y < n && Kept(n, field, y) ensures Rendered(mode, lines, n, field)[y] == lines[y] {
      RenderedAt(mode, lines, n, field, y);
    }
  }

  /** Whatever filled in the missing lines before, Bob and Linear give what they give at once;
      in particular each of them twice is the same as once. */
  lemma Absorbs(inner: Mode, outer: Mode, lines: seq<Row>, n: nat, field: Field)
    requires Interpolates(inner) && Interpolates(outer) && n <= |lines|
    ensures Rendered(outer, Rendered(inner, lines, n, field), n, field) == Rendered(outer, lines, n, field)
  {
    KeepsField(inner, lines, n, field);
    SamePicture(outer, Rendered(inner, lines, n, field), lines, n, field);
  }

  /** Discarding the other field undoes what was filled in for it. */
  lemma DiscardUndoes(mode: Mode, lines: seq<Row>, n: nat, field: Field, k: nat)
    requires Interpolates(mode) && n <= |lines| && 2 * k <= n
    ensures Rendered(Discard, Rendered(mode, lines, n, field), k, field) == Rendered(Discard, lines, k, field)
  {
    var filled := Rendered(mode, lines, n, field);
    forall y | 0 <= y < k ensures Rendered(Discard, filled, k, field)[y] == Rendered(Discard, lines, k, field)[y] {
      RenderedAt(Discard, filled, k, field, y);
      RenderedAt(Discard, lines, k, field, y);
      RenderedAt(mode, lines, n, field, field + 2 * y);
      FieldLine(n, field, y);
    }
    SameRows(Rendered(Discard, filled, k, field), Rendered(Discard, lines, k, field));
  }

  lemma FieldLine(n: nat, field: Field, y: nat)
    ensures Kept(n, field, field + 2 * y)
  {
  }

  // ---- Bob, then merging lines ----

  lemma TopPair(lines: seq<Row>, n: nat, y: nat)
    requires n <= |lines| && 2 * y + 1 < n
    ensures Rendered(Bob, lines, n, 0)[2 * y] == lines[2 * y]
    ensures Rendered(Bob, lines, n, 0)[2 * y + 1] == lines[if 2 * y + 1 == n - 1 then n - 1 else 2 * y]
  {
    RenderedAt(Bob, lines, n, 0, 2 * y);
    RenderedAt(Bob, lines, n, 0, 2 * y + 1);
  }

  lemma MeanLine(lines: seq<Row>, n: nat, y: nat)
    requires y < n && 2 * n <= |lines|
    ensures Rendered(Mean, lines, n, 0)[y] == Mix(lines[2 * y], lines[2 * y + 1])
  {
    RenderedAt(Mean, lines, n, 0, y);
  }

  /** Merging the line pairs of a Bob picture of the top field gives that field back, except
      for the last line, where Bob kept a line of the other field. */
  lemma MeanAfterBob(lines: seq<Row>, k: nat, y: nat)
    requires y < k && 2 * k <= |lines|
    ensures Rendered(Mean, Rendered(Bob, lines, 2 * k, 0), k, 0)[y] ==
            if y < k - 1 then Rendered(Discard, lines, k, 0)[y] else Mix(lines[2 * k - 2], lines[2 * k - 1])
  {
    MeanLine(Rendered(Bob, lines, 2 * k, 0), k, y);
    RenderedAt(Discard, lines, k, 0, y);
    TopPair(lines, 2 * k, y);
    MixSame(lines[2 * y]);
  }

  lemma BlendLine(lines: seq<Row>, n: nat, y: nat)
    requires 0 < y < n <= |lines|
    ensures Rendered(Blend, lines, n, 0)[y] == Mix(lines[y - 1], lines[y])
  {
    RenderedAt(Blend, lines, n, 0, y);
  }

  /** A line of the field and the copy below it. */
  lemma BobBelow(lines: seq<Row>, n: nat, field: Field, y: nat)
    requires n <= |lines| && y % 2 == field && y + 2 < n
    ensures Rendered(Bob, lines, n, field)[y] == lines[y] && Rendered(Bob, lines, n, field)[y + 1] == lines[y]
    ensures Rendered(Linear, lines, n, field)[y] == lines[y]
    ensures Rendered(Linear, lines, n, field)[y + 1] == Mix(lines[y], lines[y + 2])
  {
    RenderedAt(Bob, lines, n, field, y);
    RenderedAt(Bob, lines, n, field, y + 1);
    RenderedAt(Linear, lines, n, field, y);
    RenderedAt(Linear, lines, n, field, y + 1);
  }

  /** Blending a Bob picture is linear interpolation, one line further down. */
  lemma BlendAfterBob(lines: seq<Row>, n: nat, field: Field, y: nat)
    requires n <= |lines| && field < y < n - 1
    ensures Rendered(Blend, Rendered(Bob, lines, n, field), n, 0)[y] == Rendered(Linear, lines, n, field)[y - 1]
  {
    BlendLine(Rendered(Bob, lines, n, field), n, y);
    if y % 2 == field {
      BobBelow(lines, n, field, y - 2);
      RenderedAt(Bob, lines, n, field, y);
    } else {
      BobBelow(lines, n, field, y - 1);
      MixSame(lines[y - 1]);
    }
  }

  // ---- In the buffer ----

  predicate AllWide(lines: seq<Row>, w: nat) {
    forall y :: 0 <= y < |lines| ==> |lines[y]| == w
  }

  lemma LineWide(mode: Mode, lines: seq<Row>, w: nat, n: nat, field: Field, y: nat)
    requires AllWide(lines, w) && y < n && Covers(mode, |lines|, n, field)
    ensures |Line(mode, lines, n, field, y)| == w
  {
  }

  lemma LinesWide(lines: seq<Row>, src: seq<Byte>, w: nat)
    requires LinesOf(lines, src, w)
    ensures AllWide(lines, w)
  {
    forall y | 0 <= y < |lines| ensures |lines[y]| == w {
      LineAt(lines, src, w, y);
    }
  }

  /** The rendered lines can be read back out of the plane they were painted on. */
  lemma RenderedReadsBack(mode: Mode, lines: seq<Row>, src: seq<Byte>, w: nat, n: nat, field: Field,
                          plane: seq<Byte>, pitch: nat)
    requires LinesOf(lines, src, w) && w <= pitch && Covers(mode, |lines|, n, field)
    requires Fits(|plane|, pitch, Rendered(mode, lines, n, field))
    ensures var rows := Rendered(mode, lines, n, field);
            && Readable(|plane|, 0, pitch, w, n)
            && RowsOf(Paint(plane, pitch, rows), 0, pitch, w, n) == rows
  {
    var rows := Rendered(mode, lines, n, field);
    LinesWide(lines, src, w);
    forall y | 0 <= y < n ensures |rows[y]| == w {
      RenderedAt(mode, lines, n, field, y);
      LineWide(mode, lines, w, n, field, y);
    }
    PaintReadsBack(plane, pitch, w, rows);
  }
}
