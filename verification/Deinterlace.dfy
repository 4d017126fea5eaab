/**
 The basic deinterlacers, one picture plane at a time: which line of the input, or which mean
 of two lines, each output line is, and the renderers that write them in place.
 */
module Deinterlace {
  import opened Bytes
  import opened PixelRows

  /** 0 for the top field (even lines), 1 for the bottom field (odd lines). */
  type Field = f: int | 0 <= f <= 1

  // ---- The output lines ----

  function Avg(a: Byte, b: Byte): (m: Byte) {
    (a + b) / 2
  }

  /** Byte by byte the mean of two lines. */
  function Mix(a: Row, b: Row): (r: Row)
    ensures |a| == |b| ==> |r| == |a|
  {
    if a == [] || b == [] then [] else
    var m, n := |a| - 1, |b| - 1;
    Mix(a[..m], b[..n]) + [Avg(a[m], b[n])]
  }

  datatype Mode = Discard | Bob | Linear | Mean | Blend

  /** A line of the chosen field, or one of the outermost lines, which have no two neighbours in it. */
  predicate Kept(n: nat, field: Field, y: nat) {
    y % 2 == field || y == 0 || y == n - 1
  }

  /** Whether there are input lines enough for n output lines. */
  predicate Covers(mode: Mode, count: nat, n: nat, field: Field) {
    match mode
    case Discard => n > 0 ==> field + 2 * (n - 1) < count
    case Mean => 2 * n <= count
    case _ => n <= count
  }

  /** What a mode makes output line y of n: Discard keeps one field, Bob repeats each of its
      lines, Linear fills in the means of neighbours, Mean merges each two lines, and Blend
      each line with the one above. */
  function Line(mode: Mode, lines: seq<Row>, n: nat, field: Field, y: nat): Row
    requires y < n && Covers(mode, |lines|, n, field)
  {
    match mode
    case Discard => lines[field + 2 * y]
    case Bob => if Kept(n, field, y) then lines[y] else lines[y - 1]
    case Linear => if Kept(n, field, y) then lines[y] else Mix(lines[y - 1], lines[y + 1])
    case Mean => Mix(lines[2 * y], lines[2 * y + 1])
    case Blend => if y == 0 then lines[0] else Mix(lines[y - 1], lines[y])
  }

  function FirstLines(mode: Mode, lines: seq<Row>, n: nat, field: Field, k: nat): (r: seq<Row>)
    requires k <= n && Covers(mode, |lines|, n, field)
    ensures |r| == k
  {
    if k == 0 then [] else FirstLines(mode, lines, n, field, k - 1) + [Line(mode, lines, n, field, k - 1)]
  }

  lemma {:induction false} FirstLinesAt(mode: Mode, lines: seq<Row>, n: nat, field: Field, k: nat, y: nat)
    requires y < k <= n && Covers(mode, |lines|, n, field)
    ensures FirstLines(mode, lines, n, field, k)[y] == Line(mode, lines, n, field, y)
  {
    if y < k - 1 {
      FirstLinesAt(mode, lines, n, field, k - 1, y);
    }
  }

  /** The n output lines. */
  function Rendered(mode: Mode, lines: seq<Row>, n: nat, field: Field): (r: seq<Row>)
    requires Covers(mode, |lines|, n, field)
    ensures |r| == n
  {
    FirstLines(mode, lines, n, field, n)
  }

  lemma RenderedAt(mode: Mode, lines: seq<Row>, n: nat, field: Field, y: nat)
    requires y < n && Covers(mode, |lines|, n, field)
    ensures Rendered(mode, lines, n, field)[y] == Line(mode, lines, n, field, y)
  {
    FirstLinesAt(mode, lines, n, field, n, y);
  }

  /** How many lines RenderBob and RenderLinear write for so many visible lines. */
  function Written(visible: nat, field: Field): (n: nat)
    ensures n >= 2 && n % 2 == 0
    ensures n == visible <==> visible >= 2 && visible % 2 == 0
  {
    if visible < 2 then 2 else if visible % 2 == 0 then visible else if field == 0 then visible + 1 else visible - 1
  }

  // ---- In place ----

  lemma MixNext(a: Row, b: Row, j: nat)
    requires |a| == |b| && j < |a|
    ensures Mix(a[..j + 1], b[..j + 1]) == Mix(a[..j], b[..j]) + [Avg(a[j], b[j])]
  {
    assert a[..j + 1][..j] == a[..j] && b[..j + 1][..j] == b[..j];
  }

  /** One byte of the loop below: the sum is formed in an int and shifted right by one. */
  method MergeByte(dst: array<Byte>, p: nat, x: Byte, y: Byte,
                   ghost was: seq<Byte>, ghost at: nat, ghost a: Row, ghost b: Row, ghost done: nat)
    requires |a| == |b| && done < |a| && x == a[done] && y == b[done]
    requires p == at + done && at + |a| <= dst.Length && |was| == dst.Length
    requires dst[..] == Put(was, at, Mix(a[..done], b[..done]))
    modifies dst
    ensures dst[..] == Put(was, at, Mix(a[..done + 1], b[..done + 1]))
  {
    MixNext(a, b, done);
    var sum: int := x;
    sum := sum + y;
    dst[p] := sum / 2;
  }

  /** The averaging loop under the renderers. */
  method Merge8Bit(dst: array<Byte>, at: nat, src: seq<Byte>, s1: nat, s2: nat, bytes: nat)
    requires at + bytes <= dst.Length && s1 + bytes <= |src| && s2 + bytes <= |src|
    modifies dst
    ensures dst[..] == Put(old(dst[..]), at, Mix(RowAt(src, s1, bytes), RowAt(src, s2, bytes)))
  {
    var left, p, p1, p2 := bytes, at, s1, s2;
    ghost var a, b, was := RowAt(src, s1, bytes), RowAt(src, s2, bytes), dst[..];
    ghost var done := 0;
    while left > 0
      invariant done + left == bytes && p == at + done && p1 == s1 + done && p2 == s2 + done
      invariant dst[..] == Put(was, at, Mix(a[..done], b[..done]))
    {
      MergeByte(dst, p, src[p1], src[p2], was, at, a, b, done);
      p := p + 1;
      p1 := p1 + 1;
      p2 := p2 + 1;
      left, done := left - 1, done + 1;
    }
    assert a[..bytes] == a && b[..bytes] == b;
  }

  predicate LinesOf(lines: seq<Row>, src: seq<Byte>, w: nat) {
    Readable(|src|, 0, w, w, |lines|) && lines == RowsOf(src, 0, w, w, |lines|)
  }

  lemma LineAt(lines: seq<Row>, src: seq<Byte>, w: nat, y: nat)
    requires LinesOf(lines, src, w) && y < |lines|
    ensures Times(y, w) + w <= |src| && lines[y] == RowAt(src, Times(y, w), w)
  {
    RowOf(src, 0, w, w, |lines|, y);
  }

  /** Copies an input line to the next line of the output. */
  method CopyLine(dst: array<Byte>, at: nat, src: seq<Byte>, p: nat, w: nat,
                  ghost lines: seq<Row>, ghost y: nat, ghost job: Job, ghost i: nat)
    requires LinesOf(lines, src, w) && y < |lines| && p == Times(y, w)
    requires dst[..] == Canvas(job, i) && i < |job.rows| && at == Times(i, job.stride) && job.rows[i] == lines[y]
    modifies dst
    ensures dst[..] == Canvas(job, i + 1)
  {
    LineAt(lines, src, w, y);
    PaintRow(dst, at, src[p..p + w], job, i);
  }

  /** Writes the mean of two input lines as the next line of the output. */
  method MergeLines(dst: array<Byte>, at: nat, src: seq<Byte>, p: nat, q: nat, w: nat,
                    ghost lines: seq<Row>, ghost y: nat, ghost z: nat, ghost job: Job, ghost i: nat)
    requires LinesOf(lines, src, w) && y < |lines| && z < |lines| && p == Times(y, w) && q == Times(z, w)
    requires dst[..] == Canvas(job, i) && i < |job.rows| && at == Times(i, job.stride)
    requires job.rows[i] == Mix(lines[y], lines[z])
    modifies dst
    ensures dst[..] == Canvas(job, i + 1)
  {
    LineAt(lines, src, w, y);
    LineAt(lines, src, w, z);
    CanvasNext(job, i);
    Merge8Bit(dst, at, src, p, q, w);
  }

  /** Comparing offsets of whole lines compares the lines. */
  lemma LinesLeft(i: nat, n: nat, pitch: nat)
    requires pitch > 0
    ensures Times(i, pitch) < Times(n, pitch) <==> i < n
  {
    if i < n {
      TimesOrdered(i, n, pitch);
    } else {
      TimesOrdered(n, i, pitch);
    }
  }

  lemma TwoMore(i: nat, stride: nat)
    ensures Times(i + 2, stride) == Times(i, stride) + 2 * stride
    ensures Times(i + 1, stride) == Times(i, stride) + stride
  {
  }

  method Offset(count: nat, pitch: nat) returns (offset: nat)
    ensures offset == Times(count, pitch)
  {
    offset := count * pitch;
    TimesIsProduct(count, pitch);
  }

  // Each renderer's loop has its round as a method of its own: round i writes line i (or lines i
  // and i + 1) and moves the offsets of the input and the output on.

  method DiscardRound(src: seq<Byte>, w: nat, out: array<Byte>, pitch: nat, p: nat, at: nat,
                      ghost lines: seq<Row>, ghost visible: nat, ghost field: Field, ghost i: nat, ghost y: nat,
                      ghost job: Job)
      returns (pIn: nat, pOut: nat)
    requires LinesOf(lines, src, w) && i < visible && Covers(Discard, |lines|, visible, field) && y == field + 2 * i
    requires job.stride == pitch && job.rows == Rendered(Discard, lines, visible, field)
    requires out[..] == Canvas(job, i) && at == Times(i, pitch) && p == Times(y, w)
    modifies out
    ensures out[..] == Canvas(job, i + 1) && pOut == Times(i + 1, pitch) && pIn == Times(y + 2, w)
  {
    RenderedAt(Discard, lines, visible, field, i);
    CopyLine(out, at, src, p, w, lines, y, job, i);
    TwoMore(i, pitch);
    TwoMore(y, w);
    pIn, pOut := p + 2 * w, at + pitch;
  }

  method RenderDiscard(src: seq<Byte>, w: nat, ghost lines: seq<Row>, out: array<Byte>, pitch: nat, visible: nat,
                       field: Field)
    requires pitch > 0 && LinesOf(lines, src, w) && Covers(Discard, |lines|, visible, field)
    requires Fits(out.Length, pitch, Rendered(Discard, lines, visible, field))
    modifies out
    ensures out[..] == Paint(old(out[..]), pitch, Rendered(Discard, lines, visible, field))
  {
    var pIn := Offset(field, w);
    var pOut := 0;
    var pOutEnd := Offset(visible, pitch);
    ghost var i, y: nat := 0, field;
    ghost var job: Job := Painting(out[..], pitch, Rendered(Discard, lines, visible, field));
    CanvasFull(job);
    LinesLeft(i, visible, pitch);
    while pOut < pOutEnd
      invariant 0 <= i <= visible && y == field + 2 * i && pOut == Times(i, pitch) && pIn == Times(y, w)
      invariant pOut < pOutEnd <==> i < visible
      invariant out[..] == Canvas(job, i)
      decreases visible - i
    {
      pIn, pOut := DiscardRound(src, w, out, pitch, pIn, pOut, lines, visible, field, i, y, job);
      i, y := i + 1, y + 2;
      LinesLeft(i, visible, pitch);
    }
  }

  method MeanRound(src: seq<Byte>, w: nat, out: array<Byte>, pitch: nat, p: nat, at: nat,
                   ghost lines: seq<Row>, ghost visible: nat, ghost i: nat, ghost y: nat, ghost job: Job)
      returns (pIn: nat, pOut: nat)
    requires LinesOf(lines, src, w) && i < visible && 2 * visible <= |lines| && y == 2 * i
    requires job.stride == pitch && job.rows == Rendered(Mean, lines, visible, 0)
    requires out[..] == Canvas(job, i) && at == Times(i, pitch) && p == Times(y, w)
    modifies out
    ensures out[..] == Canvas(job, i + 1) && pOut == Times(i + 1, pitch) && pIn == Times(y + 2, w)
  {
    TwoMore(i, pitch);
    TwoMore(y, w);
    RenderedAt(Mean, lines, visible, 0, i);
    MergeLines(out, at, src, p, p + w, w, lines, y, y + 1, job, i);
    pIn, pOut := p + 2 * w, at + pitch;
  }

  method RenderMean(src: seq<Byte>, w: nat, ghost lines: seq<Row>, out: array<Byte>, pitch: nat, visible: nat)
    requires pitch > 0 && LinesOf(lines, src, w) && 2 * visible <= |lines|
    requires Fits(out.Length, pitch, Rendered(Mean, lines, visible, 0))
    modifies out
    ensures out[..] == Paint(old(out[..]), pitch, Rendered(Mean, lines, visible, 0))
  {
    var pIn, pOut := 0, 0;
    var pOutEnd := Offset(visible, pitch);
    ghost var i, y, job: Job := 0, 0, Painting(out[..], pitch, Rendered(Mean, lines, visible, 0));
    CanvasFull(job);
    LinesLeft(i, visible, pitch);
    while pOut < pOutEnd
      invariant 0 <= i <= visible && y == 2 * i && pOut == Times(i, pitch) && pIn == Times(y, w)
      invariant pOut < pOutEnd <==> i < visible
      invariant out[..] == Canvas(job, i)
      decreases visible - i
    {
      pIn, pOut := MeanRound(src, w, out, pitch, pIn, pOut, lines, visible, i, y, job);
      i, y := i + 1, y + 2;
      LinesLeft(i, visible, pitch);
    }
  }

  method BlendFirst(src: seq<Byte>, w: nat, out: array<Byte>, pitch: nat,
                    ghost lines: seq<Row>, ghost n: nat, ghost job: Job) returns (pOut: nat)
    requires LinesOf(lines, src, w) && 0 < n <= |lines|
    requires job.stride == pitch && job.rows == Rendered(Blend, lines, n, 0) && out[..] == Canvas(job, 0)
    modifies out
    ensures out[..] == Canvas(job, 1) && pOut == Times(1, pitch)
  {
    RenderedAt(Blend, lines, n, 0, 0);
    CopyLine(out, 0, src, 0, w, lines, 0, job, 0);
    TwoMore(0, pitch);
    pOut := pitch;
  }

  method BlendRound(src: seq<Byte>, w: nat, out: array<Byte>, pitch: nat, p: nat, at: nat,
                    ghost lines: seq<Row>, ghost n: nat, ghost i: nat, ghost y: nat, ghost job: Job)
      returns (pIn: nat, pOut: nat)
    requires LinesOf(lines, src, w) && y + 1 == i < n <= |lines|
    requires job.stride == pitch && job.rows == Rendered(Blend, lines, n, 0)
    requires out[..] == Canvas(job, i) && at == Times(i, pitch) && p == Times(y, w)
    modifies out
    ensures out[..] == Canvas(job, i + 1) && pOut == Times(i + 1, pitch) && pIn == Times(y + 1, w)
  {
    TwoMore(i, pitch);
    TwoMore(y, w);
    RenderedAt(Blend, lines, n, 0, i);
    MergeLines(out, at, src, p, p + w, w, lines, y, y + 1, job, i);
    pIn, pOut := p + w, at + pitch;
  }

  lemma BlendLeft(i: nat, visible: nat, n: nat, pitch: nat)
    requires pitch > 0 && i > 0 && n == if visible == 0 then 1 else visible
    ensures Times(i, pitch) < Times(visible, pitch) <==> i < n
  {
    LinesLeft(i, visible, pitch);
  }

  /** The first line is written even to a plane that has none. */
  method RenderBlend(src: seq<Byte>, w: nat, ghost lines: seq<Row>, out: array<Byte>, pitch: nat, visible: nat)
    requires pitch > 0 && LinesOf(lines, src, w) && 1 <= |lines| && visible <= |lines|
    requires Fits(out.Length, pitch, Rendered(Blend, lines, if visible == 0 then 1 else visible, 0))
    modifies out
    ensures out[..] == Paint(old(out[..]), pitch, Rendered(Blend, lines, if visible == 0 then 1 else visible, 0))
  {
    ghost var n := if visible == 0 then 1 else visible;
    var pOutEnd := Offset(visible, pitch);
    ghost var i, y: nat, job: Job := 1, 0, Painting(out[..], pitch, Rendered(Blend, lines, n, 0));
    CanvasFull(job);
    var pIn := 0;
    var pOut := BlendFirst(src, w, out, pitch, lines, n, job);
    BlendLeft(i, visible, n, pitch);
    while pOut < pOutEnd
      invariant y + 1 == i <= n && pOut == Times(i, pitch) && pIn == Times(y, w)
      invariant pOut < pOutEnd <==> i < n
      invariant out[..] == Canvas(job, i)
      decreases n - i
    {
      pIn, pOut := BlendRound(src, w, out, pitch, pIn, pOut, lines, n, i, y, job);
      i, y := i + 1, y + 1;
      BlendLeft(i, visible, n, pitch);
    }
  }

  // ---- Bob and linear interpolation ----

  lemma LinesInPairs(j: nat, visible: nat, field: Field)
    requires 2 * j + field < Written(visible, field)
    ensures 2 * j + field + 2 < visible <==> 2 * j + field + 2 < Written(visible, field)
  {
  }

  /** The loop condition, two lines before the end of the plane, runs out exactly at the last
      line of the field that is written. */
  lemma TwoLinesLeft(i: nat, j: nat, visible: nat, field: Field, pitch: nat)
    requires pitch > 0 && i == 2 * j + field && i < Written(visible, field)
    ensures Times(i, pitch) < Times(visible, pitch) - 2 * pitch <==> i + 2 < Written(visible, field)
  {
    LinesInPairs(j, visible, field);
    TwoMore(i, pitch);
    LinesLeft(i + 2, visible, pitch);
  }

  lemma LastOfField(i: nat, j: nat, n: nat, field: Field)
    requires i == 2 * j + field && i < n <= i + 2 && n % 2 == 0
    ensures i + 2 - field == n
  {
  }

  /** A line of the chosen field, and the line behind it. */
  lemma BobPair(lines: seq<Row>, n: nat, field: Field, i: nat, j: nat)
    requires n <= |lines| && i < n && i == 2 * j + field
    ensures Rendered(Bob, lines, n, field)[0] == lines[0] && Rendered(Bob, lines, n, field)[i] == lines[i]
    ensures i + 2 < n ==> Rendered(Bob, lines, n, field)[i + 1] == lines[i]
    ensures i + 2 == n ==> Rendered(Bob, lines, n, field)[i + 1] == lines[i + 1]
  {
    RenderedAt(Bob, lines, n, field, 0);
    RenderedAt(Bob, lines, n, field, i);
    if i + 1 < n {
      RenderedAt(Bob, lines, n, field, i + 1);
    }
  }

  lemma LinearPair(lines: seq<Row>, n: nat, field: Field, i: nat, j: nat)
    requires n <= |lines| && i < n && i == 2 * j + field
    ensures Rendered(Linear, lines, n, field)[0] == lines[0] && Rendered(Linear, lines, n, field)[i] == lines[i]
    ensures i + 2 < n ==> Rendered(Linear, lines, n, field)[i + 1] == Mix(lines[i], lines[i + 2])
    ensures i + 2 == n ==> Rendered(Linear, lines, n, field)[i + 1] == lines[i + 1]
  {
    RenderedAt(Linear, lines, n, field, 0);
    RenderedAt(Linear, lines, n, field, i);
    if i + 1 < n {
      RenderedAt(Linear, lines, n, field, i + 1);
    }
  }

  /** The first line, above the first line of the bottom field. */
  method FirstLine(dst: array<Byte>, src: seq<Byte>, w: nat, field: Field, pitch: nat,
                   ghost lines: seq<Row>, ghost job: Job) returns (pIn: nat, pOut: nat)
    requires LinesOf(lines, src, w) && |lines| >= 2 && dst[..] == Canvas(job, 0)
    requires |job.rows| >= 2 && job.stride == pitch && job.rows[0] == lines[0]
    modifies dst
    ensures pIn == Times(field, w) && pOut == Times(field, pitch) && dst[..] == Canvas(job, field)
  {
    pIn, pOut := 0, 0;
    if field == 1 {
      CopyLine(dst, pOut, src, pIn, w, lines, 0, job, 0);
      pIn := pIn + w;
      pOut := pOut + pitch;
    }
  }

  /** The last line of the field and, if it is the top field, the line below. */
  method LastLines(dst: array<Byte>, at: nat, src: seq<Byte>, p: nat, w: nat, field: Field, pitch: nat,
                   ghost lines: seq<Row>, ghost i: nat, ghost job: Job)
    requires LinesOf(lines, src, w) && |job.rows| <= |lines| && i + 2 - field == |job.rows|
    requires dst[..] == Canvas(job, i) && at == Times(i, pitch) && p == Times(i, w) && job.stride == pitch
    requires job.rows[i] == lines[i] && (field == 0 ==> job.rows[i + 1] == lines[i + 1])
    modifies dst
    ensures dst[..] == Canvas(job, |job.rows|)
  {
    CopyLine(dst, at, src, p, w, lines, i, job, i);
    if field == 0 {
      TwoMore(i, pitch);
      TwoMore(i, w);
      CopyLine(dst, at + pitch, src, p + w, w, lines, i + 1, job, i + 1);
    }
  }

  method BobRound(src: seq<Byte>, w: nat, out: array<Byte>, pitch: nat, p: nat, at: nat,
                  ghost lines: seq<Row>, ghost n: nat, ghost field: Field, ghost i: nat, ghost j: nat, ghost job: Job)
      returns (pIn: nat, pOut: nat)
    requires LinesOf(lines, src, w) && i == 2 * j + field && i + 2 < n <= |lines|
    requires job.stride == pitch && job.rows == Rendered(Bob, lines, n, field)
    requires out[..] == Canvas(job, i) && at == Times(i, pitch) && p == Times(i, w)
    modifies out
    ensures out[..] == Canvas(job, i + 2) && pOut == Times(i + 2, pitch) && pIn == Times(i + 2, w)
  {
    BobPair(lines, n, field, i, j);
    TwoMore(i, pitch);
    TwoMore(i, w);
    CopyLine(out, at, src, p, w, lines, i, job, i);
    CopyLine(out, at + pitch, src, p, w, lines, i, job, i + 1);
    pIn, pOut := p + 2 * w, at + pitch + pitch;
  }

  method RenderBob(src: seq<Byte>, w: nat, ghost lines: seq<Row>, out: array<Byte>, pitch: nat, visible: nat,
                   field: Field)
    requires pitch > 0 && LinesOf(lines, src, w) && Written(visible, field) <= |lines|
    requires Fits(out.Length, pitch, Rendered(Bob, lines, Written(visible, field), field))
    modifies out
    ensures out[..] == Paint(old(out[..]), pitch, Rendered(Bob, lines, Written(visible, field), field))
  {
    ghost var n, i: nat, j: nat := Written(visible, field), field, 0;
    ghost var job: Job := Painting(out[..], pitch, Rendered(Bob, lines, n, field));
    CanvasFull(job);
    BobPair(lines, n, field, i, j);
    var pIn, pOut := FirstLine(out, src, w, field, pitch, lines, job);
    var pOutEnd: int := Offset(visible, pitch);
    pOutEnd := pOutEnd - 2 * pitch;
    TwoLinesLeft(i, j, visible, field, pitch);
    while pOut < pOutEnd
      invariant i == 2 * j + field && i < n && pOut == Times(i, pitch) && pIn == Times(i, w)
      invariant pOut < pOutEnd <==> i + 2 < n
      invariant out[..] == Canvas(job, i)
      decreases n - i
    {
      pIn, pOut := BobRound(src, w, out, pitch, pIn, pOut, lines, n, field, i, j, job);
      i, j := i + 2, j + 1;
      TwoLinesLeft(i, j, visible, field, pitch);
    }
    BobPair(lines, n, field, i, j);
    LastOfField(i, j, n, field);
    LastLines(out, pOut, src, pIn, w, field, pitch, lines, i, job);
  }

  method LinearRound(src: seq<Byte>, w: nat, out: array<Byte>, pitch: nat, p: nat, at: nat,
                     ghost lines: seq<Row>, ghost n: nat, ghost field: Field, ghost i: nat, ghost j: nat, ghost job: Job)
      returns (pIn: nat, pOut: nat)
    requires LinesOf(lines, src, w) && i == 2 * j + field && i + 2 < n <= |lines|
    requires job.stride == pitch && job.rows == Rendered(Linear, lines, n, field)
    requires out[..] == Canvas(job, i) && at == Times(i, pitch) && p == Times(i, w)
    modifies out
    ensures out[..] == Canvas(job, i + 2) && pOut == Times(i + 2, pitch) && pIn == Times(i + 2, w)
  {
    LinearPair(lines, n, field, i, j);
    TwoMore(i, pitch);
    TwoMore(i, w);
    CopyLine(out, at, src, p, w, lines, i, job, i);
    MergeLines(out, at + pitch, src, p, p + 2 * w, w, lines, i, i + 2, job, i + 1);
    pIn, pOut := p + 2 * w, at + pitch + pitch;
  }

  method RenderLinear(src: seq<Byte>, w: nat, ghost lines: seq<Row>, out: array<Byte>, pitch: nat, visible: nat,
                      field: Field)
    requires pitch > 0 && LinesOf(lines, src, w) && Written(visible, field) <= |lines|
    requires Fits(out.Length, pitch, Rendered(Linear, lines, Written(visible, field), field))
    modifies out
    ensures out[..] == Paint(old(out[..]), pitch, Rendered(Linear, lines, Written(visible, field), field))
  {
    ghost var n, i: nat, j: nat := Written(visible, field), field, 0;
    ghost var job: Job := Painting(out[..], pitch, Rendered(Linear, lines, n, field));
    CanvasFull(job);
    LinearPair(lines, n, field, i, j);
    var pIn, pOut := FirstLine(out, src, w, field, pitch, lines, job);
    var pOutEnd: int := Offset(visible, pitch);
    pOutEnd := pOutEnd - 2 * pitch;
    TwoLinesLeft(i, j, visible, field, pitch);
    while pOut < pOutEnd
      invariant i == 2 * j + field && i < n && pOut == Times(i, pitch) && pIn == Times(i, w)
      invariant pOut < pOutEnd <==> i + 2 < n
      invariant out[..] == Canvas(job, i)
      decreases n - i
    {
      pIn, pOut := LinearRound(src, w, out, pitch, pIn, pOut, lines, n, field, i, j, job);
      i, j := i + 2, j + 1;
      TwoLinesLeft(i, j, visible, field, pitch);
    }
    LinearPair(lines, n, field, i, j);
    LastOfField(i, j, n, field);
    LastLines(out, pOut, src, pIn, w, field, pitch, lines, i, job);
  }
}
