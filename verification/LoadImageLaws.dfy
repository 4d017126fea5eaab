/**
 What loading a frame keeps: every plane can be read back out of the memory, in whatever
 layout, every sample lies where its stride puts it, and padding is not touched.
 */
module LoadImageLaws {
  import opened Bytes
  import opened PixelRows
  import opened LoadImage

  lemma RowsAllWide(buf: seq<Byte>, from: nat, stride: nat, w: nat, n: nat, y: nat)
    requires Readable(|buf|, from, stride, w, n) && y < n
    ensures |RowsOf(buf, from, stride, w, n)[y]| == w
  {
    RowOf(buf, from, stride, w, n, y);
  }

  lemma PlainPicture(src: seq<Byte>, from: nat, w: nat, n: nat, size: nat, stride: nat)
    requires Readable(|src|, from, w, w, n) && Fits(size, stride, RowsOf(src, from, w, w, n)) && w <= stride
    ensures Picture(size, stride, w, RowsOf(src, from, w, w, n))
  {
    var rows := RowsOf(src, from, w, w, n);
    forall y | 0 <= y < |rows| ensures |rows[y]| == w {
      RowsAllWide(src, from, w, w, n, y);
    }
  }

  lemma InterleavedPicture(p1: seq<Row>, p2: seq<Row>, w: nat, size: nat, stride: nat)
    requires SameShape(p1, p2) && Fits(size, stride, Interleaved(p1, p2)) && 2 * w <= stride
    requires forall y :: 0 <= y < |p1| ==> |p1[y]| == w
    ensures Picture(size, stride, 2 * w, Interleaved(p1, p2))
  {
    var rows := Interleaved(p1, p2);
    forall y | 0 <= y < |rows| ensures |rows[y]| == 2 * w {
      InterleavedRow(p1, p2, y);
    }
  }

  lemma ChromaShapes(src: seq<Byte>, w: nat, h: nat)
    requires Holds(|src|, w, h)
    ensures SameShape(Cb(src, w, h), Cr(src, w, h)) && SameShape(Cr(src, w, h), Cb(src, w, h))
    ensures forall y :: 0 <= y < h / 2 ==> |Cb(src, w, h)[y]| == w / 2 && |Cr(src, w, h)[y]| == w / 2
  {
    forall y | 0 <= y < h / 2 ensures |Cb(src, w, h)[y]| == w / 2 && |Cr(src, w, h)[y]| == w / 2 {
      RowsAllWide(src, CbAt(w, h), w / 2, w / 2, h / 2, y);
      RowsAllWide(src, CrAt(w, h), w / 2, w / 2, h / 2, y);
    }
  }

  // ---- Reading the memory back ----

  predicate SemiPlanar(fourCC: FourCC) {
    fourCC.NV12? || fourCC.NV21?
  }

  /** Strides that keep the rows of every plane apart. */
  predicate WideEnough(l: Layout, w: nat) {
    && w <= l.luStride
    && (SemiPlanar(l.fourCC) ==> 2 * (w / 2) <= l.cbStride)
    && (Planar(l.fourCC) ==> w / 2 <= l.cbStride && w / 2 <= l.crStride)
  }

  /** A frame as three planes of rows. */
  datatype Frame = Frame(y: seq<Row>, cb: seq<Row>, cr: seq<Row>)

  predicate Legible(m: Planes, l: Layout, w: nat, h: nat) {
    && Readable(|m.lu|, 0, l.luStride, w, h)
    && Readable(|m.cb|, 0, l.cbStride, if SemiPlanar(l.fourCC) then 2 * (w / 2) else w / 2, h / 2)
    && (Planar(l.fourCC) ==> Readable(|m.cr|, 0, l.crStride, w / 2, h / 2))
  }

  /** How the layouts are to be read. */
  function FrameIn(m: Planes, l: Layout, w: nat, h: nat): Frame
    requires !l.fourCC.Other? && Legible(m, l, w, h)
  {
    var y := RowsOf(m.lu, 0, l.luStride, w, h);
    if Planar(l.fourCC) then
      Frame(y, RowsOf(m.cb, 0, l.cbStride, w / 2, h / 2), RowsOf(m.cr, 0, l.crStride, w / 2, h / 2))
    else
      var pairs := RowsOf(m.cb, 0, l.cbStride, 2 * (w / 2), h / 2);
      Frame(y, EveryOf(pairs, l.fourCC.NV21?), EveryOf(pairs, l.fourCC.NV12?))
  }

  function Source(src: seq<Byte>, w: nat, h: nat): Frame
    requires Holds(|src|, w, h)
  {
    Frame(Luma(src, w, h), Cb(src, w, h), Cr(src, w, h))
  }

  lemma ChromaIsPicture(m: Planes, l: Layout, src: seq<Byte>, w: nat, h: nat)
    requires Holds(|src|, w, h) && Room(m, l, src, w, h) && WideEnough(l, w)
    ensures Planar(l.fourCC) ==> Picture(|m.cb|, l.cbStride, w / 2, Cb(src, w, h)) &&
                                 Picture(|m.cr|, l.crStride, w / 2, Cr(src, w, h))
    ensures SemiPlanar(l.fourCC) ==> Picture(|m.cb|, l.cbStride, 2 * (w / 2), Chroma(l.fourCC, src, w, h))
  {
    if Planar(l.fourCC) {
      PlainPicture(src, CbAt(w, h), w / 2, h / 2, |m.cb|, l.cbStride);
      PlainPicture(src, CrAt(w, h), w / 2, h / 2, |m.cr|, l.crStride);
    } else if l.fourCC.NV12? {
      ChromaShapes(src, w, h);
      InterleavedPicture(Cb(src, w, h), Cr(src, w, h), w / 2, |m.cb|, l.cbStride);
    } else if l.fourCC.NV21? {
      ChromaShapes(src, w, h);
      InterleavedPicture(Cr(src, w, h), Cb(src, w, h), w / 2, |m.cb|, l.cbStride);
    }
  }

  lemma SemiPlanarRecovered(m: Planes, l: Layout, src: seq<Byte>, w: nat, h: nat)
    requires Holds(|src|, w, h) && Room(m, l, src, w, h) && WideEnough(l, w) && SemiPlanar(l.fourCC)
    ensures var cb := Loaded(m, l, src, w, h).cb;
            && Readable(|cb|, 0, l.cbStride, 2 * (w / 2), h / 2)
            && var pairs := RowsOf(cb, 0, l.cbStride, 2 * (w / 2), h / 2);
               EveryOf(pairs, l.fourCC.NV21?) == Cb(src, w, h) && EveryOf(pairs, l.fourCC.NV12?) == Cr(src, w, h)
  {
    ChromaIsPicture(m, l, src, w, h);
    PaintReadsBack(m.cb, l.cbStride, 2 * (w / 2), Chroma(l.fourCC, src, w, h));
    ChromaShapes(src, w, h);
    if l.fourCC.NV12? {
      PlanesSeparate(Cb(src, w, h), Cr(src, w, h));
    } else {
      PlanesSeparate(Cr(src, w, h), Cb(src, w, h));
    }
  }

  lemma PlanarRecovered(m: Planes, l: Layout, src: seq<Byte>, w: nat, h: nat)
    requires Holds(|src|, w, h) && Room(m, l, src, w, h) && WideEnough(l, w) && Planar(l.fourCC)
    ensures var p := Loaded(m, l, src, w, h);
            && Readable(|p.cb|, 0, l.cbStride, w / 2, h / 2) && Readable(|p.cr|, 0, l.crStride, w / 2, h / 2)
            && RowsOf(p.cb, 0, l.cbStride, w / 2, h / 2) == Cb(src, w, h)
            && RowsOf(p.cr, 0, l.crStride, w / 2, h / 2) == Cr(src, w, h)
  {
    ChromaIsPicture(m, l, src, w, h);
    PaintReadsBack(m.cb, l.cbStride, w / 2, Cb(src, w, h));
    PaintReadsBack(m.cr, l.crStride, w / 2, Cr(src, w, h));
  }

  lemma LumaRecovered(m: Planes, l: Layout, src: seq<Byte>, w: nat, h: nat)
    requires Holds(|src|, w, h) && Room(m, l, src, w, h) && w <= l.luStride
    ensures Picture(|m.lu|, l.luStride, w, Luma(src, w, h))
    ensures var lu := Loaded(m, l, src, w, h).lu;
            Readable(|lu|, 0, l.luStride, w, h) && RowsOf(lu, 0, l.luStride, w, h) == Luma(src, w, h)
  {
    PlainPicture(src, 0, w, h, |m.lu|, l.luStride);
    PaintReadsBack(m.lu, l.luStride, w, Luma(src, w, h));
  }

  /** In every layout the memory holds exactly the planes of the source. */
  lemma FrameRecovered(m: Planes, l: Layout, src: seq<Byte>, w: nat, h: nat)
    requires Holds(|src|, w, h) && Room(m, l, src, w, h) && WideEnough(l, w) && !l.fourCC.Other?
    ensures Legible(Loaded(m, l, src, w, h), l, w, h)
    ensures FrameIn(Loaded(m, l, src, w, h), l, w, h) == Source(src, w, h)
  {
    LumaRecovered(m, l, src, w, h);
    if Planar(l.fourCC) {
      PlanarRecovered(m, l, src, w, h);
    } else {
      SemiPlanarRecovered(m, l, src, w, h);
    }
  }

  // ---- Back to the bytes of the source ----

  function Flat(rows: seq<Row>): seq<Byte> {
    if rows == [] then [] else Flat(rows[..|rows| - 1]) + rows[|rows| - 1]
  }

  function Spelled(f: Frame): seq<Byte> {
    Flat(f.y) + Flat(f.cb) + Flat(f.cr)
  }

  lemma ReadableAll(size: nat, from: nat, w: nat, n: nat)
    requires from + Times(n, w) <= size
    ensures Readable(size, from, w, w, n)
  {
  }

  lemma FlatNext(rows: seq<Row>, row: Row)
    ensures Flat(rows + [row]) == Flat(rows) + row
  {
    assert (rows + [row])[..|rows|] == rows;
  }

  lemma SliceNext(s: seq<Byte>, from: nat, at: nat, w: nat)
    requires from <= at && at + w <= |s|
    ensures s[from..at + w] == s[from..at] + RowAt(s, at, w)
  {
  }

  lemma FlatExtends(src: seq<Byte>, from: nat, at: nat, w: nat, rows: seq<Row>)
    requires from <= at && at + w <= |src| && Flat(rows) == src[from..at]
    ensures Flat(rows + [RowAt(src, at, w)]) == src[from..at + w]
  {
    FlatNext(rows, RowAt(src, at, w));
    SliceNext(src, from, at, w);
  }

  lemma RowsOfNext(src: seq<Byte>, from: nat, w: nat, n: nat)
    requires n > 0 && from + Times(n, w) <= |src|
    ensures Times(n, w) == Times(n - 1, w) + w
    ensures Readable(|src|, from, w, w, n - 1) && Readable(|src|, from, w, w, n)
    ensures RowsOf(src, from, w, w, n) == RowsOf(src, from, w, w, n - 1) + [RowAt(src, from + Times(n - 1, w), w)]
  {
    ReadableAll(|src|, from, w, n);
    ReadableAll(|src|, from, w, n - 1);
  }

  lemma {:induction false} FlatRows(src: seq<Byte>, from: nat, w: nat, n: nat)
    requires from + Times(n, w) <= |src|
    ensures Readable(|src|, from, w, w, n)
    ensures Flat(RowsOf(src, from, w, w, n)) == src[from..from + Times(n, w)]
  {
    if n > 0 {
      RowsOfNext(src, from, w, n);
      FlatRows(src, from, w, n - 1);
      FlatExtends(src, from, from + Times(n - 1, w), w, RowsOf(src, from, w, w, n - 1));
    }
  }

  /** Where the Cb and Cr planes of the source start, for any size. */
  lemma ChromaPointers(w: nat, h: nat)
    ensures CbAt(w, h) == h * w && CrAt(w, h) == h * w + h * w / 4
  {
    TimesIsProduct(h, w);
  }

  /** With even sizes the two chroma planes follow the luma plane and each other without gaps. */
  lemma ChromaFollows(w: nat, h: nat)
    requires w % 2 == 0 && h % 2 == 0
    ensures CrAt(w, h) == CbAt(w, h) + Times(h / 2, w / 2)
  {
    var a, b := w / 2, h / 2;
    TimesIsProduct(h, w);
    TimesIsProduct(b, a);
    assert h * w == 4 * (b * a) by {
      assert h == 2 * b && w == 2 * a;
      assert (2 * b) * (2 * a) == 4 * (b * a);
    }
  }

  /** For even sizes nothing is lost: the loaded memory still spells the whole source frame. */
  lemma SourceRecovered(m: Planes, l: Layout, src: seq<Byte>, w: nat, h: nat)
    requires w % 2 == 0 && h % 2 == 0 && |src| == CrAt(w, h) + Times(h / 2, w / 2)
    requires Holds(|src|, w, h) && Room(m, l, src, w, h) && WideEnough(l, w) && !l.fourCC.Other?
    ensures Legible(Loaded(m, l, src, w, h), l, w, h)
    ensures Spelled(FrameIn(Loaded(m, l, src, w, h), l, w, h)) == src
  {
    FrameRecovered(m, l, src, w, h);
    ChromaFollows(w, h);
    SourceSpelled(src, w, h);
  }

  lemma SourceSpelled(src: seq<Byte>, w: nat, h: nat)
    requires |src| == CrAt(w, h) + Times(h / 2, w / 2) && CrAt(w, h) == CbAt(w, h) + Times(h / 2, w / 2)
    requires Holds(|src|, w, h)
    ensures Spelled(Source(src, w, h)) == src
  {
    FlatRows(src, 0, w, h);
    FlatRows(src, CbAt(w, h), w / 2, h / 2);
    FlatRows(src, CrAt(w, h), w / 2, h / 2);
    Joined(src, CbAt(w, h), CrAt(w, h));
  }

  lemma Joined(s: seq<Byte>, i: nat, j: nat)
    requires i <= j <= |s|
    ensures s[0..i] + s[i..j] + s[j..|s|] == s
  {
  }

  // ---- Where each row lies ----

  /** Where the luma rows of the source are. */
  lemma LumaRows(src: seq<Byte>, w: nat, h: nat, y: nat)
    requires Holds(|src|, w, h) && y < h
    ensures Times(y, w) + w <= |src| && Luma(src, w, h)[y] == RowAt(src, Times(y, w), w)
  {
    RowOf(src, 0, w, w, h, y);
  }

  /** Luma row y lies at y strides, byte for byte. */
  lemma LumaRow(m: Planes, l: Layout, src: seq<Byte>, w: nat, h: nat, y: nat)
    requires Holds(|src|, w, h) && Room(m, l, src, w, h) && w <= l.luStride && y < h
    ensures Times(y, l.luStride) + w <= |m.lu|
    ensures RowAt(Loaded(m, l, src, w, h).lu, Times(y, l.luStride), w) == Luma(src, w, h)[y]
  {
    PlainPicture(src, 0, w, h, |m.lu|, l.luStride);
    PaintedRow(m.lu, l.luStride, w, Luma(src, w, h), y);
  }

  /** Where the chroma rows of the source are. */
  lemma ChromaRows(src: seq<Byte>, w: nat, h: nat, y: nat)
    requires Holds(|src|, w, h) && y < h / 2
    ensures CbAt(w, h) + Times(y, w / 2) + w / 2 <= |src| && CrAt(w, h) + Times(y, w / 2) + w / 2 <= |src|
    ensures Cb(src, w, h)[y] == RowAt(src, CbAt(w, h) + Times(y, w / 2), w / 2)
    ensures Cr(src, w, h)[y] == RowAt(src, CrAt(w, h) + Times(y, w / 2), w / 2)
  {
    RowOf(src, CbAt(w, h), w / 2, w / 2, h / 2, y);
    RowOf(src, CrAt(w, h), w / 2, w / 2, h / 2, y);
  }

  /** Planar chroma rows. */
  lemma PlanarRow(m: Planes, l: Layout, src: seq<Byte>, w: nat, h: nat, y: nat)
    requires Holds(|src|, w, h) && Room(m, l, src, w, h) && WideEnough(l, w) && Planar(l.fourCC) && y < h / 2
    ensures Times(y, l.cbStride) + w / 2 <= |m.cb| && Times(y, l.crStride) + w / 2 <= |m.cr|
    ensures RowAt(Loaded(m, l, src, w, h).cb, Times(y, l.cbStride), w / 2) == Cb(src, w, h)[y]
    ensures RowAt(Loaded(m, l, src, w, h).cr, Times(y, l.crStride), w / 2) == Cr(src, w, h)[y]
  {
    ChromaIsPicture(m, l, src, w, h);
    PaintedRow(m.cb, l.cbStride, w / 2, Cb(src, w, h), y);
    PaintedRow(m.cr, l.crStride, w / 2, Cr(src, w, h), y);
  }

  /** Semi-planar chroma rows: Cb, Cr, Cb, Cr, ... for NV12, Cr first for NV21. */
  lemma SemiPlanarRow(m: Planes, l: Layout, src: seq<Byte>, w: nat, h: nat, y: nat)
    requires Holds(|src|, w, h) && Room(m, l, src, w, h) && WideEnough(l, w) && SemiPlanar(l.fourCC) && y < h / 2
    ensures Times(y, l.cbStride) + 2 * (w / 2) <= |m.cb|
    ensures RowAt(Loaded(m, l, src, w, h).cb, Times(y, l.cbStride), 2 * (w / 2)) ==
            if l.fourCC.NV12? then Interleave(Cb(src, w, h)[y], Cr(src, w, h)[y])
            else Interleave(Cr(src, w, h)[y], Cb(src, w, h)[y])
  {
    ChromaIsPicture(m, l, src, w, h);
    PaintedRow(m.cb, l.cbStride, 2 * (w / 2), Chroma(l.fourCC, src, w, h), y);
    if l.fourCC.NV12? {
      InterleavedRow(Cb(src, w, h), Cr(src, w, h), y);
    } else {
      InterleavedRow(Cr(src, w, h), Cb(src, w, h), y);
    }
  }

  // ---- What is not written ----

  predicate BesideRow(y: nat, stride: nat, w: nat, k: nat) {
    k < Times(y, stride) || Times(y, stride) + w <= k
  }

  /** Byte k lies in none of n rows of w bytes, stride apart. */
  predicate InNoRow(stride: nat, w: nat, n: nat, k: nat) {
    forall y: nat :: y < n ==> BesideRow(y, stride, w, k)
  }

  lemma OutsideRows(stride: nat, w: nat, rows: seq<Row>, k: nat)
    requires InNoRow(stride, w, |rows|, k) && forall y :: 0 <= y < |rows| ==> |rows[y]| == w
    ensures Outside(stride, rows, k)
  {
    forall y | 0 <= y < |rows| ensures Beside(y, stride, rows[y], k) {
      assert BesideRow(y, stride, w, k);
    }
  }

  lemma PlaneUntouched(buf: seq<Byte>, stride: nat, w: nat, rows: seq<Row>, k: nat)
    requires Fits(|buf|, stride, rows) && forall y :: 0 <= y < |rows| ==> |rows[y]| == w
    requires k < |buf| && InNoRow(stride, w, |rows|, k)
    ensures Paint(buf, stride, rows)[k] == buf[k]
  {
    OutsideRows(stride, w, rows, k);
    PaddingStays(buf, stride, rows, k);
  }

  /** The rows of the Cb plane are as many and as wide as its format has them. */
  lemma ChromaWide(fourCC: FourCC, src: seq<Byte>, w: nat, h: nat)
    requires Holds(|src|, w, h) && !fourCC.Other?
    ensures |Chroma(fourCC, src, w, h)| == h / 2
    ensures forall y :: 0 <= y < h / 2 ==>
              |Chroma(fourCC, src, w, h)[y]| == if SemiPlanar(fourCC) then 2 * (w / 2) else w / 2
  {
    ChromaShapes(src, w, h);
    forall y | 0 <= y < h / 2
      ensures |Chroma(fourCC, src, w, h)[y]| == if SemiPlanar(fourCC) then 2 * (w / 2) else w / 2
    {
      if fourCC.NV12? {
        InterleavedRow(Cb(src, w, h), Cr(src, w, h), y);
      } else if fourCC.NV21? {
        InterleavedRow(Cr(src, w, h), Cb(src, w, h), y);
      }
    }
  }

  lemma LumaUntouched(m: Planes, l: Layout, src: seq<Byte>, w: nat, h: nat, k: nat)
    requires Holds(|src|, w, h) && Room(m, l, src, w, h)
    requires k < |m.lu| && InNoRow(l.luStride, w, h, k)
    ensures Loaded(m, l, src, w, h).lu[k] == m.lu[k]
  {
    forall y | 0 <= y < h ensures |Luma(src, w, h)[y]| == w {
      RowsAllWide(src, 0, w, w, h, y);
    }
    PlaneUntouched(m.lu, l.luStride, w, Luma(src, w, h), k);
  }

  lemma CbUntouched(m: Planes, l: Layout, src: seq<Byte>, w: nat, h: nat, k: nat)
    requires Holds(|src|, w, h) && Room(m, l, src, w, h) && !l.fourCC.Other?
    requires k < |m.cb| && InNoRow(l.cbStride, if SemiPlanar(l.fourCC) then 2 * (w / 2) else w / 2, h / 2, k)
    ensures Loaded(m, l, src, w, h).cb[k] == m.cb[k]
  {
    ChromaWide(l.fourCC, src, w, h);
    PlaneUntouched(m.cb, l.cbStride, if SemiPlanar(l.fourCC) then 2 * (w / 2) else w / 2, Chroma(l.fourCC, src, w, h), k);
  }

  lemma CrUntouched(m: Planes, l: Layout, src: seq<Byte>, w: nat, h: nat, k: nat)
    requires Holds(|src|, w, h) && Room(m, l, src, w, h) && Planar(l.fourCC)
    requires k < |m.cr| && InNoRow(l.crStride, w / 2, h / 2, k)
    ensures Loaded(m, l, src, w, h).cr[k] == m.cr[k]
  {
    ChromaShapes(src, w, h);
    PlaneUntouched(m.cr, l.crStride, w / 2, Cr(src, w, h), k);
  }

  /** What lies outside the h luma rows of w bytes and the h / 2 chroma rows is not written:
      chroma rows are 2 * (w / 2) bytes in the one chroma plane of a semi-planar format, and
      w / 2 bytes in each of the two of a planar one. */
  lemma PaddingUntouched(m: Planes, l: Layout, src: seq<Byte>, w: nat, h: nat, k: nat)
    requires Holds(|src|, w, h) && Room(m, l, src, w, h)
    ensures var p := Loaded(m, l, src, w, h);
            && |p.lu| == |m.lu| && |p.cb| == |m.cb| && |p.cr| == |m.cr|
            && (k < |m.lu| && InNoRow(l.luStride, w, h, k) ==> p.lu[k] == m.lu[k])
            && match l.fourCC {
                 case NV12 | NV21 => k < |m.cb| && InNoRow(l.cbStride, 2 * (w / 2), h / 2, k) ==> p.cb[k] == m.cb[k]
                 case MVS0 | YV12 | IYUV =>
                   && (k < |m.cb| && InNoRow(l.cbStride, w / 2, h / 2, k) ==> p.cb[k] == m.cb[k])
                   && (k < |m.cr| && InNoRow(l.crStride, w / 2, h / 2, k) ==> p.cr[k] == m.cr[k])
                 case Other => true
               }
  {
    if k < |m.lu| && InNoRow(l.luStride, w, h, k) {
      LumaUntouched(m, l, src, w, h, k);
    }
    if !l.fourCC.Other? && k < |m.cb| &&
       InNoRow(l.cbStride, if SemiPlanar(l.fourCC) then 2 * (w / 2) else w / 2, h / 2, k) {
      CbUntouched(m, l, src, w, h, k);
    }
    if Planar(l.fourCC) && k < |m.cr| && InNoRow(l.crStride, w / 2, h / 2, k) {
      CrUntouched(m, l, src, w, h, k);
    }
  }

  /** The plane behind crVirAddr is left alone in the semi-planar formats, and both chroma planes
      in a format the code does not know. */
  lemma PlanesLeftAlone(m: Planes, l: Layout, src: seq<Byte>, w: nat, h: nat)
    requires Holds(|src|, w, h) && Room(m, l, src, w, h)
    ensures l.fourCC.NV12? || l.fourCC.NV21? || l.fourCC.Other? ==> Loaded(m, l, src, w, h).cr == m.cr
    ensures l.fourCC.Other? ==> Loaded(m, l, src, w, h).cb == m.cb
  {
  }
}
