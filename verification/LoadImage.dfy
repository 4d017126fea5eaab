/**
 Loading a planar frame (Y, then Cb, then Cr) into video memory that holds it in another
 layout: semi-planar in either order or planar, every plane with its own stride.
 */
module LoadImage {
  import opened Bytes
  import opened PixelRows

  datatype FourCC = NV12 | NV21 | MVS0 | YV12 | IYUV | Other

  datatype Layout = Layout(fourCC: FourCC, luStride: nat, cbStride: nat, crStride: nat)

  datatype Planes = Planes(lu: seq<Byte>, cb: seq<Byte>, cr: seq<Byte>)

  // ---- The frame in the source buffer ----

  function CbAt(w: nat, h: nat): nat {
    Times(h, w)
  }

  function CrAt(w: nat, h: nat): nat {
    Times(h, w) + Times(h, w) / 4
  }

  predicate Holds(size: nat, w: nat, h: nat) {
    && Readable(size, 0, w, w, h)
    && Readable(size, CbAt(w, h), w / 2, w / 2, h / 2)
    && Readable(size, CrAt(w, h), w / 2, w / 2, h / 2)
  }

  // ---- Interleaving ----

  function Interleave(a: Row, b: Row): (r: Row)
    ensures |a| == |b| ==> |r| == 2 * |a|
  {
    if a == [] || b == [] then [] else
    var m, n := |a| - 1, |b| - 1;
    Interleave(a[..m], b[..n]) + [a[m], b[n]]
  }

  /** Every second byte, from the first or from the second on. */
  function Every(row: Row, second: bool): Row {
    if |row| < 2 then [] else
    Every(row[..|row| - 2], second) + [row[|row| - (if second then 1 else 2)]]
  }

  lemma EveryNext(row: Row, x: Byte, y: Byte)
    ensures Every(row + [x, y], false) == Every(row, false) + [x]
    ensures Every(row + [x, y], true) == Every(row, true) + [y]
  {
    assert (row + [x, y])[..|row|] == row;
  }

  lemma LastByte(a: Row)
    requires a != []
    ensures a == a[..|a| - 1] + [a[|a| - 1]]
  {
  }

  lemma {:induction false} InterleaveSeparates(a: Row, b: Row, second: bool)
    requires |a| == |b|
    ensures Every(Interleave(a, b), second) == if second then b else a
  {
    if a != [] {
      var n := |a| - 1;
      InterleaveSeparates(a[..n], b[..n], second);
      EveryNext(Interleave(a[..n], b[..n]), a[n], b[n]);
      LastByte(a);
      LastByte(b);
    }
  }

  lemma {:induction false} InterleavedAt(a: Row, b: Row, x: nat)
    requires |a| == |b| && x < |a|
    ensures Interleave(a, b)[2 * x] == a[x] && Interleave(a, b)[2 * x + 1] == b[x]
  {
    if x < |a| - 1 {
      InterleavedAt(a[..|a| - 1], b[..|a| - 1], x);
    }
  }

  /** Two planes interleaved row by row. */
  function Interleaved(p1: seq<Row>, p2: seq<Row>): (rows: seq<Row>)
    requires |p1| == |p2|
    ensures |rows| == |p1|
  {
    if p1 == [] then [] else
    var n := |p1| - 1;
    Interleaved(p1[..n], p2[..n]) + [Interleave(p1[n], p2[n])]
  }

  lemma {:induction false} InterleavedRow(p1: seq<Row>, p2: seq<Row>, y: nat)
    requires |p1| == |p2| && y < |p1|
    ensures Interleaved(p1, p2)[y] == Interleave(p1[y], p2[y])
  {
    if y < |p1| - 1 {
      InterleavedRow(p1[..|p1| - 1], p2[..|p2| - 1], y);
    }
  }

  function EveryOf(rows: seq<Row>, second: bool): (r: seq<Row>)
    ensures |r| == |rows|
  {
    if rows == [] then [] else
    var n := |rows| - 1;
    EveryOf(rows[..n], second) + [Every(rows[n], second)]
  }

  lemma {:induction false} EveryOfRow(rows: seq<Row>, second: bool, y: nat)
    requires y < |rows|
    ensures EveryOf(rows, second)[y] == Every(rows[y], second)
  {
    if y < |rows| - 1 {
      EveryOfRow(rows[..|rows| - 1], second, y);
    }
  }

  predicate SameShape(p1: seq<Row>, p2: seq<Row>) {
    |p1| == |p2| && forall y :: 0 <= y < |p1| ==> |p1[y]| == |p2[y]|
  }

  lemma RowsSeparate(p1: seq<Row>, p2: seq<Row>, y: nat)
    requires |p1| == |p2| && y < |p1| && |p1[y]| == |p2[y]|
    ensures EveryOf(Interleaved(p1, p2), false)[y] == p1[y] && EveryOf(Interleaved(p1, p2), true)[y] == p2[y]
  {
    InterleavedRow(p1, p2, y);
    EveryOfRow(Interleaved(p1, p2), false, y);
    EveryOfRow(Interleaved(p1, p2), true, y);
    InterleaveSeparates(p1[y], p2[y], false);
    InterleaveSeparates(p1[y], p2[y], true);
  }

  /** Two planes interleaved row by row come apart again. */
  lemma PlanesSeparate(p1: seq<Row>, p2: seq<Row>)
    requires SameShape(p1, p2)
    ensures EveryOf(Interleaved(p1, p2), false) == p1 && EveryOf(Interleaved(p1, p2), true) == p2
  {
    var first, second := EveryOf(Interleaved(p1, p2), false), EveryOf(Interleaved(p1, p2), true);
    forall y | 0 <= y < |p1| ensures first[y] == p1[y] && second[y] == p2[y] {
      RowsSeparate(p1, p2, y);
    }
    SameRows(first, p1);
    SameRows(second, p2);
  }

  // ---- The loaded planes ----

  function Luma(src: seq<Byte>, w: nat, h: nat): seq<Row>
    requires Holds(|src|, w, h)
  {
    RowsOf(src, 0, w, w, h)
  }

  function Cb(src: seq<Byte>, w: nat, h: nat): (rows: seq<Row>)
    requires Holds(|src|, w, h)
    ensures |rows| == h / 2
  {
    RowsOf(src, CbAt(w, h), w / 2, w / 2, h / 2)
  }

  function Cr(src: seq<Byte>, w: nat, h: nat): (rows: seq<Row>)
    requires Holds(|src|, w, h)
    ensures |rows| == h / 2
  {
    RowsOf(src, CrAt(w, h), w / 2, w / 2, h / 2)
  }

  /** The rows that go to the Cb plane. */
  function Chroma(fourCC: FourCC, src: seq<Byte>, w: nat, h: nat): seq<Row>
    requires Holds(|src|, w, h)
  {
    match fourCC
    case NV12 => Interleaved(Cb(src, w, h), Cr(src, w, h))
    case NV21 => Interleaved(Cr(src, w, h), Cb(src, w, h))
    case Other => []
    case _ => Cb(src, w, h)
  }

  predicate Planar(fourCC: FourCC) {
    fourCC.MVS0? || fourCC.YV12? || fourCC.IYUV?
  }

  /** The rows that go to the Cr plane. */
  function Chroma2(fourCC: FourCC, src: seq<Byte>, w: nat, h: nat): seq<Row>
    requires Holds(|src|, w, h)
  {
    if Planar(fourCC) then Cr(src, w, h) else []
  }

  predicate Room(m: Planes, l: Layout, src: seq<Byte>, w: nat, h: nat)
    requires Holds(|src|, w, h)
  {
    && Fits(|m.lu|, l.luStride, Luma(src, w, h))
    && Fits(|m.cb|, l.cbStride, Chroma(l.fourCC, src, w, h))
    && Fits(|m.cr|, l.crStride, Chroma2(l.fourCC, src, w, h))
  }

  function Loaded(m: Planes, l: Layout, src: seq<Byte>, w: nat, h: nat): Planes
    requires Holds(|src|, w, h) && Room(m, l, src, w, h)
  {
    Planes(Paint(m.lu, l.luStride, Luma(src, w, h)),
           Paint(m.cb, l.cbStride, Chroma(l.fourCC, src, w, h)),
           Paint(m.cr, l.crStride, Chroma2(l.fourCC, src, w, h)))
  }

  // ---- In place ----

  method PutPair(dst: array<Byte>, p: nat, x: Byte, y: Byte, ghost was: seq<Byte>, ghost at: nat, ghost row: Row)
    requires p == at + |row| && p + 2 <= dst.Length && |was| == dst.Length && dst[..] == Put(was, at, row)
    modifies dst
    ensures dst[..] == Put(was, at, row + [x, y])
  {
    dst[p] := x;
    dst[p + 1] := y;
  }

  lemma InterleaveNext(a: Row, b: Row, j: nat)
    requires |a| == |b| && j < |a|
    ensures Interleave(a[..j + 1], b[..j + 1]) == Interleave(a[..j], b[..j]) + [a[j], b[j]]
  {
    assert a[..j + 1][..j] == a[..j] && b[..j + 1][..j] == b[..j];
  }

  /** One interleaved row. */
  method WritePairs(src: seq<Byte>, pa: nat, pb: nat, dst: array<Byte>, at: nat, n: nat)
    requires pa + n <= |src| && pb + n <= |src| && at + 2 * n <= dst.Length
    modifies dst
    ensures dst[..] == Put(old(dst[..]), at, Interleave(RowAt(src, pa, n), RowAt(src, pb, n)))
  {
    var p, j := at, 0;
    ghost var a, b, was := RowAt(src, pa, n), RowAt(src, pb, n), dst[..];
    while j < n
      invariant 0 <= j <= n && p == at + 2 * j
      invariant dst[..] == Put(was, at, Interleave(a[..j], b[..j]))
    {
      InterleaveNext(a, b, j);
      PutPair(dst, p, src[pa + j], src[pb + j], was, at, Interleave(a[..j], b[..j]));
      p := p + 2;
      j := j + 1;
    }
    assert a[..n] == a && b[..n] == b;
  }

  lemma InterleavedRowOf(src: seq<Byte>, from: nat, from2: nat, w: nat, n: nat, y: nat)
    requires Readable(|src|, from, w, w, n) && Readable(|src|, from2, w, w, n) && y < n
    ensures from + Times(y, w) + w <= |src| && from2 + Times(y, w) + w <= |src|
    ensures Interleaved(RowsOf(src, from, w, w, n), RowsOf(src, from2, w, w, n))[y] ==
            Interleave(RowAt(src, from + Times(y, w), w), RowAt(src, from2 + Times(y, w), w))
  {
    RowOf(src, from, w, w, n, y);
    RowOf(src, from2, w, w, n, y);
    InterleavedRow(RowsOf(src, from, w, w, n), RowsOf(src, from2, w, w, n), y);
  }

  method PairRowAt(src: seq<Byte>, pa: nat, pb: nat, dst: array<Byte>, at: nat, w: nat, ghost i: nat, ghost job: Job)
    requires pa + w <= |src| && pb + w <= |src| && dst[..] == Canvas(job, i)
    requires i < |job.rows| && at == Times(i, job.stride)
    requires job.rows[i] == Interleave(RowAt(src, pa, w), RowAt(src, pb, w))
    modifies dst
    ensures dst[..] == Canvas(job, i + 1)
  {
    CanvasNext(job, i);
    WritePairs(src, pa, pb, dst, at, w);
  }

  /** The next interleaved row of the picture. */
  method InterleaveRound(src: seq<Byte>, pa: nat, pb: nat, dst: array<Byte>, at: nat, stride: nat, w: nat,
                         ghost from: nat, ghost from2: nat, ghost n: nat, ghost i: nat, ghost job: Job)
      returns (nextA: nat, nextB: nat, nextAt: nat)
    requires i < n && Readable(|src|, from, w, w, n) && Readable(|src|, from2, w, w, n)
    requires job.rows == Interleaved(RowsOf(src, from, w, w, n), RowsOf(src, from2, w, w, n)) && job.stride == stride
    requires pa == from + Times(i, w) && pb == from2 + Times(i, w) && at == Times(i, stride)
    requires dst[..] == Canvas(job, i)
    modifies dst
    ensures nextA == from + Times(i + 1, w) && nextB == from2 + Times(i + 1, w) && nextAt == Times(i + 1, stride)
    ensures dst[..] == Canvas(job, i + 1)
  {
    InterleavedRowOf(src, from, from2, w, n, i);
    PairRowAt(src, pa, pb, dst, at, w, i, job);
    nextA, nextB, nextAt := pa + w, pb + w, at + stride;
  }

  /** The two chroma planes, interleaved. */
  method InterleavePlanes(src: seq<Byte>, from: nat, from2: nat, dst: array<Byte>, stride: nat, w: nat, n: nat)
    requires Readable(|src|, from, w, w, n) && Readable(|src|, from2, w, w, n)
    requires Fits(dst.Length, stride, Interleaved(RowsOf(src, from, w, w, n), RowsOf(src, from2, w, w, n)))
    modifies dst
    ensures dst[..] == Paint(old(dst[..]), stride, Interleaved(RowsOf(src, from, w, w, n), RowsOf(src, from2, w, w, n)))
  {
    var pa, pb, at, i := from, from2, 0, 0;
    ghost var job: Job :=
      Painting(dst[..], stride, Interleaved(RowsOf(src, from, w, w, n), RowsOf(src, from2, w, w, n)));
    CanvasFull(job);
    while i < n
      invariant 0 <= i <= n && at == Times(i, stride) && pa == from + Times(i, w) && pb == from2 + Times(i, w)
      invariant dst[..] == Canvas(job, i)
    {
      pa, pb, at := InterleaveRound(src, pa, pb, dst, at, stride, w, from, from2, n, i, job);
      i := i + 1;
    }
  }

  /** The chroma planes behind pCb and pCr, as the memory's format wants them. */
  method LoadChroma(src: seq<Byte>, pCb: nat, pCr: nat, w: nat, h: nat, l: Layout, cb: array<Byte>, cr: array<Byte>)
    requires cb != cr && pCb == CbAt(w, h) && pCr == CrAt(w, h) && Holds(|src|, w, h)
    requires Fits(cb.Length, l.cbStride, Chroma(l.fourCC, src, w, h))
    requires Fits(cr.Length, l.crStride, Chroma2(l.fourCC, src, w, h))
    modifies cb, cr
    ensures cb[..] == Paint(old(cb[..]), l.cbStride, Chroma(l.fourCC, src, w, h))
    ensures cr[..] == Paint(old(cr[..]), l.crStride, Chroma2(l.fourCC, src, w, h))
    ensures l.fourCC.NV12? || l.fourCC.NV21? || l.fourCC.Other? ==> cr[..] == old(cr[..])
    ensures l.fourCC.Other? ==> cb[..] == old(cb[..])
  {
    match l.fourCC {
      case NV12 =>
        InterleavePlanes(src, pCb, pCr, cb, l.cbStride, w / 2, h / 2);
      case NV21 =>
        InterleavePlanes(src, pCr, pCb, cb, l.cbStride, w / 2, h / 2);
      case Other =>
      case _ =>
        var _ := CopyPlane(src, pCb, cb, l.cbStride, w / 2, h / 2);
        var _ := CopyPlane(src, pCr, cr, l.crStride, w / 2, h / 2);
    }
  }

  method Load(src: seq<Byte>, w: nat, h: nat, l: Layout, lu: array<Byte>, cb: array<Byte>, cr: array<Byte>)
    requires lu != cb && lu != cr && cb != cr && Holds(|src|, w, h)
    requires Room(Planes(lu[..], cb[..], cr[..]), l, src, w, h)
    modifies lu, cb, cr
    ensures Planes(lu[..], cb[..], cr[..]) == Loaded(old(Planes(lu[..], cb[..], cr[..])), l, src, w, h)
    ensures l.fourCC.NV12? || l.fourCC.NV21? || l.fourCC.Other? ==> cr[..] == old(cr[..])
    ensures l.fourCC.Other? ==> cb[..] == old(cb[..])
  {
    var pCb := CopyPlane(src, 0, lu, l.luStride, w, h);
    TimesIsProduct(h, w);
    var pCr := pCb + w * h / 4;
    LoadChroma(src, pCb, pCr, w, h, l, cb, cr);
  }
}
