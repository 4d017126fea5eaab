/**
 Picture planes as bytes in a buffer, one row every `stride` bytes: reading rows out of a
 buffer, painting rows into one, and the in-place steps that do it.
 */
module PixelRows {
  import opened Bytes

  type Row = seq<Byte>

  // ---- Offsets ----

  /** How far n strides reach. */
  function Times(n: nat, stride: nat): nat {
    if n == 0 then 0 else Times(n - 1, stride) + stride
  }

  lemma {:induction false} TimesIsProduct(n: nat, stride: nat)
    ensures Times(n, stride) == n * stride
  {
    if n > 0 {
      TimesIsProduct(n - 1, stride);
      assert n * stride == (n - 1) * stride + stride;
    }
  }

  lemma {:induction false} TimesOrdered(m: nat, n: nat, stride: nat)
    requires m <= n
    ensures Times(m, stride) <= Times(n, stride)
    ensures m < n ==> Times(m, stride) + stride <= Times(n, stride)
  {
    if m < n {
      TimesOrdered(m, n - 1, stride);
    }
  }

  // ---- Rows in a buffer ----

  /** The buffer with a row written over it. */
  function Put(buf: seq<Byte>, at: nat, row: Row): (r: seq<Byte>)
    requires at + |row| <= |buf|
    ensures |r| == |buf|
  {
    buf[..at] + row + buf[at + |row|..]
  }

  /** Where row i of a picture ends. */
  function RowEnd(i: nat, stride: nat, row: Row): nat {
    Times(i, stride) + |row|
  }

  predicate Fits(size: nat, stride: nat, rows: seq<Row>) {
    forall i :: 0 <= i < |rows| ==> RowEnd(i, stride, rows[i]) <= size
  }

  /** The buffer after rows have been written to it in order, one every stride bytes. */
  function Paint(buf: seq<Byte>, stride: nat, rows: seq<Row>): (r: seq<Byte>)
    requires Fits(|buf|, stride, rows)
    ensures |r| == |buf|
  {
    if rows == [] then buf else
    var n := |rows| - 1;
    Put(Paint(buf, stride, rows[..n]), Times(n, stride), rows[n])
  }

  /** Whether n rows of w bytes, stride apart, lie within a buffer. */
  predicate Readable(size: nat, from: nat, stride: nat, w: nat, n: nat) {
    n > 0 ==> from + Times(n - 1, stride) + w <= size
  }

  function RowAt(buf: seq<Byte>, at: nat, w: nat): Row
    requires at + w <= |buf|
  {
    buf[at..at + w]
  }

  /** The n rows of w bytes, stride apart. */
  function RowsOf(buf: seq<Byte>, from: nat, stride: nat, w: nat, n: nat): (rows: seq<Row>)
    requires Readable(|buf|, from, stride, w, n)
    ensures |rows| == n
  {
    if n == 0 then [] else
    RowsOf(buf, from, stride, w, n - 1) + [RowAt(buf, from + Times(n - 1, stride), w)]
  }

  lemma {:induction false} RowOf(buf: seq<Byte>, from: nat, stride: nat, w: nat, n: nat, y: nat)
    requires Readable(|buf|, from, stride, w, n) && y < n
    ensures from + Times(y, stride) + w <= |buf|
    ensures RowsOf(buf, from, stride, w, n)[y] == RowAt(buf, from + Times(y, stride), w)
  {
    if y < n - 1 {
      RowOf(buf, from, stride, w, n - 1, y);
    }
  }

  /** A painting of n rows of w bytes, at a stride that keeps them apart. */
  predicate Picture(size: nat, stride: nat, w: nat, rows: seq<Row>) {
    w <= stride && Fits(size, stride, rows) && forall i :: 0 <= i < |rows| ==> |rows[i]| == w
  }

  lemma PictureFewer(size: nat, stride: nat, w: nat, rows: seq<Row>)
    requires Picture(size, stride, w, rows) && rows != []
    ensures Picture(size, stride, w, rows[..|rows| - 1])
  {
  }

  lemma PutAt(buf: seq<Byte>, at: nat, row: Row)
    requires at + |row| <= |buf|
    ensures RowAt(Put(buf, at, row), at, |row|) == row
  {
  }

  lemma PutElsewhere(buf: seq<Byte>, at: nat, row: Row, k: nat, w: nat)
    requires at + |row| <= |buf| && k + w <= at
    ensures RowAt(Put(buf, at, row), k, w) == RowAt(buf, k, w)
  {
  }

  /** What was painted as row y is found there, byte for byte. */
  lemma {:induction false} PaintedRow(buf: seq<Byte>, stride: nat, w: nat, rows: seq<Row>, y: nat)
    requires Picture(|buf|, stride, w, rows) && y < |rows|
    ensures Times(y, stride) + w <= |buf|
    ensures RowAt(Paint(buf, stride, rows), Times(y, stride), w) == rows[y]
  {
    var n := |rows| - 1;
    var before := Paint(buf, stride, rows[..n]);
    if y == n {
      PutAt(before, Times(n, stride), rows[n]);
    } else {
      PictureFewer(|buf|, stride, w, rows);
      PaintedRow(buf, stride, w, rows[..n], y);
      TimesOrdered(y, n, stride);
      PutElsewhere(before, Times(n, stride), rows[n], Times(y, stride), w);
    }
  }

  lemma PictureReadable(size: nat, stride: nat, w: nat, rows: seq<Row>)
    requires Picture(size, stride, w, rows)
    ensures Readable(size, 0, stride, w, |rows|)
  {
    assert rows != [] ==> |rows[|rows| - 1]| == w;
  }

  lemma SameRows(a: seq<Row>, b: seq<Row>)
    requires |a| == |b| && forall y :: 0 <= y < |a| ==> a[y] == b[y]
    ensures a == b
  {
  }

  /** Row y of the picture in a buffer. */
  predicate ShowsRow(buf: seq<Byte>, y: nat, stride: nat, w: nat, row: Row) {
    Times(y, stride) + w <= |buf| && RowAt(buf, Times(y, stride), w) == row
  }

  lemma {:induction false} RowsAre(buf: seq<Byte>, stride: nat, w: nat, rows: seq<Row>, n: nat)
    requires n <= |rows| && Readable(|buf|, 0, stride, w, n)
    requires forall y :: 0 <= y < |rows| ==> ShowsRow(buf, y, stride, w, rows[y])
    ensures RowsOf(buf, 0, stride, w, n) == rows[..n]
  {
    if n > 0 {
      RowsAre(buf, stride, w, rows, n - 1);
      assert ShowsRow(buf, n - 1, stride, w, rows[n - 1]);
      assert rows[..n] == rows[..n - 1] + [rows[n - 1]];
    }
  }

  /** Painting rows and reading them back. */
  lemma PaintReadsBack(buf: seq<Byte>, stride: nat, w: nat, rows: seq<Row>)
    requires Picture(|buf|, stride, w, rows)
    ensures Readable(|buf|, 0, stride, w, |rows|)
    ensures RowsOf(Paint(buf, stride, rows), 0, stride, w, |rows|) == rows
  {
    PictureReadable(|buf|, stride, w, rows);
    var painted := Paint(buf, stride, rows);
    forall y | 0 <= y < |rows| ensures ShowsRow(painted, y, stride, w, rows[y]) {
      PaintedRow(buf, stride, w, rows, y);
    }
    RowsAre(painted, stride, w, rows, |rows|);
    assert rows[..|rows|] == rows;
  }

  predicate Beside(i: nat, stride: nat, row: Row, k: nat) {
    k < Times(i, stride) || RowEnd(i, stride, row) <= k
  }

  predicate Outside(stride: nat, rows: seq<Row>, k: nat) {
    forall i :: 0 <= i < |rows| ==> Beside(i, stride, rows[i], k)
  }

  lemma OutsideFewer(stride: nat, rows: seq<Row>, k: nat)
    requires Outside(stride, rows, k) && rows != []
    ensures Outside(stride, rows[..|rows| - 1], k)
  {
  }

  lemma PutBeside(buf: seq<Byte>, at: nat, row: Row, k: nat)
    requires at + |row| <= |buf| && k < |buf| && (k < at || at + |row| <= k)
    ensures Put(buf, at, row)[k] == buf[k]
  {
  }

  /** The bytes between and behind the rows stay what they were. */
  lemma {:induction false} PaddingStays(buf: seq<Byte>, stride: nat, rows: seq<Row>, k: nat)
    requires Fits(|buf|, stride, rows) && k < |buf| && Outside(stride, rows, k)
    ensures Paint(buf, stride, rows)[k] == buf[k]
  {
    if rows != [] {
      var n := |rows| - 1;
      OutsideFewer(stride, rows, k);
      PaddingStays(buf, stride, rows[..n], k);
      PutBeside(Paint(buf, stride, rows[..n]), Times(n, stride), rows[n], k);
    }
  }

  // ---- In place ----

  lemma PaintNext(buf: seq<Byte>, stride: nat, rows: seq<Row>, i: nat)
    requires Fits(|buf|, stride, rows) && i < |rows|
    ensures Fits(|buf|, stride, rows[..i]) && Fits(|buf|, stride, rows[..i + 1])
    ensures Times(i, stride) + |rows[i]| <= |buf|
    ensures Paint(buf, stride, rows[..i + 1]) == Put(Paint(buf, stride, rows[..i]), Times(i, stride), rows[i])
  {
    assert rows[..i + 1][..i] == rows[..i];
  }

  /** Rows to be painted onto a canvas. */
  datatype Painting = Painting(was: seq<Byte>, stride: nat, rows: seq<Row>)

  type Job = p: Painting | Fits(|p.was|, p.stride, p.rows) witness Painting([], 0, [])

  /** The canvas when the first i rows are on it. */
  function Canvas(job: Job, i: nat): seq<Byte> {
    if i <= |job.rows| then Paint(job.was, job.stride, job.rows[..i]) else job.was
  }

  lemma CanvasFull(job: Job)
    ensures Canvas(job, 0) == job.was && Canvas(job, |job.rows|) == Paint(job.was, job.stride, job.rows)
  {
    assert job.rows[..|job.rows|] == job.rows;
  }

  lemma CanvasNext(job: Job, i: nat)
    requires i < |job.rows|
    ensures Times(i, job.stride) + |job.rows[i]| <= |Canvas(job, i)|
    ensures Canvas(job, i + 1) == Put(Canvas(job, i), Times(i, job.stride), job.rows[i])
  {
    PaintNext(job.was, job.stride, job.rows, i);
  }

  /** Writes the next row of a picture. */
  method PaintRow(dst: array<Byte>, at: nat, row: Row, ghost job: Job, ghost i: nat)
    requires i < |job.rows| && at == Times(i, job.stride) && row == job.rows[i] && dst[..] == Canvas(job, i)
    modifies dst
    ensures dst[..] == Canvas(job, i + 1)
  {
    CanvasNext(job, i);
    CopyBytes(dst, at, row);
  }

  /** Copies the next row of a plane. */
  method CopyRound(src: seq<Byte>, p: nat, dst: array<Byte>, at: nat, stride: nat, w: nat,
                   ghost from: nat, ghost n: nat, ghost i: nat, ghost job: Job) returns (next: nat, nextAt: nat)
    requires i < n && Readable(|src|, from, w, w, n) && job.rows == RowsOf(src, from, w, w, n) && job.stride == stride
    requires p == from + Times(i, w) && at == Times(i, stride) && dst[..] == Canvas(job, i)
    modifies dst
    ensures next == from + Times(i + 1, w) && nextAt == Times(i + 1, stride) && dst[..] == Canvas(job, i + 1)
  {
    RowOf(src, from, w, w, n, i);
    PaintRow(dst, at, src[p..p + w], job, i);
    next, nextAt := p + w, at + stride;
  }

  /** Copies n rows of w bytes that lie next to each other to rows that lie stride apart. */
  method CopyPlane(src: seq<Byte>, from: nat, dst: array<Byte>, stride: nat, w: nat, n: nat) returns (next: nat)
    requires Readable(|src|, from, w, w, n) && Fits(dst.Length, stride, RowsOf(src, from, w, w, n))
    modifies dst
    ensures next == from + Times(n, w)
    ensures dst[..] == Paint(old(dst[..]), stride, RowsOf(src, from, w, w, n))
  {
    var at, i := 0, 0;
    next := from;
    ghost var job: Job := Painting(dst[..], stride, RowsOf(src, from, w, w, n));
    CanvasFull(job);
    while i < n
      invariant 0 <= i <= n && at == Times(i, stride) && next == from + Times(i, w)
      invariant dst[..] == Canvas(job, i)
    {
      next, at := CopyRound(src, next, dst, at, stride, w, from, n, i, job);
      i := i + 1;
    }
  }
}
