/**
 Packets of length-prefixed NAL units and their conversion to Annex B, after section
 5.3.4 of ISO/IEC 14496-15.
 */
module AvcStream {
  import opened AnnexB
  import opened Bytes

  // ---- Length-prefixed packets ----

  /** A length field of n bytes, most significant byte first. */
  function BigEndian(v: nat, n: int): (s: seq<Byte>)
    requires 1 <= n <= 4 && v < Limit(n)
    ensures |s| == n
  {
    if n == 1 then [v]
    else if n == 2 then [v / 0x100, v % 0x100]
    else if n == 3 then [v / 0x1_0000, v / 0x100 % 0x100, v % 0x100]
    else [v / 0x100_0000, v / 0x1_0000 % 0x100, v / 0x100 % 0x100, v % 0x100]
  }

  /** Lengths that an n-byte field holds and a 32-bit int can represent. */
  function Limit(n: int): nat {
    if n == 1 then 0x100 else if n == 2 then 0x1_0000 else if n == 3 then 0x100_0000 else 0x8000_0000
  }

  /** An n-byte field can hold the length of each. */
  predicate Encodable(nals: seq<Nal>, n: int) {
    1 <= n <= 4 && forall k :: 0 <= k < |nals| ==> |nals[k]| < Limit(n)
  }

  predicate AllFit(nals: seq<Nal>, n: int) {
    Encodable(nals, n) && forall k :: 0 <= k < |nals| ==> nals[k] != []
  }

  /** NAL units one after the other, each behind its length. */
  function Pack(nals: seq<Nal>, n: int): seq<Byte>
    requires Encodable(nals, n)
  {
    if nals == [] then [] else BigEndian(|nals[0]|, n) + nals[0] + Pack(nals[1..], n)
  }

  // ---- What the converter does ----

  /** The return value, and the bytes written whether or not it is an error. A length field
      with its top bit set makes a shift C gives no meaning to: the value is UNDEFINED. */
  datatype Conversion = Conversion(ret: int, out: seq<Byte>)

  const UNDEFINED := -2

  /** Bytes put together by shifts and ors, as an int: a fourth byte reaches the sign bit. */
  function Int2(a: int, b: int): int {
    a * 0x100 + b
  }

  function Int3(a: int, b: int, c: int): int {
    a * 0x1_0000 + b * 0x100 + c
  }

  function Int4(a: int, b: int, c: int, d: int): int {
    (if a < 0x80 then a else a - 0x100) * 0x100_0000 + b * 0x1_0000 + c * 0x100 + d
  }

  /** The length field at d[at..]; 0 for a field size other than 1 to 4. */
  function NalLength(d: seq<Byte>, at: nat, n: int): int
    requires at + 4 <= |d|
  {
    if n == 2 then Int2(d[at], d[at + 1])
    else if n == 3 then Int3(d[at], d[at + 1], d[at + 2])
    else if n == 4 then Int4(d[at], d[at + 1], d[at + 2], d[at + 3])
    else if n == 1 then d[at]
    else 0
  }

  /** The length field is one the code rejects: zero, or longer than what is left. */
  predicate Rejected(d: seq<Byte>, at: nat, size: nat, n: int)
    requires at <= size && size + 4 <= |d|
  {
    NalLength(d, at, n) == 0 || size - at - n < NalLength(d, at, n)
  }

  function Behind(done: seq<Byte>, rest: Conversion): Conversion {
    Conversion(if rest.ret < 0 then rest.ret else |done| + rest.ret, done + rest.out)
  }

  /** The packet d[at..size], followed in memory by at least four bytes of padding. */
  function Convert(d: seq<Byte>, at: nat, size: nat, n: int): (c: Conversion)
    requires at <= size && size + 4 <= |d|
    ensures c.ret == UNDEFINED || c.ret == -1 || c.ret == |c.out|
    decreases size - at
  {
    var len := NalLength(d, at, n);
    if len < 0 then Conversion(UNDEFINED, [])
    else if Rejected(d, at, size, n) then Conversion(-1, [])
    else
      var at' := at + n + len;
      Behind(START_CODE + d[at + n..at'], if size - at' > 2 then Convert(d, at', size, n) else Conversion(0, []))
  }

  /** The loop goes on while more than two bytes are left. */
  function Rest(d: seq<Byte>, at: nat, size: nat, n: int): Conversion
    requires at <= size && size + 4 <= |d|
  {
    if size - at > 2 then Convert(d, at, size, n) else Conversion(0, [])
  }

  /** Some length field that the converter reads, of four bytes, has its top bit set. */
  predicate TopBitRead(d: seq<Byte>, at: nat, size: nat)
    requires at <= size && size + 4 <= |d|
    decreases size - at
  {
    || d[at] >= 0x80
    || (var len := NalLength(d, at, 4);
        0 < len <= size - at - 4 && size - (at + 4 + len) > 2 && TopBitRead(d, at + 4 + len, size))
  }

  /** The conversion has no meaning exactly when a four-byte length has its top bit set. */
  lemma {:induction false} UndefinedExactly(d: seq<Byte>, at: nat, size: nat, n: int)
    requires at <= size && size + 4 <= |d|
    ensures Convert(d, at, size, n).ret == UNDEFINED <==> n == 4 && TopBitRead(d, at, size)
    decreases size - at
  {
    var len := NalLength(d, at, n);
    if len >= 0 && !Rejected(d, at, size, n) {
      var at' := at + n + len;
      if size - at' > 2 {
        UndefinedExactly(d, at', size, n);
      }
    }
  }

  // ---- The converter ----

  /** What one round of the loop does to a conversion that has written `done`. */
  lemma OneRound(d: seq<Byte>, at: nat, size: nat, n: int, done: seq<Byte>, whole: Conversion)
    requires at <= size && size + 4 <= |d| && whole.ret != UNDEFINED && whole == Behind(done, Convert(d, at, size, n))
    ensures NalLength(d, at, n) >= 0
    ensures Rejected(d, at, size, n) ==> whole == Conversion(-1, done)
    ensures !Rejected(d, at, size, n) ==>
              var at' := at + n + NalLength(d, at, n);
              var done' := done + (START_CODE + d[at + n..at']);
              |done'| <= |whole.out| && whole == Behind(done', Rest(d, at', size, n))
  {
    if Rejected(d, at, size, n) {
      assert done + [] == done;
    } else {
      var at' := at + n + NalLength(d, at, n);
      var next, rest := START_CODE + d[at + n..at'], Rest(d, at', size, n);
      assert done + (next + rest.out) == (done + next) + rest.out;
    }
  }

  method ReadLength(data: array<Byte>, at: nat, n: int) returns (length: int)
    requires at + 4 <= data.Length
    ensures length == NalLength(data[..], at, n)
  {
    length := 0;
    if n == 2 {
      length := Int2(data[at], data[at + 1]);
    } else if n == 3 {
      length := Int3(data[at], data[at + 1], data[at + 2]);
    } else if n == 4 {
      length := Int4(data[at], data[at + 1], data[at + 2], data[at + 3]);
    } else if n == 1 {
      length := data[at];
    }
  }

  /** One round of the loop: nothing when the length field is rejected, else one NAL unit
      behind what is `done`. `whole` is the conversion that is under way. */
  method ConvertOne(data: array<Byte>, at: nat, size: nat, n: int, buffer: array<Byte>, pos: nat,
                    ghost done: seq<Byte>, ghost original: seq<Byte>, ghost whole: Conversion)
      returns (failed: bool, at': nat, pos': nat, ghost done': seq<Byte>)
    requires data != buffer && at <= size && size + 4 <= data.Length
    requires whole.ret != UNDEFINED && whole == Behind(done, Convert(data[..], at, size, n))
    requires pos == |done| && |whole.out| <= buffer.Length == |original|
    requires buffer[..] == done + original[pos..]
    modifies buffer
    ensures failed ==> whole == Conversion(-1, done) && buffer[..] == old(buffer[..])
    ensures !failed ==>
              && at < at' <= size && pos' == |done'| <= |whole.out|
              && buffer[..] == done' + original[pos'..]
              && whole == Behind(done', Rest(data[..], at', size, n))
  {
    OneRound(data[..], at, size, n, done, whole);
    var nalLength := ReadLength(data, at, n);
    if nalLength == 0 || size - at - n < nalLength {
      return true, at, pos, done;
    }
    at' := at + n;
    var nal := data[at'..at' + nalLength];
    done' := done + (START_CODE + nal);
    assert nal == data[..][at'..at' + nalLength];
    pos' := PutNal(buffer, pos, nal, done, original);
    at' := at' + nalLength;
    failed := false;
  }

  /** Converts one packet; `data` holds `size` bytes and the padding FFmpeg puts behind them. */
  method PasreAVCStream(data: array<Byte>, size: nat, nalLengthSize: int, buffer: array<Byte>) returns (ret: int)
    requires data != buffer && data.Length >= size + 4
    requires nalLengthSize == 4 ==> !TopBitRead(data[..], 0, size)
    requires buffer.Length >= |Convert(data[..], 0, size, nalLengthSize).out|
    modifies buffer
    ensures ret == Convert(data[..], 0, size, nalLengthSize).ret
    ensures var out := Convert(data[..], 0, size, nalLengthSize).out; buffer[..] == out + old(buffer[|out|..])
  {
    var inBuf, pos, more := 0, 0, true;
    ghost var d, original, done := data[..], buffer[..], [];
    ghost var whole := Convert(d, 0, size, nalLengthSize);
    UndefinedExactly(d, 0, size, nalLengthSize);
    ghost var left := whole;
    assert Behind([], left) == whole;
    while more
      invariant inBuf <= size && data[..] == d
      invariant pos == |done| <= |whole.out|
      invariant buffer[..] == done + original[pos..]
      invariant whole == Behind(done, left)
      invariant left == if more then Convert(d, inBuf, size, nalLengthSize) else Conversion(0, [])
      decreases size - inBuf, more
    {
      var failed;
      failed, inBuf, pos, done := ConvertOne(data, inBuf, size, nalLengthSize, buffer, pos, done, original, whole);
      if failed {
        return -1;
      }
      left := Rest(d, inBuf, size, nalLengthSize);
      more := 2 < size - inBuf;
    }
    assert whole.out == done;
    return pos;
  }
}
