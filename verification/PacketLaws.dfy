/** What the packet converter accepts, what it produces, and that nothing is lost. */
module PacketLaws {
  import opened AnnexB
  import opened Bytes
  import opened AvcStream

  // ---- Length fields ----

  lemma Digits(v: nat)
    ensures v < 0x1_0000 ==> Int2(v / 0x100, v % 0x100) == v
    ensures v < 0x100_0000 ==> Int3(v / 0x1_0000, v / 0x100 % 0x100, v % 0x100) == v
    ensures v < 0x8000_0000 ==> Int4(v / 0x100_0000, v / 0x1_0000 % 0x100, v / 0x100 % 0x100, v % 0x100) == v
  {
    ByteOff(v);
    ByteOff(v / 0x100);
    ByteOff(v / 0x1_0000);
  }

  lemma ByteOff(v: nat)
    ensures v == v / 0x100 * 0x100 + v % 0x100
    ensures v / 0x100 / 0x100 == v / 0x1_0000
    ensures v / 0x100 / 0x100 / 0x100 == v / 0x100_0000
  {
  }

  lemma Undigits(a: Byte, b: Byte, c: Byte, d: Byte)
    ensures var v := Int2(a, b); v / 0x100 == a && v % 0x100 == b
    ensures var v := Int3(a, b, c); v / 0x1_0000 == a && v / 0x100 % 0x100 == b && v % 0x100 == c
    ensures var v := Int4(a, b, c, d);
            v >= 0 ==> v / 0x100_0000 == a && v / 0x1_0000 % 0x100 == b && v / 0x100 % 0x100 == c && v % 0x100 == d
  {
  }

  lemma ReadsBack(d: seq<Byte>, at: nat, v: nat, n: int)
    requires 1 <= n <= 4 && v < Limit(n) && at + 4 <= |d| && At(d, at, BigEndian(v, n))
    ensures NalLength(d, at, n) == v
  {
    var b := BigEndian(v, n);
    AtIndex(d, at, b, 0);
    if n > 1 { AtIndex(d, at, b, 1); }
    if n > 2 { AtIndex(d, at, b, 2); }
    if n > 3 { AtIndex(d, at, b, 3); }
    Digits(v);
  }

  lemma WritesBack(d: seq<Byte>, at: nat, n: int)
    requires 1 <= n <= 4 && at + 4 <= |d| && NalLength(d, at, n) >= 0
    ensures NalLength(d, at, n) < Limit(n)
    ensures At(d, at, BigEndian(NalLength(d, at, n), n))
  {
    Undigits(d[at], d[at + 1], d[at + 2], d[at + 3]);
    assert d[at..at + n] == [d[at], d[at + 1], d[at + 2], d[at + 3]][..n];
  }

  /** The length is the value of its bytes, most significant first; four bytes whose first has
      its top bit set make no length. */
  lemma LengthIsBigEndian(d: seq<Byte>, at: nat, n: int)
    requires at + 4 <= |d|
    ensures var a: int, b: int, c: int, e: int := d[at], d[at + 1], d[at + 2], d[at + 3];
            && (n == 1 ==> NalLength(d, at, n) == a)
            && (n == 2 ==> NalLength(d, at, n) == 256 * a + b)
            && (n == 3 ==> NalLength(d, at, n) == 256 * (256 * a + b) + c)
            && (n == 4 && a < 128 ==> NalLength(d, at, n) == 256 * (256 * (256 * a + b) + c) + e)
            && (n == 4 && a >= 128 ==> NalLength(d, at, n) < 0)
    ensures n < 1 || n > 4 ==> NalLength(d, at, n) == 0
  {
  }

  // ---- Bytes in memory ----

  /** The bytes s lie at d[i..]. */
  predicate At(d: seq<Byte>, i: nat, s: seq<Byte>) {
    i + |s| <= |d| && d[i..i + |s|] == s
  }

  lemma AtIndex(d: seq<Byte>, i: nat, s: seq<Byte>, k: nat)
    requires At(d, i, s) && k < |s|
    ensures d[i + k] == s[k]
  {
    assert d[i..i + |s|][k] == d[i + k];
  }

  lemma AtEach(d: seq<Byte>, i: nat, s: seq<Byte>)
    requires i + |s| <= |d| && forall k :: 0 <= k < |s| ==> d[i + k] == s[k]
    ensures At(d, i, s)
  {
  }

  lemma AtJoin(d: seq<Byte>, i: nat, a: seq<Byte>, b: seq<Byte>)
    ensures At(d, i, a + b) <==> At(d, i, a) && At(d, i + |a|, b)
  {
    if At(d, i, a + b) {
      forall k | 0 <= k < |a| ensures d[i + k] == a[k] {
        AtIndex(d, i, a + b, k);
      }
      forall k | 0 <= k < |b| ensures d[i + |a| + k] == b[k] {
        AtIndex(d, i, a + b, |a| + k);
      }
      AtEach(d, i, a);
      AtEach(d, i + |a|, b);
    }
    if At(d, i, a) && At(d, i + |a|, b) {
      forall k | 0 <= k < |a + b| ensures d[i + k] == (a + b)[k] {
        if k < |a| { AtIndex(d, i, a, k); } else { AtIndex(d, i + |a|, b, k - |a|); }
      }
      AtEach(d, i, a + b);
    }
  }

  // ---- Packets convert to streams ----

  /** The conversion of a packet that yields exactly these NAL units. */
  function Yields(nals: seq<Nal>): Conversion {
    Conversion(|Stream(nals)|, Stream(nals))
  }

  lemma YieldsFirst(nal: Nal, tail: seq<Nal>)
    ensures Behind(START_CODE + nal, Yields(tail)) == Yields([nal] + tail)
    ensures Behind(START_CODE + nal, Conversion(0, [])) == Yields([nal])
  {
    assert ([nal] + tail)[1..] == tail;
    assert Stream([nal]) == START_CODE + nal + Stream([]);
  }

  /** d[at..size] is a packet of these units and at most two stray bytes behind them. */
  predicate PacketAt(d: seq<Byte>, at: nat, size: nat, nals: seq<Nal>, n: int) {
    && size + 4 <= |d| && AllFit(nals, n) && At(d, at, Pack(nals, n))
    && 0 <= size - at - |Pack(nals, n)| <= 2
  }

  /** The loop stops when at most two bytes are left, which can be a whole NAL unit of one
      byte behind a one-byte length. */
  predicate LastLost(nals: seq<Nal>, size: nat, n: int)
    requires AllFit(nals, n)
  {
    n == 1 && |nals| > 1 && |nals[|nals| - 1]| == 1 && size == |Pack(nals, n)|
  }

  function Kept(nals: seq<Nal>, size: nat, n: int): seq<Nal>
    requires AllFit(nals, n)
  {
    if LastLost(nals, size, n) then nals[..|nals| - 1] else nals
  }

  lemma {:induction false} PackSize(nals: seq<Nal>, n: int)
    requires AllFit(nals, n)
    ensures |Stream(nals)| == |Pack(nals, n)| + |nals| * (4 - n)
    decreases |nals|
  {
    if nals != [] {
      PackSize(nals[1..], n);
    }
  }

  lemma PackAtLeast(nals: seq<Nal>, n: int)
    requires AllFit(nals, n) && nals != []
    ensures |Pack(nals, n)| == n + |nals[0]| + |Pack(nals[1..], n)| > n
  {
  }

  lemma FirstOfPack(d: seq<Byte>, at: nat, size: nat, nals: seq<Nal>, n: int)
    requires nals != [] && PacketAt(d, at, size, nals, n)
    ensures var len := |nals[0]|;
            && NalLength(d, at, n) == len && at <= size && !Rejected(d, at, size, n)
            && d[at + n..at + n + len] == nals[0]
            && PacketAt(d, at + n + len, size, nals[1..], n)
            && |Pack(nals, n)| == n + len + |Pack(nals[1..], n)|
  {
    var head, tail := BigEndian(|nals[0]|, n), Pack(nals[1..], n);
    AtJoin(d, at, head + nals[0], tail);
    AtJoin(d, at, head, nals[0]);
    ReadsBack(d, at, |nals[0]|, n);
  }

  /** The first unit comes out first, and nothing comes behind it when the loop stops there. */
  lemma KeptFirst(nals: seq<Nal>, size: nat, n: int)
    requires nals != [] && AllFit(nals, n) && 0 <= size - |Pack(nals, n)| <= 2
    ensures var left := size - n - |nals[0]|;
            if left > 2 then
              nals[1..] != [] && Yields(Kept(nals, size, n)) == Behind(START_CODE + nals[0], Yields(Kept(nals[1..], left, n)))
            else left >= 0 && Yields(Kept(nals, size, n)) == Behind(START_CODE + nals[0], Conversion(0, []))
  {
    var tail := nals[1..];
    var left := size - n - |nals[0]|;
    assert nals == [nals[0]] + tail;
    PackAtLeast(nals, n);
    if left > 2 {
      YieldsFirst(nals[0], Kept(tail, left, n));
      KeptTail(nals, size, n);
    } else {
      YieldsFirst(nals[0], []);
      OneLeft(tail, n);
      assert Kept(nals, size, n) == [nals[0]];
    }
  }

  lemma KeptTail(nals: seq<Nal>, size: nat, n: int)
    requires AllFit(nals, n) && |nals| > 1 && size - n - |nals[0]| > 2
    ensures Kept(nals, size, n) == [nals[0]] + Kept(nals[1..], size - n - |nals[0]|, n)
  {
    var tail := nals[1..];
    assert nals == [nals[0]] + tail;
    if |tail| == 1 {
      PackAtLeast(tail, n);
      assert tail[1..] == [];
    } else {
      assert nals[..|nals| - 1] == [nals[0]] + tail[..|tail| - 1];
    }
  }

  lemma OneLeft(tail: seq<Nal>, n: int)
    requires AllFit(tail, n)
    ensures tail != [] && |Pack(tail, n)| <= 2 ==> n == 1 && |tail| == 1 && |tail[0]| == 1 && |Pack(tail, n)| == 2
  {
    if tail != [] {
      PackAtLeast(tail, n);
      if |tail| > 1 {
        PackAtLeast(tail[1..], n);
      }
    }
  }

  predicate YieldsKept(d: seq<Byte>, at: nat, size: nat, nals: seq<Nal>, n: int) {
    at <= size && size + 4 <= |d| && AllFit(nals, n) && Convert(d, at, size, n) == Yields(Kept(nals, size - at, n))
  }

  lemma {:induction false} PacketYields(d: seq<Byte>, at: nat, size: nat, nals: seq<Nal>, n: int)
    requires nals != [] && PacketAt(d, at, size, nals, n)
    ensures YieldsKept(d, at, size, nals, n)
    decreases |nals|
  {
    var at' := at + n + |nals[0]|;
    TailPacket(d, at, size, nals, n);
    if size - at' > 2 {
      PacketYields(d, at', size, nals[1..], n);
    }
    FirstYields(d, at, size, nals, n);
  }

  /** Every packet of NAL units converts to their Annex B stream - without the last unit
      exactly in the case LastLost. Up to two stray bytes at the end are passed over. */
  lemma ConvertsPacket(d: seq<Byte>, at: nat, size: nat, nals: seq<Nal>, n: int)
    requires nals != [] && PacketAt(d, at, size, nals, n)
    ensures at <= size && Convert(d, at, size, n) == Yields(Kept(nals, size - at, n))
  {
    PacketYields(d, at, size, nals, n);
  }

  lemma TailPacket(d: seq<Byte>, at: nat, size: nat, nals: seq<Nal>, n: int)
    requires nals != [] && PacketAt(d, at, size, nals, n)
    ensures var at' := at + n + |nals[0]|;
            at <= at' <= size && PacketAt(d, at', size, nals[1..], n) && (size - at' > 2 ==> nals[1..] != [])
  {
    FirstOfPack(d, at, size, nals, n);
  }

  lemma FirstYields(d: seq<Byte>, at: nat, size: nat, nals: seq<Nal>, n: int)
    requires nals != [] && PacketAt(d, at, size, nals, n)
    requires var at' := at + n + |nals[0]|; size - at' > 2 ==> YieldsKept(d, at', size, nals[1..], n)
    ensures YieldsKept(d, at, size, nals, n)
  {
    FirstConverts(d, at, size, nals, n);
    KeptFirst(nals, size - at, n);
  }

  lemma FirstConverts(d: seq<Byte>, at: nat, size: nat, nals: seq<Nal>, n: int)
    requires nals != [] && PacketAt(d, at, size, nals, n)
    ensures var at' := at + n + |nals[0]|;
            && at <= at' <= size && PacketAt(d, at', size, nals[1..], n)
            && Convert(d, at, size, n) == Behind(START_CODE + nals[0], Rest(d, at', size, n))
  {
    FirstOfPack(d, at, size, nals, n);
    ConvertStep(d, at, size, n);
  }

  lemma ConvertStep(d: seq<Byte>, at: nat, size: nat, n: int)
    requires at <= size && size + 4 <= |d| && NalLength(d, at, n) >= 0 && !Rejected(d, at, size, n)
    ensures var at' := at + n + NalLength(d, at, n);
            Convert(d, at, size, n) == Behind(START_CODE + d[at + n..at'], Rest(d, at', size, n))
  {
  }

  /** The documented case, as the demuxer delivers packets: the return value is the packet
      size plus what the longer prefixes add, and the output is each unit behind a start
      code - if and only if the last unit is not lost. */
  lemma ConvertsExactly(d: seq<Byte>, size: nat, nals: seq<Nal>, n: int)
    requires AllFit(nals, n) && nals != [] && size + 4 <= |d| && d[..size] == Pack(nals, n)
    ensures Convert(d, 0, size, n) == Yields(nals) <==> !LastLost(nals, size, n)
    ensures !LastLost(nals, size, n) ==> Convert(d, 0, size, n).ret == size + |nals| * (4 - n)
  {
    assert At(d, 0, Pack(nals, n)) by { assert d[0..0 + size] == d[..size]; }
    ConvertsPacket(d, 0, size, nals, n);
    PackSize(nals, n);
    FewerIsShorter(nals);
  }

  lemma FewerIsShorter(nals: seq<Nal>)
    requires nals != []
    ensures |Stream(nals[..|nals| - 1])| < |Stream(nals)|
  {
    var k := |nals| - 1;
    assert nals == nals[..k] + [nals[k]];
    StreamJoin(nals[..k], [nals[k]]);
  }

  /** Splitting the converter's output by section B.2 gives back the packet's NAL units. */
  lemma PacketRoundTrip(d: seq<Byte>, size: nat, nals: seq<Nal>, n: int)
    requires AllFit(nals, n) && nals != [] && size + 4 <= |d| && d[..size] == Pack(nals, n)
    requires !LastLost(nals, size, n)
    ensures Split(Convert(d, 0, size, n).out) == nals <==> Delimited(nals)
  {
    ConvertsExactly(d, size, nals, n);
    SplitStream(nals);
  }

  /** A unit of two bytes and one of one byte behind one-byte lengths: the second is dropped. */
  lemma LastUnitDropped()
    ensures var nals: seq<Nal> := [[9, 8], [5]]; var d: seq<Byte> := [2, 9, 8, 1, 5, 0, 0, 0, 0];
            && d[..5] == Pack(nals, 1) && LastLost(nals, 5, 1)
            && Convert(d, 0, 5, 1) == Yields([[9, 8]])
  {
    var nals: seq<Nal> := [[9, 8], [5]];
    var d: seq<Byte> := [2, 9, 8, 1, 5, 0, 0, 0, 0];
    assert nals[1..] == [[5]] && nals[..1] == [[9, 8]];
    assert Pack([[5]], 1) == [1, 5] && Pack(nals, 1) == [2, 9, 8, 1, 5];
    assert At(d, 0, Pack(nals, 1));
    ConvertsPacket(d, 0, 5, nals, 1);
  }

  // ---- Exactly which packets are accepted ----

  ghost predicate IsPacket(d: seq<Byte>, at: nat, size: nat, n: int) {
    exists nals :: nals != [] && PacketAt(d, at, size, nals, n)
  }

  lemma PacketFirst(d: seq<Byte>, at: nat, size: nat, n: int, tail: seq<Nal>) returns (nals: seq<Nal>)
    requires at <= size && size + 4 <= |d| && 1 <= n <= 4 && NalLength(d, at, n) >= 0 && !Rejected(d, at, size, n)
    requires PacketAt(d, at + n + NalLength(d, at, n), size, tail, n)
    ensures nals != [] && PacketAt(d, at, size, nals, n)
  {
    var len := NalLength(d, at, n);
    var nal := d[at + n..at + n + len];
    WritesBack(d, at, n);
    nals := [nal] + tail;
    assert nals[1..] == tail;
    assert At(d, at + n, nal);
    AtJoin(d, at, BigEndian(len, n), nal);
    AtJoin(d, at, BigEndian(len, n) + nal, Pack(tail, n));
  }

  lemma {:induction false} AcceptedIsPacket(d: seq<Byte>, at: nat, size: nat, n: int)
    requires at <= size && size + 4 <= |d| && Convert(d, at, size, n).ret >= 0
    ensures IsPacket(d, at, size, n)
    decreases size - at
  {
    var at' := at + n + NalLength(d, at, n);
    var tail: seq<Nal> := [];
    if size - at' > 2 {
      AcceptedIsPacket(d, at', size, n);
      tail :| tail != [] && PacketAt(d, at', size, tail, n);
    } else {
      assert d[at'..at'] == [];
    }
    var nals := PacketFirst(d, at, size, n, tail);
  }

  /** A packet of one unit behind the length 00 00 00 nn, and what it becomes. */
  lemma OneUnitConverts(d: seq<Byte>, size: nat, nal: Nal)
    requires 0 < |nal| < 256 && size == 4 + |nal| && size + 4 <= |d|
    requires d[0] == 0 && d[1] == 0 && d[2] == 0 && d[3] == |nal| && d[4..size] == nal
    ensures Convert(d, 0, size, 4) == Conversion(size, [0, 0, 0, 1] + nal)
  {
    LengthIsBigEndian(d, 0, 4);
    ConvertStep(d, 0, size, 4);
    assert START_CODE + nal + [] == [0, 0, 0, 1] + nal;
  }

  /** The converter returns -1 exactly on what is not a packet: somewhere a length is zero
      or runs past the end. It makes no length field of any size but 1 to 4 bytes a packet. */
  lemma AcceptsExactlyPackets(d: seq<Byte>, size: nat, n: int)
    requires size + 4 <= |d| && (n == 4 ==> !TopBitRead(d, 0, size))
    ensures Convert(d, 0, size, n).ret == -1 <==> !IsPacket(d, 0, size, n)
    ensures n < 1 || n > 4 ==> Convert(d, 0, size, n) == Conversion(-1, [])
  {
    UndefinedExactly(d, 0, size, n);
    if Convert(d, 0, size, n).ret >= 0 {
      AcceptedIsPacket(d, 0, size, n);
    }
    if IsPacket(d, 0, size, n) {
      var nals :| nals != [] && PacketAt(d, 0, size, nals, n);
      ConvertsPacket(d, 0, size, nals, n);
    }
  }
}
