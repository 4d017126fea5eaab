/**
 The byte stream format of Annex B of ITU-T H.264: NAL units behind start codes, and how a
 byte stream is taken apart again.
 */
module AnnexB {
  import opened Bytes

  type Nal = seq<Byte>

  const START_CODE: seq<Byte> := [0, 0, 0, 1]

  /** Each NAL unit behind a four-byte start code. */
  function Stream(nals: seq<Nal>): seq<Byte> {
    if nals == [] then [] else START_CODE + nals[0] + Stream(nals[1..])
  }

  // ---- Taking a byte stream apart (section B.2) ----

  /** How many bytes precede the first start code prefix 0x000001; all of them if there is none. */
  function StartAt(s: seq<Byte>): (n: nat)
    ensures n <= |s|
  {
    if |s| < 3 then |s| else if s[0] == 0 && s[1] == 0 && s[2] == 1 then 0 else 1 + StartAt(s[1..])
  }

  /** How many bytes precede the first 0x000000 or 0x000001; all of them if there is none. */
  function StopAt(s: seq<Byte>): (n: nat)
    ensures n <= |s|
  {
    if |s| < 3 then |s| else if s[0] == 0 && s[1] == 0 && s[2] <= 1 then 0 else 1 + StopAt(s[1..])
  }

  /** The NAL units of a byte stream: from behind each start code prefix up to the next three
      bytes 0x000000 or 0x000001, or the end. */
  function Split(s: seq<Byte>): seq<Nal>
    decreases |s|
  {
    var start := StartAt(s);
    if start + 3 > |s| then [] else
    var rest := s[start + 3..];
    var stop := StopAt(rest);
    [rest[..stop]] + Split(rest[stop..])
  }

  /** s[i..] begins with two zero bytes and then one of `least` to 1. */
  predicate PrefixAt(s: seq<Byte>, i: nat, least: int) {
    i + 2 < |s| && s[i] == 0 && s[i + 1] == 0 && least <= s[i + 2] <= 1
  }

  predicate FirstPrefix(s: seq<Byte>, n: nat, least: int) {
    && (n == |s| || PrefixAt(s, n, least))
    && forall i: nat :: i < n ==> !PrefixAt(s, i, least)
  }

  lemma FirstPrefixLater(s: seq<Byte>, n: nat, least: int)
    requires |s| >= 1 && FirstPrefix(s[1..], n, least) && !PrefixAt(s, 0, least)
    ensures FirstPrefix(s, n + 1, least)
  {
    forall i: nat | i < n + 1 ensures !PrefixAt(s, i, least) {
      if i > 0 {
        assert PrefixAt(s, i, least) == PrefixAt(s[1..], i - 1, least);
      }
    }
  }

  /** Both are where the first such bytes are, and the end where there are none. */
  lemma {:induction false} StopAtFirst(s: seq<Byte>)
    ensures FirstPrefix(s, StopAt(s), 0)
    decreases |s|
  {
    if |s| >= 3 && !PrefixAt(s, 0, 0) {
      StopAtFirst(s[1..]);
      FirstPrefixLater(s, StopAt(s[1..]), 0);
    }
  }

  lemma {:induction false} StartAtFirst(s: seq<Byte>)
    ensures FirstPrefix(s, StartAt(s), 1)
    decreases |s|
  {
    if |s| >= 3 && !PrefixAt(s, 0, 1) {
      StartAtFirst(s[1..]);
      FirstPrefixLater(s, StartAt(s[1..]), 1);
    }
  }

  // ---- When splitting undoes streaming ----

  /** No three bytes in a row are 0x000000 or 0x000001. */
  predicate NoStartCodeInside(nal: Nal) {
    forall i :: 0 <= i < |nal| - 2 ==> nal[i] != 0 || nal[i + 1] != 0 || nal[i + 2] > 1
  }

  /** The NAL units can be told apart: none contains a start code pattern, and none but the
      last ends in a zero byte. */
  predicate Delimited(nals: seq<Nal>) {
    && (forall k :: 0 <= k < |nals| ==> NoStartCodeInside(nals[k]))
    && (forall k :: 0 <= k < |nals| - 1 && nals[k] != [] ==> nals[k][|nals[k]| - 1] != 0)
  }

  /** What section 7.4.1 of ITU-T H.264 demands of a NAL unit: no 0x000000, 0x000001 or
      0x000002 inside, and a last byte other than zero. */
  predicate Conforming(nal: Nal) {
    && nal != [] && nal[|nal| - 1] != 0
    && forall i :: 0 <= i < |nal| - 2 ==> nal[i] != 0 || nal[i + 1] != 0 || nal[i + 2] > 2
  }

  lemma ConformingDelimited(nals: seq<Nal>)
    requires forall k :: 0 <= k < |nals| ==> Conforming(nals[k])
    ensures Delimited(nals)
  {
  }

  lemma {:induction false} StopAtEnd(nal: Nal, tail: seq<Byte>)
    requires tail == [] || (|tail| >= 3 && tail[0] == tail[1] == tail[2] == 0)
    ensures StopAt(nal + tail) == |nal| <==>
            NoStartCodeInside(nal) && (tail != [] && nal != [] ==> nal[|nal| - 1] != 0)
    decreases |nal|
  {
    var s := nal + tail;
    if nal == [] {
      assert s == tail;
    } else if |s| >= 3 {
      assert s[1..] == nal[1..] + tail;
      StopAtEnd(nal[1..], tail);
      if s[0] == 0 && s[1] == 0 && s[2] <= 1 {
        assert |nal| >= 3 ==> !NoStartCodeInside(nal) by {
          if |nal| >= 3 { assert nal[0] == 0 && nal[1] == 0 && nal[2] <= 1; }
        }
      } else {
        InsideTail(nal);
      }
    }
  }

  lemma InsideTail(nal: Nal)
    requires nal != []
    ensures NoStartCodeInside(nal) <==>
            NoStartCodeInside(nal[1..]) && (|nal| >= 3 ==> nal[0] != 0 || nal[1] != 0 || nal[2] > 1)
  {
    if NoStartCodeInside(nal[1..]) && (|nal| >= 3 ==> nal[0] != 0 || nal[1] != 0 || nal[2] > 1) {
      forall i | 0 <= i < |nal| - 2 ensures nal[i] != 0 || nal[i + 1] != 0 || nal[i + 2] > 1 {
        if i > 0 {
          assert nal[1..][i - 1] == nal[i];
        }
      }
    }
    if NoStartCodeInside(nal) {
      forall i | 0 <= i < |nal[1..]| - 2 ensures nal[1..][i] != 0 || nal[1..][i + 1] != 0 || nal[1..][i + 2] > 1 {
        assert nal[1..][i] == nal[i + 1];
      }
    }
  }

  /** Splitting a stream finds its first start code at once. */
  lemma SplitFirst(nal: Nal, tail: seq<Byte>)
    ensures Split(START_CODE + nal + tail)
         == [(nal + tail)[..StopAt(nal + tail)]] + Split((nal + tail)[StopAt(nal + tail)..])
  {
    var s := START_CODE + nal + tail;
    assert s[0] == 0 && s[1] == 0 && s[2] == 0;
    var s1 := s[1..];
    assert s1[0] == 0 && s1[1] == 0 && s1[2] == 1;
    assert StartAt(s1) == 0;
    assert StartAt(s) == 1;
    assert s[4..] == nal + tail;
  }

  /** The first unit ends where the next start code begins, under this condition. */
  lemma StopAtNext(nals: seq<Nal>)
    requires nals != []
    ensures StopAt(nals[0] + Stream(nals[1..])) == |nals[0]| <==>
            NoStartCodeInside(nals[0]) && (nals[1..] != [] && nals[0] != [] ==> nals[0][|nals[0]| - 1] != 0)
  {
    StopAtEnd(nals[0], Stream(nals[1..]));
  }

  lemma StreamFirst(nals: seq<Nal>)
    requires nals != []
    ensures Stream(nals) == START_CODE + nals[0] + Stream(nals[1..]) && nals == [nals[0]] + nals[1..]
  {
  }

  /** Splitting the stream of a list of NAL units gives back exactly that list if and only if
      the list is delimited. */
  lemma {:induction false} SplitStream(nals: seq<Nal>)
    ensures Split(Stream(nals)) == nals <==> Delimited(nals)
    decreases |nals|
  {
    if nals != [] {
      SplitStream(nals[1..]);
      StreamFirst(nals);
      StopAtNext(nals);
      DelimitedFirst(nals);
      SplitHead(nals[0], Stream(nals[1..]), nals[1..]);
    }
  }

  lemma SplitHead(nal: Nal, tail: seq<Byte>, nals: seq<Nal>)
    ensures Split(START_CODE + nal + tail) == [nal] + nals <==> StopAt(nal + tail) == |nal| && Split(tail) == nals
  {
    var s := nal + tail;
    var stop := StopAt(s);
    SplitFirst(nal, tail);
    if stop == |nal| {
      assert s[..stop] == nal && s[stop..] == tail;
      assert ([nal] + Split(tail))[1..] == Split(tail);
      assert ([nal] + nals)[1..] == nals;
    } else {
      assert |s[..stop]| == stop;
      assert ([s[..stop]] + Split(s[stop..]))[0] != ([nal] + nals)[0];
    }
  }

  lemma DelimitedFirst(nals: seq<Nal>)
    requires nals != []
    ensures Delimited(nals) <==>
            && NoStartCodeInside(nals[0])
            && (nals[1..] != [] && nals[0] != [] ==> nals[0][|nals[0]| - 1] != 0)
            && Delimited(nals[1..])
  {
    assert forall k :: 0 < k < |nals| ==> nals[k] == nals[1..][k - 1];
    if Delimited(nals[1..]) && NoStartCodeInside(nals[0]) {
      forall k | 0 <= k < |nals| ensures NoStartCodeInside(nals[k]) {
      }
    }
  }

  lemma {:induction false} StreamJoin(a: seq<Nal>, b: seq<Nal>)
    ensures Stream(a + b) == Stream(a) + Stream(b)
    decreases |a|
  {
    if a == [] {
      assert a + b == b;
    } else {
      assert (a + b)[1..] == a[1..] + b;
      StreamJoin(a[1..], b);
    }
  }

  lemma JoinThree(a: seq<Byte>, b: seq<Byte>, c: seq<Byte>, e: seq<Byte>)
    ensures a + (b + c + e) == a + b + c + e
  {
  }

  /** In a stream every unit lies behind the units before it and the bytes 00 00 00 01. */
  lemma StreamUnit(nals: seq<Nal>, k: nat)
    requires k < |nals|
    ensures Stream(nals) == Stream(nals[..k]) + [0, 0, 0, 1] + nals[k] + Stream(nals[k + 1..])
  {
    StreamJoin(nals[..k], nals[k..]);
    assert nals == nals[..k] + nals[k..];
    StreamFirst(nals[k..]);
    assert nals[k..][1..] == nals[k + 1..];
    JoinThree(Stream(nals[..k]), START_CODE, nals[k], Stream(nals[k + 1..]));
  }

  // ---- Writing into a buffer ----

  method PutStartCode(dst: array<Byte>, at: nat)
    requires at + 4 <= dst.Length
    modifies dst
    ensures dst[..] == old(dst[..])[..at] + START_CODE + old(dst[..])[at + 4..]
  {
    dst[at] := 0x00;
    dst[at + 1] := 0x00;
    dst[at + 2] := 0x00;
    dst[at + 3] := 0x01;
  }

  lemma Appended(done: seq<Byte>, x: seq<Byte>, original: seq<Byte>, was: seq<Byte>, now: seq<Byte>)
    requires |done| + |x| <= |original|
    requires was == done + original[|done|..]
    requires now == was[..|done|] + x + was[|done| + |x|..]
    ensures now == (done + x) + original[|done| + |x|..]
  {
    assert was[..|done|] == done;
    assert was[|done| + |x|..] == original[|done| + |x|..];
  }

  /** One start code and one NAL unit, as every emitter writes them: behind what is `done`
      already, the rest of the buffer staying as it was originally. */
  method PutNal(dst: array<Byte>, at: nat, nal: Nal, ghost done: seq<Byte>, ghost original: seq<Byte>) returns (pos: nat)
    requires at + 4 + |nal| <= dst.Length == |original|
    requires at == |done| && dst[..] == done + original[at..]
    modifies dst
    ensures pos == at + 4 + |nal|
    ensures dst[..] == (done + (START_CODE + nal)) + original[pos..]
  {
    PutStartCode(dst, at);
    Appended(done, START_CODE, original, old(dst[..]), dst[..]);
    ghost var mid := dst[..];
    pos := at + 4;
    CopyBytes(dst, pos, nal);
    Appended(done + START_CODE, nal, original, mid, dst[..]);
    assert done + START_CODE + nal == done + (START_CODE + nal);
    pos := pos + |nal|;
  }
}
