/** Which configuration records the parsers accept, and that parsing undoes serialising. */
module RecordLaws {
  import opened AnnexB
  import opened Bytes
  import opened AvcStream
  import opened ParameterSets
  import opened PacketLaws

  // ---- Runs of NAL units behind two-byte lengths ----

  /** A two-byte field at d[pos]. */
  lemma Field(d: seq<Byte>, pos: nat, v: nat)
    requires v < 0x1_0000 && pos + 2 <= |d|
    ensures At(d, pos, BigEndian(v, 2)) <==> Int2(d[pos], d[pos + 1]) == v
  {
    Digits(v);
    Undigits(d[pos], d[pos + 1], 0, 0);
    assert d[pos..pos + 2] == [d[pos], d[pos + 1]];
  }

  lemma FirstOfRun(d: seq<Byte>, pos: nat, nals: seq<Nal>)
    requires Encodable(nals, 2) && nals != [] && At(d, pos, Pack(nals, 2))
    ensures var next := pos + 2 + |nals[0]|;
            && next <= |d| && Int2(d[pos], d[pos + 1]) == |nals[0]| && d[pos + 2..next] == nals[0]
            && Encodable(nals[1..], 2) && At(d, next, Pack(nals[1..], 2)) && next + |Pack(nals[1..], 2)| == pos + |Pack(nals, 2)|
  {
    var head := BigEndian(|nals[0]|, 2);
    AtThree(d, pos, head, nals[0], Pack(nals[1..], 2));
    Field(d, pos, |nals[0]|);
  }

  lemma NextUnit(d: seq<Byte>, size: nat, pos: nat, count: nat, nal: Nal, next: nat, rest: seq<Nal>, end: nat)
    requires next == pos + 2 + |nal| <= size <= |d| && count > 0
    requires Int2(d[pos], d[pos + 1]) == |nal| && d[pos + 2..next] == nal
    requires ReadNals(d, size, next, count - 1) == NalRun(Complete, rest, end)
    ensures ReadNals(d, size, pos, count) == NalRun(Complete, [nal] + rest, end)
  {
  }

  lemma {:induction false} PackedIsRead(d: seq<Byte>, size: nat, pos: nat, nals: seq<Nal>)
    requires Encodable(nals, 2) && size <= |d| && At(d, pos, Pack(nals, 2)) && pos + |Pack(nals, 2)| <= size
    ensures ReadNals(d, size, pos, |nals|) == NalRun(Complete, nals, pos + |Pack(nals, 2)|)
    decreases |nals|
  {
    if nals != [] {
      var next, end := pos + 2 + |nals[0]|, pos + |Pack(nals, 2)|;
      FirstOfRun(d, pos, nals);
      PackedIsRead(d, size, next, nals[1..]);
      NextUnit(d, size, pos, |nals|, nals[0], next, nals[1..], end);
      assert nals == [nals[0]] + nals[1..];
    }
  }

  /** One unit more at the front. */
  lemma PackFirst(d: seq<Byte>, pos: nat, nal: Nal, tail: seq<Nal>)
    requires pos + 2 + |nal| <= |d| && Int2(d[pos], d[pos + 1]) == |nal| && d[pos + 2..pos + 2 + |nal|] == nal
    requires Encodable(tail, 2) && At(d, pos + 2 + |nal|, Pack(tail, 2))
    ensures Encodable([nal] + tail, 2) && At(d, pos, Pack([nal] + tail, 2))
    ensures |Pack([nal] + tail, 2)| == 2 + |nal| + |Pack(tail, 2)|
  {
    assert ([nal] + tail)[1..] == tail;
    var head := BigEndian(|nal|, 2);
    assert At(d, pos, head) by { Field(d, pos, |nal|); }
    AtThree(d, pos, head, nal, Pack(tail, 2));
  }

  lemma AtThree(d: seq<Byte>, pos: nat, a: seq<Byte>, b: seq<Byte>, c: seq<Byte>)
    ensures At(d, pos, a + b + c) <==> At(d, pos, a) && At(d, pos + |a|, b) && At(d, pos + |a| + |b|, c)
  {
    AtJoin(d, pos, a + b, c);
    AtJoin(d, pos, a, b);
  }

  lemma ReadRest(d: seq<Byte>, size: nat, pos: nat, count: nat) returns (next: nat, rest: NalRun)
    requires size <= |d| && pos <= size && count > 0 && ReadNals(d, size, pos, count).status.Complete?
    ensures pos + 2 <= next <= size && Int2(d[pos], d[pos + 1]) == next - pos - 2
    ensures rest == ReadNals(d, size, next, count - 1) && rest.status.Complete?
    ensures ReadNals(d, size, pos, count) == NalRun(Complete, [d[pos + 2..next]] + rest.nals, rest.pos)
  {
    next := pos + 2 + Int2(d[pos], d[pos + 1]);
    rest := ReadNals(d, size, next, count - 1);
  }

  lemma {:induction false} ReadIsPacked(d: seq<Byte>, size: nat, pos: nat, count: nat)
    requires size <= |d| && pos <= size && ReadNals(d, size, pos, count).status.Complete?
    ensures var r := ReadNals(d, size, pos, count);
            Encodable(r.nals, 2) && At(d, pos, Pack(r.nals, 2)) && r.pos == pos + |Pack(r.nals, 2)|
    decreases count
  {
    if count > 0 {
      var next, rest := ReadRest(d, size, pos, count);
      ReadIsPacked(d, size, next, count - 1);
      PackFirst(d, pos, d[pos + 2..next], rest.nals);
    } else {
      assert d[pos..pos] == [];
    }
  }

  // ---- avcC ----

  predicate WellFormedAvcc(r: Avcc) {
    && 0 <= r.profile < 256 && 0 <= r.compatible < 256 && 0 <= r.level < 256 && 1 <= r.nalLengthSize <= 4
    && |r.sps| < 0x20 && |r.pps| < 0x100 && Encodable(r.sps, 2) && Encodable(r.pps, 2)
  }

  /** The parameter sets of the record: the SPS, the number of PPS, the PPS. */
  function AvccBody(r: Avcc): seq<Byte>
    requires WellFormedAvcc(r)
  {
    Pack(r.sps, 2) + [|r.pps|] + Pack(r.pps, 2)
  }

  /** The first six bytes, with the reserved bits set as the standard has them. */
  function AvccHead(r: Avcc): seq<Byte>
    requires WellFormedAvcc(r)
  {
    [1, r.profile, r.compatible, r.level, 0xFC + (r.nalLengthSize - 1), 0xE0 + |r.sps|]
  }

  /** The record as section 5.3.3.1 lays it out. */
  function AvccBytes(r: Avcc): seq<Byte>
    requires WellFormedAvcc(r)
  {
    AvccHead(r) + AvccBody(r)
  }

  /** The first six bytes mean this record, whatever the reserved bits. */
  predicate MeansHead(d: seq<Byte>, r: Avcc)
    requires |d| >= 6
  {
    && d[0] == 1 && d[1] == r.profile && d[2] == r.compatible && d[3] == r.level
    && d[4] % 4 + 1 == r.nalLengthSize && d[5] % 0x20 == |r.sps|
  }

  /** The bytes spell the record: its head and its parameter sets. The number of PPS may be
      the first padding byte when it is 0. */
  predicate SpellsAvcc(d: seq<Byte>, size: nat, r: Avcc)
    requires size + 3 <= |d| && WellFormedAvcc(r)
  {
    && size >= 11 && MeansHead(d, r) && At(d, 6, AvccBody(r))
    && 6 + |AvccBody(r)| <= size + (if r.pps == [] then 1 else 0)
  }

  lemma BodyAt(d: seq<Byte>, r: Avcc)
    requires WellFormedAvcc(r)
    ensures var s := 6 + |Pack(r.sps, 2)|;
            At(d, 6, AvccBody(r)) <==>
            At(d, 6, Pack(r.sps, 2)) && s < |d| && d[s] == |r.pps| && At(d, s + 1, Pack(r.pps, 2))
  {
    var s := 6 + |Pack(r.sps, 2)|;
    AtThree(d, 6, Pack(r.sps, 2), [|r.pps|], Pack(r.pps, 2));
    if s < |d| {
      assert d[s..s + 1] == [d[s]];
    }
  }

  lemma SpelledSps(d: seq<Byte>, size: nat, r: Avcc)
    requires size + 3 <= |d| && WellFormedAvcc(r) && SpellsAvcc(d, size, r)
    ensures SpsRun(d, size) == NalRun(Complete, r.sps, 6 + |Pack(r.sps, 2)|)
    ensures var s := 6 + |Pack(r.sps, 2)|;
            s <= size && d[s] == |r.pps| && At(d, s + 1, Pack(r.pps, 2)) && (r.pps != [] ==> s + 1 + |Pack(r.pps, 2)| <= size)
  {
    BodyAt(d, r);
    PackedIsRead(d, size, 6, r.sps);
  }

  lemma SpelledPps(d: seq<Byte>, size: nat, s: nat, pps: seq<Nal>)
    requires s <= size && size + 3 <= |d| && Encodable(pps, 2) && d[s] == |pps| && At(d, s + 1, Pack(pps, 2))
    requires pps != [] ==> s + 1 + |Pack(pps, 2)| <= size
    ensures ReadNals(d, size, s + 1, d[s]).status.Complete? && ReadNals(d, size, s + 1, d[s]).nals == pps
  {
    if pps != [] {
      PackedIsRead(d, size, s + 1, pps);
    }
  }

  lemma SpelledIsParsed(d: seq<Byte>, size: nat, r: Avcc)
    requires size + 3 <= |d| && WellFormedAvcc(r) && SpellsAvcc(d, size, r)
    ensures ParsedAvcc(d, size) == Good(r)
  {
    SpelledSps(d, size, r);
    SpelledPps(d, size, SpsRun(d, size).pos, r.pps);
    RunsAreParsed(d, size, r);
  }

  lemma RunsAreParsed(d: seq<Byte>, size: nat, r: Avcc)
    requires 11 <= size && size + 3 <= |d| && MeansHead(d, r)
    requires SpsRun(d, size).status.Complete? && SpsRun(d, size).nals == r.sps
    requires PpsRun(d, size).status.Complete? && PpsRun(d, size).nals == r.pps
    ensures ParsedAvcc(d, size) == Good(r)
  {
  }

  lemma ParsedPps(d: seq<Byte>, size: nat)
    requires size + 3 <= |d| && ParsedAvcc(d, size).Good?
    ensures var pps := PpsRun(d, size).nals;
            var pos := SpsRun(d, size).pos + 1;
            && |pps| == d[pos - 1] && Encodable(pps, 2) && At(d, pos, Pack(pps, 2))
            && pos + |Pack(pps, 2)| <= size + (if pps == [] then 1 else 0)
  {
    var pos := SpsRun(d, size).pos;
    if pos + 1 <= size {
      ReadIsPacked(d, size, pos + 1, d[pos]);
    } else {
      assert d[pos + 1..pos + 1] == [];
    }
  }

  lemma ParsedSps(d: seq<Byte>, size: nat)
    requires size + 3 <= |d| && ParsedAvcc(d, size).Good?
    ensures var sps, pos := SpsRun(d, size).nals, SpsRun(d, size).pos;
            |sps| == d[5] % 0x20 && Encodable(sps, 2) && At(d, 6, Pack(sps, 2)) && pos == 6 + |Pack(sps, 2)| <= size
  {
    ReadIsPacked(d, size, 6, d[5] % 0x20);
  }

  lemma ParsedFields(d: seq<Byte>, size: nat)
    requires size + 3 <= |d| && ParsedAvcc(d, size).Good?
    ensures var r := ParsedAvcc(d, size).value;
            && size >= 11 && d[0] == 1 && r == Avcc(d[1], d[2], d[3], d[4] % 4 + 1, SpsRun(d, size).nals, PpsRun(d, size).nals)
  {
  }

  lemma ParsedIsSpelled(d: seq<Byte>, size: nat)
    requires size + 3 <= |d| && ParsedAvcc(d, size).Good?
    ensures WellFormedAvcc(ParsedAvcc(d, size).value) && SpellsAvcc(d, size, ParsedAvcc(d, size).value)
  {
    ParsedFields(d, size);
    ParsedSps(d, size);
    ParsedPps(d, size);
    BodyAt(d, ParsedAvcc(d, size).value);
  }

  /** The parser accepts exactly the records, and yields what they spell. */
  lemma ParsesExactly(d: seq<Byte>, size: nat, r: Avcc)
    requires size + 3 <= |d| && WellFormedAvcc(r)
    ensures ParsedAvcc(d, size) == Good(r) <==> SpellsAvcc(d, size, r)
  {
    if SpellsAvcc(d, size, r) {
      SpelledIsParsed(d, size, r);
    }
    if ParsedAvcc(d, size) == Good(r) {
      ParsedIsSpelled(d, size);
    }
  }

  /** Parsing undoes serialising, whatever follows the record, if and only if there are the
      eleven bytes the parser asks for - as with one SPS and one PPS there always are. */
  lemma AvccRoundTrip(d: seq<Byte>, size: nat, r: Avcc)
    requires size + 3 <= |d| && WellFormedAvcc(r) && At(d, 0, AvccBytes(r)) && |AvccBytes(r)| <= size
    ensures ParsedAvcc(d, size) == Good(r) <==> size >= 11
    ensures r.sps != [] && r.pps != [] ==> size >= 11
  {
    AtJoin(d, 0, AvccHead(r), AvccBody(r));
    HeadMeant(d, r);
    ParsesExactly(d, size, r);
  }

  lemma HeadMeant(d: seq<Byte>, r: Avcc)
    requires WellFormedAvcc(r) && At(d, 0, AvccHead(r))
    ensures MeansHead(d, r)
  {
    AtStart(d, AvccHead(r));
    var h := AvccHead(r);
    assert d[0] == h[0] && d[1] == h[1] && d[2] == h[2] && d[3] == h[3] && d[4] == h[4] && d[5] == h[5];
  }

  /** The emitted stream splits into the record's parameter sets, SPS first, if and only if
      they can be told apart; its size is four bytes a unit more than their sizes together. */
  lemma EmittedSetsSplit(r: Avcc)
    ensures Split(Stream(r.sps + r.pps)) == r.sps + r.pps <==> Delimited(r.sps + r.pps)
    ensures |Stream(r.sps + r.pps)| == 4 * |r.sps + r.pps| + TotalSize(r.sps + r.pps)
  {
    SplitStream(r.sps + r.pps);
    StreamSize(r.sps + r.pps);
  }

  function TotalSize(nals: seq<Nal>): nat {
    if nals == [] then 0 else |nals[0]| + TotalSize(nals[1..])
  }

  lemma {:induction false} StreamSize(nals: seq<Nal>)
    ensures |Stream(nals)| == 4 * |nals| + TotalSize(nals)
    decreases |nals|
  {
    if nals != [] {
      StreamSize(nals[1..]);
    }
  }

  // ---- hvcC ----

  datatype NalArray = NalArray(kind: Byte, nals: seq<Nal>)

  predicate ArraysEncodable(arrays: seq<NalArray>) {
    forall k :: 0 <= k < |arrays| ==> Encodable(arrays[k].nals, 2) && |arrays[k].nals| < 0x1_0000
  }

  /** One array: its kind, the number of its units, the units. */
  function ArrayBytes(a: NalArray): seq<Byte>
    requires Encodable(a.nals, 2) && |a.nals| < 0x1_0000
  {
    [a.kind] + BigEndian(|a.nals|, 2) + Pack(a.nals, 2)
  }

  function ArraysBytes(arrays: seq<NalArray>): seq<Byte>
    requires ArraysEncodable(arrays)
  {
    if arrays == [] then [] else ArrayBytes(arrays[0]) + ArraysBytes(arrays[1..])
  }

  /** The record as section 8.3.3.1 lays it out: 22 bytes of profile and level information,
      the number of arrays, the arrays. */
  function HvccBytes(head: seq<Byte>, arrays: seq<NalArray>): seq<Byte>
    requires ArraysEncodable(arrays) && |arrays| < 0x100
  {
    head + [|arrays|] + ArraysBytes(arrays)
  }

  /** All units of all arrays, in order. */
  function Flatten(arrays: seq<NalArray>): seq<Nal> {
    if arrays == [] then [] else arrays[0].nals + Flatten(arrays[1..])
  }

  lemma ArrayAt(d: seq<Byte>, pos: nat, a: NalArray)
    requires Encodable(a.nals, 2) && |a.nals| < 0x1_0000 && At(d, pos, ArrayBytes(a))
    ensures pos + 3 <= |d| && Int2(d[pos + 1], d[pos + 2]) == |a.nals| && At(d, pos + 3, Pack(a.nals, 2))
    ensures |ArrayBytes(a)| == 3 + |Pack(a.nals, 2)|
  {
    AtThree(d, pos, [a.kind], BigEndian(|a.nals|, 2), Pack(a.nals, 2));
    Field(d, pos + 1, |a.nals|);
  }

  lemma AtBoth(d: seq<Byte>, size: nat, pos: nat, a: seq<Byte>, b: seq<Byte>) returns (next: nat)
    requires At(d, pos, a + b) && pos + |a + b| <= size
    ensures next == pos + |a| && next + |b| <= size && At(d, pos, a) && At(d, next, b)
  {
    next := pos + |a|;
    AtJoin(d, pos, a, b);
  }

  lemma ArraysSplit(arrays: seq<NalArray>)
    requires ArraysEncodable(arrays) && arrays != []
    ensures Encodable(arrays[0].nals, 2) && |arrays[0].nals| < 0x1_0000 && ArraysEncodable(arrays[1..])
    ensures ArraysBytes(arrays) == ArrayBytes(arrays[0]) + ArraysBytes(arrays[1..])
  {
  }

  lemma FirstArray(d: seq<Byte>, size: nat, pos: nat, arrays: seq<NalArray>) returns (next: nat)
    requires ArraysEncodable(arrays) && arrays != [] && size <= |d|
    requires At(d, pos, ArraysBytes(arrays)) && pos + |ArraysBytes(arrays)| <= size
    ensures ArraysEncodable(arrays[1..]) && At(d, next, ArraysBytes(arrays[1..]))
    ensures pos + |ArraysBytes(arrays)| == next + |ArraysBytes(arrays[1..])| && next <= size
    ensures ReadArrays(d, size, pos, |arrays|) == Before(arrays[0].nals, ReadArrays(d, size, next, |arrays| - 1))
  {
    ArraysSplit(arrays);
    next := AtBoth(d, size, pos, ArrayBytes(arrays[0]), ArraysBytes(arrays[1..]));
    NextArray(d, size, pos, arrays[0], |arrays|);
  }

  lemma {:induction false} ArraysAreRead(d: seq<Byte>, size: nat, pos: nat, arrays: seq<NalArray>)
    requires ArraysEncodable(arrays) && size <= |d|
    requires At(d, pos, ArraysBytes(arrays)) && pos + |ArraysBytes(arrays)| <= size
    ensures ReadArrays(d, size, pos, |arrays|) == NalRun(Complete, Flatten(arrays), pos + |ArraysBytes(arrays)|)
    decreases |arrays|
  {
    if arrays != [] {
      var next := FirstArray(d, size, pos, arrays);
      ArraysAreRead(d, size, next, arrays[1..]);
      assert Flatten(arrays) == arrays[0].nals + Flatten(arrays[1..]);
    }
  }

  lemma OneArray(d: seq<Byte>, size: nat, pos: nat, count: nat, run: NalRun)
    requires pos + 3 <= size <= |d| && count > 0 && run.status.Complete?
    requires run == ReadNals(d, size, pos + 3, Int2(d[pos + 1], d[pos + 2]))
    ensures ReadArrays(d, size, pos, count) == Before(run.nals, ReadArrays(d, size, run.pos, count - 1))
  {
  }

  lemma NextArray(d: seq<Byte>, size: nat, pos: nat, a: NalArray, count: nat)
    requires Encodable(a.nals, 2) && |a.nals| < 0x1_0000 && count > 0
    requires size <= |d| && At(d, pos, ArrayBytes(a)) && pos + |ArrayBytes(a)| <= size
    ensures ReadArrays(d, size, pos, count) == Before(a.nals, ReadArrays(d, size, pos + |ArrayBytes(a)|, count - 1))
  {
    ArrayAt(d, pos, a);
    PackedIsRead(d, size, pos + 3, a.nals);
    OneArray(d, size, pos, count, NalRun(Complete, a.nals, pos + |ArrayBytes(a)|));
  }

  // ---- Which hvcC records the parser accepts ----

  /** These arrays, and no fewer or more, are what the record holds from `pos` on. */
  predicate SpellsArrays(d: seq<Byte>, pos: nat, size: nat, count: nat, cfg: seq<Nal>, arrays: seq<NalArray>) {
    && ArraysEncodable(arrays) && |arrays| == count && Flatten(arrays) == cfg
    && At(d, pos, ArraysBytes(arrays)) && pos + |ArraysBytes(arrays)| <= size
  }

  /** The bytes spell the record: its fields, and as many arrays as the count says when it is
      cast to char, with the record's units in order. */
  ghost predicate SpellsHvcc(d: seq<Byte>, size: nat, signed: bool, r: Hvcc)
    requires size <= |d|
  {
    && size >= 23 && d[0] == 1
    && r.profile == d[1] % 32 && r.level == d[12] && r.nalLengthSize == 1 + d[21] % 4
    && exists arrays :: SpellsArrays(d, 23, size, ArraysLeft(AsChar(d[22], signed), 0), r.cfg, arrays)
  }

  /** The array that a complete run of the parser reads next. */
  lemma ArrayRead(d: seq<Byte>, size: nat, pos: nat, count: nat) returns (a: NalArray, next: nat)
    requires pos <= size <= |d| && count > 0 && ReadArrays(d, size, pos, count).status.Complete?
    ensures Encodable(a.nals, 2) && |a.nals| < 0x1_0000 && At(d, pos, ArrayBytes(a))
    ensures next == pos + |ArrayBytes(a)| <= size && ReadArrays(d, size, next, count - 1).status.Complete?
    ensures ReadArrays(d, size, pos, count).nals == a.nals + ReadArrays(d, size, next, count - 1).nals
  {
    var n := Int2(d[pos + 1], d[pos + 2]);
    var r := ReadNals(d, size, pos + 3, n);
    ReadIsPacked(d, size, pos + 3, n);
    Field(d, pos + 1, n);
    a, next := NalArray(d[pos], r.nals), r.pos;
    assert d[pos..pos + 1] == [d[pos]];
    AtThree(d, pos, [a.kind], BigEndian(n, 2), Pack(a.nals, 2));
  }

  lemma ArraysGrow(d: seq<Byte>, pos: nat, size: nat, a: NalArray, next: nat, tail: seq<NalArray>, count: nat, cfg: seq<Nal>)
    requires Encodable(a.nals, 2) && |a.nals| < 0x1_0000
    requires At(d, pos, ArrayBytes(a)) && next == pos + |ArrayBytes(a)| && SpellsArrays(d, next, size, count, cfg, tail)
    ensures SpellsArrays(d, pos, size, count + 1, a.nals + cfg, [a] + tail)
  {
    assert ([a] + tail)[1..] == tail;
    AtJoin(d, pos, ArrayBytes(a), ArraysBytes(tail));
  }

  lemma {:induction false} ReadAreArrays(d: seq<Byte>, size: nat, pos: nat, count: nat) returns (arrays: seq<NalArray>)
    requires pos <= size <= |d| && ReadArrays(d, size, pos, count).status.Complete?
    ensures SpellsArrays(d, pos, size, count, ReadArrays(d, size, pos, count).nals, arrays)
    decreases count
  {
    if count == 0 {
      arrays := [];
      assert d[pos..pos] == [];
    } else {
      var a, next := ArrayRead(d, size, pos, count);
      var tail := ReadAreArrays(d, size, next, count - 1);
      ArraysGrow(d, pos, size, a, next, tail, count - 1, ReadArrays(d, size, next, count - 1).nals);
      arrays := [a] + tail;
    }
  }

  /** The parser accepts exactly the records, and yields what they spell. */
  lemma HvccParsesExactly(d: seq<Byte>, size: nat, signed: bool, r: Hvcc)
    requires size <= |d| && (HvccHeader(d, size) ==> size >= 23)
    ensures ParsedHvcc(d, size, signed) == Good(r) <==> SpellsHvcc(d, size, signed, r)
  {
    if SpellsHvcc(d, size, signed, r) {
      var arrays :| SpellsArrays(d, 23, size, ArraysLeft(AsChar(d[22], signed), 0), r.cfg, arrays);
      ArraysAreRead(d, size, 23, arrays);
    }
    if ParsedHvcc(d, size, signed) == Good(r) {
      var count := ArraysLeft(AsChar(d[22], signed), 0);
      var arrays := ReadAreArrays(d, size, 23, count);
      assert SpellsArrays(d, 23, size, count, r.cfg, arrays);
    }
  }

  /** Parsing a serialised hvcC record yields the units of all arrays in order, if and only
      if the array count survives its cast to char, or there are no units. */
  lemma HvccRoundTrip(d: seq<Byte>, size: nat, head: seq<Byte>, arrays: seq<NalArray>, signed: bool)
    requires |head| == 22 && head[0] == 1 && ArraysEncodable(arrays) && |arrays| < 0x100
    requires size <= |d| && At(d, 0, HvccBytes(head, arrays)) && |HvccBytes(head, arrays)| <= size
    ensures ParsedHvcc(d, size, signed) == Good(Hvcc(head[1] % 32, head[12], 1 + head[21] % 4, Flatten(arrays)))
       <==> !signed || |arrays| < 0x80 || Flatten(arrays) == []
  {
    HvccFields(d, head, arrays);
    ArraysAreRead(d, size, 23, arrays);
  }

  lemma HvccFields(d: seq<Byte>, head: seq<Byte>, arrays: seq<NalArray>)
    requires |head| == 22 && ArraysEncodable(arrays) && |arrays| < 0x100 && At(d, 0, HvccBytes(head, arrays))
    ensures |d| >= 23 && d[0] == head[0] && d[1] == head[1] && d[12] == head[12] && d[21] == head[21]
    ensures d[22] == |arrays| && At(d, 23, ArraysBytes(arrays))
  {
    Fields(d, head, |arrays|, ArraysBytes(arrays));
  }

  lemma Fields(d: seq<Byte>, head: seq<Byte>, x: Byte, rest: seq<Byte>)
    requires |head| == 22 && At(d, 0, head + [x] + rest)
    ensures |d| >= 23 && d[0] == head[0] && d[1] == head[1] && d[12] == head[12] && d[21] == head[21]
    ensures d[22] == x && At(d, 23, rest)
  {
    AtThree(d, 0, head, [x], rest);
    AtStart(d, head);
    AtIndex(d, 22, [x], 0);
  }

  lemma AtStart(d: seq<Byte>, s: seq<Byte>)
    requires At(d, 0, s)
    ensures forall k :: 0 <= k < |s| ==> d[k] == s[k]
  {
    forall k | 0 <= k < |s| ensures d[k] == s[k] {
      AtIndex(d, 0, s, k);
    }
  }

  // ---- Two records, byte for byte ----

  lemma PackedPair(x: Nal, y: Nal)
    requires |x| < 0x100 && |y| < 0x100
    ensures Pack([x], 2) == [0, |x|] + x && Pack([x, y], 2) == [0, |x|] + x + [0, |y|] + y
  {
    assert [x, y][1..] == [y] && [y][1..] == [] && [x][1..] == [];
    assert Pack([y], 2) == [0, |y|] + y;
    assert Pack([x, y], 2) == [0, |x|] + x + Pack([y], 2);
  }

  /** An avcC record of high profile, level 4.0, with four-byte lengths, an SPS and two PPS. */
  lemma AvccLayout(sps: Nal, pps: Nal, pps2: Nal)
    requires |sps| < 0x100 && |pps| < 0x100 && |pps2| < 0x100
    ensures AvccBytes(Avcc(100, 8, 40, 4, [sps], [pps, pps2])) ==
            [1, 100, 8, 40, 0xFF, 0xE1] + ([0, |sps|] + sps) + [2] + ([0, |pps|] + pps + [0, |pps2|] + pps2)
  {
    var r := Avcc(100, 8, 40, 4, [sps], [pps, pps2]);
    PackedPair(sps, []);
    PackedPair(pps, pps2);
    assert AvccHead(r) == [1, 100, 8, 40, 0xFF, 0xE1];
    assert AvccBody(r) == ([0, |sps|] + sps) + [2] + ([0, |pps|] + pps + [0, |pps2|] + pps2);
  }

  lemma TwoArrays(a: NalArray, b: NalArray)
    requires Encodable(a.nals, 2) && |a.nals| < 0x1_0000 && Encodable(b.nals, 2) && |b.nals| < 0x1_0000
    ensures ArraysEncodable([a, b]) && Flatten([a, b]) == a.nals + b.nals
    ensures ArraysBytes([a, b]) == ArrayBytes(a) + ArrayBytes(b)
  {
    assert [a, b][1..] == [b] && [b][1..] == [];
    assert ArraysBytes([b]) == ArrayBytes(b) + [];
    assert Flatten([b]) == b.nals + Flatten([]) == b.nals;
  }

  /** The two arrays of an hvcC record of a VPS, and of two further units. */
  lemma HvccLayout(head: seq<Byte>, vps: Nal, sps: Nal, pps: Nal)
    requires |vps| < 0x100 && |sps| < 0x100 && |pps| < 0x100
    ensures var arrays := [NalArray(0xA0, [vps]), NalArray(0xA1, [sps, pps])];
            && ArraysEncodable(arrays) && Flatten(arrays) == [vps, sps, pps]
            && HvccBytes(head, arrays) ==
               head + [2] + (([0xA0, 0, 1] + ([0, |vps|] + vps)) + ([0xA1, 0, 2] + ([0, |sps|] + sps + [0, |pps|] + pps)))
  {
    var first, second := NalArray(0xA0, [vps]), NalArray(0xA1, [sps, pps]);
    PackedPair(vps, []);
    PackedPair(sps, pps);
    TwoArrays(first, second);
    assert ArrayBytes(first) == [0xA0, 0, 1] + ([0, |vps|] + vps);
    assert ArrayBytes(second) == [0xA1, 0, 2] + ([0, |sps|] + sps + [0, |pps|] + pps);
  }

  // ---- Records that are refused or misread ----

  /** A record without parameter sets has seven bytes, too few for the parser. */
  lemma ShortRecordRejected()
    ensures var r := Avcc(66, 0, 30, 4, [], []); var d := AvccBytes(r) + [0, 0, 0];
            WellFormedAvcc(r) && |AvccBytes(r)| == 7 && ParsedAvcc(d, 7) == Bad
  {
  }

  /** n arrays of one unit each. */
  function OneEach(n: nat): (arrays: seq<NalArray>)
    ensures |arrays| == n && ArraysEncodable(arrays) && (n > 0 ==> Flatten(arrays) != [])
  {
    if n == 0 then [] else [NalArray(32, [[1]])] + OneEach(n - 1)
  }

  /** 128 arrays or more are taken for none where char is signed. */
  lemma ManyArraysMisread(d: seq<Byte>, size: nat, head: seq<Byte>, arrays: seq<NalArray>)
    requires |head| == 22 && head[0] == 1 && ArraysEncodable(arrays) && 0x80 <= |arrays| < 0x100
    requires size <= |d| && At(d, 0, HvccBytes(head, arrays)) && |HvccBytes(head, arrays)| <= size
    ensures ParsedHvcc(d, size, true) == Good(Hvcc(head[1] % 32, head[12], 1 + head[21] % 4, []))
  {
    HvccFields(d, head, arrays);
  }

  lemma WholeRecord(d: seq<Byte>)
    ensures At(d, 0, d)
  {
    assert d[0..0 + |d|] == d;
  }

  /** Such records, with a unit in each array. */
  lemma ManyArraysLost(n: nat) returns (head: seq<Byte>, d: seq<Byte>)
    requires 0x80 <= n < 0x100
    ensures |head| == 22 && head[0] == 1 && d == HvccBytes(head, OneEach(n)) && Flatten(OneEach(n)) != []
    ensures var read := Hvcc(head[1] % 32, head[12], 1 + head[21] % 4, Flatten(OneEach(n)));
            ParsedHvcc(d, |d|, false) == Good(read) && ParsedHvcc(d, |d|, true) == Good(read.(cfg := []))
  {
    head := [1] + seq(21, _ => 0);
    d := HvccBytes(head, OneEach(n));
    WholeRecord(d);
    HvccRoundTrip(d, |d|, head, OneEach(n), false);
    ManyArraysMisread(d, |d|, head, OneEach(n));
  }
}
