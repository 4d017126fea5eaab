/**
 The records as GetSequenceInformation uses them: parsed, and emitted at once. For every
 well-formed record that fits the slots the parser's conditions hold, and the two together turn
 the record into the byte stream of its parameter sets.
 */
module RecordUse {
  import opened AnnexB
  import opened Bytes
  import opened AvcStream
  import opened PacketLaws
  import opened ParameterSets
  import opened RecordLaws

  predicate UnitsFit(nals: seq<Nal>, slots: nat) {
    |nals| <= slots && forall k :: 0 <= k < |nals| ==> |nals[k]| <= 1024
  }

  // ---- avcC ----

  predicate FitsAvcc(r: Avcc) {
    UnitsFit(r.sps, 3) && UnitsFit(r.pps, 3)
  }

  /** A record within the slots meets what the parser needs. */
  lemma AvccFits(d: seq<Byte>, size: nat, r: Avcc)
    requires size + 3 <= |d| && WellFormedAvcc(r) && SpellsAvcc(d, size, r) && FitsAvcc(r)
    ensures AvccInfo.RoomFor(d, size)
  {
    SpelledSps(d, size, r);
    SpelledPps(d, size, SpsRun(d, size).pos, r.pps);
  }

  method NewAvcc(extraData: array<Byte>, extraDataSize: nat, ghost r: Avcc) returns (header: AvccInfo, ret: int)
    requires extraDataSize + 3 <= extraData.Length && WellFormedAvcc(r) && FitsAvcc(r)
    requires SpellsAvcc(extraData[..], extraDataSize, r)
    ensures ret == 0 && header.Valid() && header.Holds(r)
  {
    AvccFits(extraData[..], extraDataSize, r);
    ParsesExactly(extraData[..], extraDataSize, r);
    header := new AvccInfo();
    ret := header.ParseSpsPpsFromAVCC(extraData, extraDataSize);
  }

  /** For the bytes of a record with at most three SPS and three PPS of at most 1024 bytes, the
      buffer holds exactly its sets behind start codes afterwards. */
  method AvccSequenceInfo(extraData: array<Byte>, extraDataSize: nat, buffer: array<Byte>, ghost r: Avcc)
      returns (retSize: nat, nalLengthSize: int)
    requires extraData != buffer && extraDataSize + 3 <= extraData.Length && WellFormedAvcc(r) && FitsAvcc(r)
    requires SpellsAvcc(extraData[..], extraDataSize, r) && |Stream(r.sps + r.pps)| <= buffer.Length
    modifies buffer
    ensures retSize == |Stream(r.sps + r.pps)| && nalLengthSize == r.nalLengthSize
    ensures buffer[..] == Stream(r.sps + r.pps) + old(buffer[..])[retSize..]
  {
    var header, _ := NewAvcc(extraData, extraDataSize, r);
    retSize := header.MakeH264StreamAVCCtoANNEXB(buffer, r);
    nalLengthSize := header.nalLengthSize;
  }

  // ---- hvcC ----

  /** A record within the slots meets what the parser needs. */
  lemma HvccFits(d: seq<Byte>, size: nat, signed: bool, r: Hvcc)
    requires size <= |d| && SpellsHvcc(d, size, signed, r) && UnitsFit(r.cfg, 6)
    ensures HvccInfo.RoomFor(d, size, signed) && ParsedHvcc(d, size, signed) == Good(r)
  {
    HvccParsesExactly(d, size, signed, r);
  }

  method NewHvcc(extraData: array<Byte>, extraDataSize: nat, signedChar: bool, ghost r: Hvcc)
      returns (header: HvccInfo, ret: int)
    requires extraDataSize <= extraData.Length && UnitsFit(r.cfg, 6)
    requires SpellsHvcc(extraData[..], extraDataSize, signedChar, r)
    ensures ret == 0 && header.Valid() && header.Holds(r)
  {
    HvccFits(extraData[..], extraDataSize, signedChar, r);
    header := new HvccInfo();
    ret := header.ParseHEVCCfgFromHVC1(extraData, extraDataSize, signedChar);
  }

  /** For the bytes of a record with at most six units of at most 1024 bytes, the buffer holds
      exactly the units of all its arrays behind start codes afterwards. */
  method HvccSequenceInfo(extraData: array<Byte>, extraDataSize: nat, signedChar: bool, buffer: array<Byte>,
                          ghost r: Hvcc) returns (retSize: nat, nalLengthSize: int)
    requires extraData != buffer && extraDataSize <= extraData.Length && UnitsFit(r.cfg, 6)
    requires SpellsHvcc(extraData[..], extraDataSize, signedChar, r) && |Stream(r.cfg)| <= buffer.Length
    modifies buffer
    ensures retSize == |Stream(r.cfg)| && nalLengthSize == r.nalLengthSize
    ensures buffer[..] == Stream(r.cfg) + old(buffer[..])[retSize..]
  {
    var header, _ := NewHvcc(extraData, extraDataSize, signedChar, r);
    retSize := header.MakeHEVCStreamHVC1ANNEXB(buffer, r);
    nalLengthSize := header.nalLengthSize;
  }
}
