/**
 The decoder configuration records of ISO/IEC 14496-15 - avcC (section 5.3.3.1) and hvcC
 (section 8.3.3.1) - their parsers, and the emitters of their parameter sets in Annex B form.
 */
module ParameterSets {
  import opened AnnexB
  import opened Bytes
  import opened AvcStream

  // ---- What the parsers read ----

  /** Complete; Truncated where the code returns -1; Outside where it would read an array
      header behind the end of the record. */
  datatype Status = Complete | Truncated | Outside

  /** The NAL units copied so far, and where reading goes on. */
  datatype NalRun = NalRun(status: Status, nals: seq<Nal>, pos: nat)

  function Before(nals: seq<Nal>, r: NalRun): NalRun {
    r.(nals := nals + r.nals)
  }

  /** `count` NAL units behind two-byte lengths, from d[pos] on. */
  function ReadNals(d: seq<Byte>, size: nat, pos: nat, count: nat): (r: NalRun)
    requires size <= |d| && pos <= size + 1
    ensures r.pos <= size + 1 && (pos <= size ==> r.pos <= size)
    ensures !r.status.Outside? && |r.nals| <= count && (r.status.Complete? ==> |r.nals| == count)
    decreases count
  {
    if count == 0 then NalRun(Complete, [], pos)
    else if pos + 2 > size || pos + 2 + Int2(d[pos], d[pos + 1]) > size then NalRun(Truncated, [], pos)
    else
      var next := pos + 2 + Int2(d[pos], d[pos + 1]);
      Before([d[pos + 2..next]], ReadNals(d, size, next, count - 1))
  }

  datatype Avcc = Avcc(profile: int, compatible: int, level: int, nalLengthSize: int, sps: seq<Nal>, pps: seq<Nal>)

  datatype Result<T> = Bad | Good(value: T)

  function SpsRun(d: seq<Byte>, size: nat): NalRun
    requires 11 <= size < |d|
  {
    ReadNals(d, size, 6, d[5] % 0x20)
  }

  /** The number of PPS is the byte behind the SPS, even when that is the first padding byte. */
  function PpsRun(d: seq<Byte>, size: nat): NalRun
    requires 11 <= size < |d|
  {
    var pos := SpsRun(d, size).pos;
    ReadNals(d, size, pos + 1, d[pos])
  }

  function ParsedAvcc(d: seq<Byte>, size: nat): Result<Avcc>
    requires size + 3 <= |d|
  {
    if d[0] != 1 || 11 > size then Bad
    else
      var s := SpsRun(d, size);
      if !s.status.Complete? then Bad
      else
        var p := PpsRun(d, size);
        if !p.status.Complete? then Bad
        else Good(Avcc(d[1], d[2], d[3], d[4] % 4 + 1, s.nals, p.nals))
  }

  lemma EndOfRun(copied: seq<Nal>, last: NalRun, whole: NalRun)
    requires whole == Before(copied, last) && last.nals == []
    ensures whole.nals == copied && whole.status == last.status
  {
  }

  // ---- Copying into the slots of a record ----

  const MAX_SLOT_SIZE := 1024

  /** How many slots are written to: a length is stored before it is checked. */
  function SlotsUsed(r: NalRun): nat {
    |r.nals| + (if r.status.Complete? then 0 else 1)
  }

  /** Every NAL unit copied has a slot it fits in. */
  predicate SlotsSuffice(r: NalRun, slots: nat) {
    SlotsUsed(r) <= slots && forall k :: 0 <= k < |r.nals| ==> |r.nals[k]| <= MAX_SLOT_SIZE
  }

  /** A NAL unit with its length lies between d[pos] and the end. */
  predicate UnitInside(d: seq<Byte>, size: nat, pos: nat)
    requires size <= |d|
  {
    pos + 2 <= size && pos + 2 + Int2(d[pos], d[pos + 1]) <= size
  }

  /** One round of a loop over NAL units: the unit at `pos` comes next, or the run ends. */
  lemma OneMore(d: seq<Byte>, size: nat, pos: nat, left: nat, copied: seq<Nal>, whole: NalRun)
    requires size <= |d| && pos <= size + 1 && left > 0 && whole == Before(copied, ReadNals(d, size, pos, left))
    ensures if !UnitInside(d, size, pos) then whole.status.Truncated? && whole.nals == copied
            else
              var next := pos + 2 + Int2(d[pos], d[pos + 1]);
              |copied| < |whole.nals|
              && whole == Before(copied + [d[pos + 2..next]], ReadNals(d, size, next, left - 1))
  {
    if UnitInside(d, size, pos) {
      var next := pos + 2 + Int2(d[pos], d[pos + 1]);
      var nal, rest := d[pos + 2..next], ReadNals(d, size, next, left - 1);
      assert copied + ([nal] + rest.nals) == (copied + [nal]) + rest.nals;
    } else {
      assert copied + [] == copied;
    }
  }

  /** The first slots hold these NAL units, and their lengths are recorded. */
  predicate Stored(lengths: seq<int>, slots: seq<Nal>, nals: seq<Nal>) {
    && |nals| <= |slots| == |lengths|
    && forall k :: 0 <= k < |nals| ==> slots[k] == nals[k] && lengths[k] == |nals[k]|
  }

  lemma StoredNext(lengths: seq<int>, slots: seq<Nal>, nals: seq<Nal>, nal: Nal)
    requires Stored(lengths, slots, nals) && |nals| < |slots|
    ensures Stored(lengths[|nals| := |nal|], slots[|nals| := nal], nals + [nal])
  {
  }

  /** One round of the loop: the next NAL unit goes into the next slot, unless it runs past
      the end. `whole` is the run that is under way, `left` how many units it still reads. */
  method CopyOne(extraData: array<Byte>, extraDataSize: nat, pos: nat, lengths: array<int>, slots: array<Nal>, i: nat,
                 ghost left: nat, ghost copied: seq<Nal>, ghost whole: NalRun)
      returns (ok: bool, next: nat, ghost copied': seq<Nal>)
    requires pos <= extraDataSize + 1 && extraDataSize + 3 <= extraData.Length
    requires Stored(lengths[..], slots[..], copied) && i == |copied| < slots.Length
    requires left > 0 && whole == Before(copied, ReadNals(extraData[..], extraDataSize, pos, left))
    modifies lengths, slots
    ensures !ok ==> whole.status.Truncated?
    ensures ok ==>
              && next <= extraDataSize && |copied'| == i + 1 <= |whole.nals|
              && whole == Before(copied', ReadNals(extraData[..], extraDataSize, next, left - 1))
              && Stored(lengths[..], slots[..], copied')
  {
    OneMore(extraData[..], extraDataSize, pos, left, copied, whole);
    var length := Int2(extraData[pos], extraData[pos + 1]);
    lengths[i] := length;
    next := pos + 2 + length;
    if next > extraDataSize {
      return false, next, copied;
    }
    var nal := extraData[pos + 2..next];
    slots[i] := nal;
    assert extraData[..][pos + 2..next] == nal;
    StoredNext(old(lengths[..]), old(slots[..]), copied, nal);
    assert lengths[..] == old(lengths[..])[i := length] && slots[..] == old(slots[..])[i := nal];
    copied' := copied + [nal];
    ok := true;
  }

  /** The loop over the SPS, or over the PPS, of an avcC record. */
  method CopyNals(extraData: array<Byte>, extraDataSize: nat, start: nat, count: nat,
                  lengths: array<int>, slots: array<Nal>) returns (ok: bool, pos: nat)
    requires start <= extraDataSize + 1 && extraDataSize + 3 <= extraData.Length
    requires lengths.Length == slots.Length
    requires SlotsUsed(ReadNals(extraData[..], extraDataSize, start, count)) <= slots.Length
    modifies lengths, slots
    ensures var r := ReadNals(extraData[..], extraDataSize, start, count);
            && ok == r.status.Complete?
            && (ok ==> pos == r.pos && Stored(lengths[..], slots[..], r.nals))
  {
    ghost var d, copied := extraData[..], [];
    ghost var whole := ReadNals(d, extraDataSize, start, count);
    assert Before([], whole) == whole;
    pos := start;
    var i := 0;
    while i < count
      invariant i == |copied| <= count && i <= |whole.nals| && pos <= extraDataSize + 1
      invariant extraData[..] == d
      invariant Before(copied, ReadNals(d, extraDataSize, pos, count - i)) == whole
      invariant Stored(lengths[..], slots[..], copied)
    {
      ok, pos, copied := CopyOne(extraData, extraDataSize, pos, lengths, slots, i, count - i, copied, whole);
      if !ok {
        return;
      }
      i := i + 1;
    }
    assert copied + [] == copied;
    ok := true;
  }

  /** The loop over the units of one array of an hvcC record, behind the `cnt` units copied
      before; it checks each length before it stores anything. */
  method CopyArray(extraData: array<Byte>, extraDataSize: nat, start: nat, numofNals: nat,
                   lengths: array<int>, slots: array<Nal>, cnt: nat, ghost copied: seq<Nal>, ghost whole: NalRun)
      returns (ok: bool, pos: nat, ghost copied': seq<Nal>)
    requires start <= extraDataSize <= extraData.Length
    requires Stored(lengths[..], slots[..], copied) && cnt == |copied|
    requires whole == Before(copied, ReadNals(extraData[..], extraDataSize, start, numofNals)) && |whole.nals| <= slots.Length
    modifies lengths, slots
    ensures ok == whole.status.Complete?
    ensures ok ==> pos == whole.pos && copied' == whole.nals && Stored(lengths[..], slots[..], whole.nals)
  {
    ghost var d, left := extraData[..], numofNals;
    pos, copied' := start, copied;
    var j := 0;
    while j < numofNals
      invariant 0 <= j <= numofNals && left == numofNals - j && |copied'| == cnt + j && pos <= extraDataSize
      invariant extraData[..] == d
      invariant Before(copied', ReadNals(d, extraDataSize, pos, left)) == whole
      invariant Stored(lengths[..], slots[..], copied')
    {
      ok, pos, copied' := CopyCfg(extraData, extraDataSize, pos, lengths, slots, cnt + j, left, copied', whole);
      if !ok {
        return;
      }
      j, left := j + 1, left - 1;
    }
    assert copied' + [] == copied';
    ok := true;
  }

  method CopyCfg(extraData: array<Byte>, extraDataSize: nat, pos: nat, lengths: array<int>, slots: array<Nal>, cnt: nat,
                 ghost left: nat, ghost copied: seq<Nal>, ghost whole: NalRun)
      returns (ok: bool, next: nat, ghost copied': seq<Nal>)
    requires pos <= extraDataSize <= extraData.Length
    requires Stored(lengths[..], slots[..], copied) && cnt == |copied| && |whole.nals| <= slots.Length
    requires left > 0 && whole == Before(copied, ReadNals(extraData[..], extraDataSize, pos, left))
    modifies lengths, slots
    ensures !ok ==> whole.status.Truncated?
    ensures ok ==>
              && next <= extraDataSize && |copied'| == cnt + 1 <= |whole.nals|
              && whole == Before(copied', ReadNals(extraData[..], extraDataSize, next, left - 1))
              && Stored(lengths[..], slots[..], copied')
  {
    OneMore(extraData[..], extraDataSize, pos, left, copied, whole);
    copied' := copied;
    if extraDataSize - pos < 2 {
      return false, pos, copied;
    }
    var length := Int2(extraData[pos], extraData[pos + 1]);
    if extraDataSize - (pos + 2) < length {
      return false, pos, copied;
    }
    next := pos + 2 + length;
    var nal := extraData[pos + 2..next];
    lengths[cnt] := length;
    slots[cnt] := nal;
    assert extraData[..][pos + 2..next] == nal;
    StoredNext(old(lengths[..]), old(slots[..]), copied, nal);
    assert lengths[..] == old(lengths[..])[cnt := length] && slots[..] == old(slots[..])[cnt := nal];
    copied' := copied + [nal];
    ok := true;
  }

  // ---- Copying out of the slots of a record ----

  /** The loop that emits the units of a record, behind what is `done`. */
  method PutNals(lengths: array<int>, slots: array<Nal>, count: nat, pBuf: array<Byte>, start: nat,
                 ghost nals: seq<Nal>, ghost done: seq<Byte>, ghost original: seq<Byte>) returns (pos: nat)
    requires count == |nals| && Stored(lengths[..], slots[..], nals)
    requires start == |done| && |done| + |Stream(nals)| <= pBuf.Length == |original|
    requires pBuf[..] == done + original[start..]
    modifies pBuf
    ensures pos == |done + Stream(nals)|
    ensures pBuf[..] == (done + Stream(nals)) + original[pos..]
  {
    pos := start;
    var i := 0;
    assert done + Stream([]) == done;
    while i < count
      invariant 0 <= i <= count
      invariant pos == |done + Stream(nals[..i])| <= |original|
      invariant pBuf[..] == (done + Stream(nals[..i])) + original[pos..]
    {
      StreamNext(done, nals, i);
      pos := PutNal(pBuf, pos, slots[i][..lengths[i]], done + Stream(nals[..i]), original);
      i := i + 1;
    }
    assert nals[..count] == nals;
  }

  lemma StreamNext(done: seq<Byte>, nals: seq<Nal>, i: nat)
    requires i < |nals|
    ensures done + Stream(nals[..i + 1]) == (done + Stream(nals[..i])) + (START_CODE + nals[i])
    ensures |Stream(nals[..i])| + 4 + |nals[i]| <= |Stream(nals)|
  {
    assert nals[..i + 1] == nals[..i] + [nals[i]];
    StreamJoin(nals[..i], [nals[i]]);
    assert Stream([nals[i]]) == START_CODE + nals[i];
    assert nals == nals[..i + 1] + nals[i + 1..];
    StreamJoin(nals[..i + 1], nals[i + 1..]);
  }

  // ---- avcC ----

  const MAX_NUM_SPS := 3
  const MAX_NUM_PPS := 3

  /** The record of an avcC configuration: each parameter set has a slot and a length. */
  class AvccInfo {
    var version: int
    var profileIndication: int
    var compatibleProfile: int
    var levelIndication: int
    var nalLengthSize: int
    var numSps: int
    const spsLength: array<int>
    const spsData: array<Nal>
    var numPps: int
    const ppsLength: array<int>
    const ppsData: array<Nal>

    constructor ()
      ensures Valid() && fresh(spsLength) && fresh(spsData) && fresh(ppsLength) && fresh(ppsData)
    {
      version, profileIndication, compatibleProfile, levelIndication, nalLengthSize, numSps, numPps := 0, 0, 0, 0, 0, 0, 0;
      spsLength, ppsLength := new int[MAX_NUM_SPS], new int[MAX_NUM_PPS];
      spsData, ppsData := new Nal[MAX_NUM_SPS](_ => []), new Nal[MAX_NUM_PPS](_ => []);
    }

    ghost predicate Valid() {
      && spsLength.Length == spsData.Length == MAX_NUM_SPS && ppsLength.Length == ppsData.Length == MAX_NUM_PPS
      && spsLength != ppsLength && spsData != ppsData
    }

    /** The record holds this configuration. */
    ghost predicate Holds(r: Avcc)
      reads this, spsLength, spsData, ppsLength, ppsData
    {
      && version == 1 && profileIndication == r.profile && compatibleProfile == r.compatible
      && levelIndication == r.level && nalLengthSize == r.nalLengthSize
      && numSps == |r.sps| && Stored(spsLength[..], spsData[..], r.sps)
      && numPps == |r.pps| && Stored(ppsLength[..], ppsData[..], r.pps)
    }

    /** The fixed-size record has room for all that the parser copies. */
    static ghost predicate RoomFor(d: seq<Byte>, size: nat)
      requires size + 3 <= |d|
    {
      d[0] == 1 && size >= 11 ==>
        && SlotsSuffice(SpsRun(d, size), MAX_NUM_SPS)
        && (SpsRun(d, size).status.Complete? ==> SlotsSuffice(PpsRun(d, size), MAX_NUM_PPS))
    }

    /** `extraData` holds `extraDataSize` bytes and the padding FFmpeg puts behind them. */
    method ParseSpsPpsFromAVCC(extraData: array<Byte>, extraDataSize: nat) returns (ret: int)
      requires Valid() && extraDataSize + 3 <= extraData.Length && RoomFor(extraData[..], extraDataSize)
      modifies this, spsLength, spsData, ppsLength, ppsData
      ensures ret == if ParsedAvcc(extraData[..], extraDataSize).Good? then 0 else -1
      ensures ret == 0 ==> Holds(ParsedAvcc(extraData[..], extraDataSize).value)
      ensures ret == 0 ==> profileIndication == extraData[1] && compatibleProfile == extraData[2]
      ensures ret == 0 ==> levelIndication == extraData[3] && nalLengthSize == extraData[4] % 4 + 1
      ensures ret == 0 ==> numSps == extraData[5] % 32
      ensures extraData[0] != 1 || extraDataSize < 11 ==> ret == -1
    {
      if extraData[0] != 1 || 11 > extraDataSize {
        return -1;
      }
      ghost var d := extraData[..];
      version, profileIndication, compatibleProfile, levelIndication := extraData[0], extraData[1], extraData[2], extraData[3];
      nalLengthSize := extraData[4] % 4 + 1;
      numSps := extraData[5] % 0x20;
      var ok, pos := CopyNals(extraData, extraDataSize, 6, numSps, spsLength, spsData);
      if !ok {
        return -1;
      }
      numPps := extraData[pos];
      ok, pos := CopyNals(extraData, extraDataSize, pos + 1, numPps, ppsLength, ppsData);
      if !ok {
        return -1;
      }
      return 0;
    }

    /** Emits the SPS and then the PPS. */
    method MakeH264StreamAVCCtoANNEXB(pBuf: array<Byte>, ghost r: Avcc) returns (size: nat)
      requires Valid() && Holds(r) && |Stream(r.sps + r.pps)| <= pBuf.Length
      modifies pBuf
      ensures size == |Stream(r.sps + r.pps)|
      ensures pBuf[..] == Stream(r.sps + r.pps) + old(pBuf[..])[size..]
    {
      StreamJoin(r.sps, r.pps);
      ghost var original := pBuf[..];
      var pos := PutNals(spsLength, spsData, numSps, pBuf, 0, r.sps, [], original);
      assert [] + Stream(r.sps) == Stream(r.sps);
      pos := PutNals(ppsLength, ppsData, numPps, pBuf, pos, r.pps, Stream(r.sps), original);
      size := pos;
    }
  }

  // ---- hvcC ----

  const MAX_NUM_CFG := 6

  datatype Hvcc = Hvcc(profile: int, level: int, nalLengthSize: int, cfg: seq<Nal>)

  /** `count` arrays, each a byte, a two-byte number of units and the units. */
  function ReadArrays(d: seq<Byte>, size: nat, pos: nat, count: nat): (r: NalRun)
    requires pos <= size <= |d|
    ensures r.pos <= size
    decreases count
  {
    if count == 0 then NalRun(Complete, [], pos)
    else if pos + 3 > size then NalRun(Outside, [], pos)
    else
      var r := ReadNals(d, size, pos + 3, Int2(d[pos + 1], d[pos + 2]));
      if !r.status.Complete? then r else Before(r.nals, ReadArrays(d, size, r.pos, count - 1))
  }

  /** `(char)ptr[0]`: what a byte counts where plain char is signed, or unsigned. */
  function AsChar(b: int, signed: bool): int {
    if signed && b >= 0x80 then b - 0x100 else b
  }

  /** How many rounds `for (; i < n; i++)` makes from i on. */
  function ArraysLeft(n: int, i: int): nat {
    if n < i then 0 else n - i
  }

  predicate HvccHeader(d: seq<Byte>, size: nat)
    requires size <= |d|
  {
    size >= 7 && d[0] == 1
  }

  function ArrayRun(d: seq<Byte>, size: nat, signed: bool): NalRun
    requires 23 <= size <= |d|
  {
    ReadArrays(d, size, 23, ArraysLeft(AsChar(d[22], signed), 0))
  }

  function ParsedHvcc(d: seq<Byte>, size: nat, signed: bool): Result<Hvcc>
    requires size <= |d| && (HvccHeader(d, size) ==> size >= 23)
  {
    if !HvccHeader(d, size) then Bad
    else
      var r := ArrayRun(d, size, signed);
      if !r.status.Complete? then Bad
      else Good(Hvcc(d[1] % 32, d[12], 1 + d[21] % 4, r.nals))
  }

  class HvccInfo {
    var profile: int
    var level: int
    var nalLengthSize: int
    var numCfg: int
    const cfgLength: array<int>
    const cfgData: array<Nal>

    constructor ()
      ensures Valid() && fresh(cfgLength) && fresh(cfgData)
    {
      profile, level, nalLengthSize, numCfg := 0, 0, 0, 0;
      cfgLength := new int[MAX_NUM_CFG];
      cfgData := new Nal[MAX_NUM_CFG](_ => []);
    }

    ghost predicate Valid() {
      cfgLength.Length == cfgData.Length == MAX_NUM_CFG
    }

    ghost predicate Holds(r: Hvcc)
      reads this, cfgLength, cfgData
    {
      && profile == r.profile && level == r.level && nalLengthSize == r.nalLengthSize
      && numCfg == |r.cfg| && Stored(cfgLength[..], cfgData[..], r.cfg)
    }

    /** The headers the parser looks at lie inside the record, and there is room for all that
        it copies. */
    static ghost predicate RoomFor(d: seq<Byte>, size: nat, signed: bool)
      requires size <= |d|
    {
      HvccHeader(d, size) ==>
        && size >= 23 && !ArrayRun(d, size, signed).status.Outside?
        && |ArrayRun(d, size, signed).nals| <= MAX_NUM_CFG
        && forall k :: 0 <= k < |ArrayRun(d, size, signed).nals| ==> |ArrayRun(d, size, signed).nals[k]| <= MAX_SLOT_SIZE
    }

    method ParseHEVCCfgFromHVC1(extraData: array<Byte>, extraDataSize: nat, signedChar: bool) returns (ret: int)
      requires Valid() && extraDataSize <= extraData.Length && RoomFor(extraData[..], extraDataSize, signedChar)
      modifies this, cfgLength, cfgData
      ensures ret == if ParsedHvcc(extraData[..], extraDataSize, signedChar).Good? then 0 else -1
      ensures ret == 0 ==> Holds(ParsedHvcc(extraData[..], extraDataSize, signedChar).value)
      ensures extraDataSize < 7 || extraData[0] != 1 ==> ret == -1
      ensures ret == 0 ==> profile == extraData[1] % 32 && level == extraData[12] && nalLengthSize == 1 + extraData[21] % 4
    {
      if extraDataSize < 7 || extraData[0] != 1 {
        return -1;
      }
      ghost var d := extraData[..];
      profile := extraData[1] % 32;
      level := extraData[12];
      nalLengthSize := 1 + extraData[14 + 7] % 4;
      var numofArrays := AsChar(extraData[22], signedChar);
      ghost var whole := ArrayRun(d, extraDataSize, signedChar);
      var ok, cnt := CopyArrays(extraData, extraDataSize, numofArrays, whole);
      if !ok {
        return -1;
      }
      numCfg := cnt;
      return 0;
    }

    /** One round of the outer loop. `left` counts the arrays still to read. */
    method CopyNextArray(extraData: array<Byte>, extraDataSize: nat, pos: nat, cnt: nat,
                         ghost left: nat, ghost copied: seq<Nal>, ghost whole: NalRun)
        returns (ok: bool, next: nat, cnt': nat, ghost copied': seq<Nal>)
      requires Valid() && pos <= extraDataSize <= extraData.Length
      requires cnt == |copied| && Stored(cfgLength[..], cfgData[..], copied)
      requires left > 0 && whole == Before(copied, ReadArrays(extraData[..], extraDataSize, pos, left))
      requires !whole.status.Outside? && |whole.nals| <= MAX_NUM_CFG
      modifies cfgLength, cfgData
      ensures !ok ==> whole.status.Truncated?
      ensures ok ==>
                && next <= extraDataSize && cnt' == |copied'|
                && whole == Before(copied', ReadArrays(extraData[..], extraDataSize, next, left - 1))
                && Stored(cfgLength[..], cfgData[..], copied')
    {
      ghost var d := extraData[..];
      OneMoreArray(d, extraDataSize, pos, left, copied, whole);
      ghost var part := Before(copied, ReadNals(d, extraDataSize, pos + 3, Int2(d[pos + 1], d[pos + 2])));
      var numofNals := Int2(extraData[pos + 1], extraData[pos + 2]);
      ok, next, copied' := CopyArray(extraData, extraDataSize, pos + 3, numofNals, cfgLength, cfgData, cnt, copied, part);
      cnt' := cnt + numofNals;
    }

    /** The outer loop, over the arrays. */
    method CopyArrays(extraData: array<Byte>, extraDataSize: nat, numofArrays: int, ghost whole: NalRun)
        returns (ok: bool, cnt: nat)
      requires Valid() && 23 <= extraDataSize <= extraData.Length
      requires whole == ReadArrays(extraData[..], extraDataSize, 23, ArraysLeft(numofArrays, 0))
      requires !whole.status.Outside? && |whole.nals| <= MAX_NUM_CFG
      modifies cfgLength, cfgData
      ensures ok == whole.status.Complete?
      ensures ok ==> cnt == |whole.nals| && Stored(cfgLength[..], cfgData[..], whole.nals)
    {
      ghost var d, copied, left := extraData[..], [], ArraysLeft(numofArrays, 0);
      var pos: nat, i := 23, 0;
      cnt := 0;
      assert Before([], whole) == whole;
      while i < numofArrays
        invariant 0 <= i && left == ArraysLeft(numofArrays, i) && pos <= extraDataSize
        invariant extraData[..] == d
        invariant whole == Before(copied, ReadArrays(d, extraDataSize, pos, left))
        invariant cnt == |copied| && Stored(cfgLength[..], cfgData[..], copied)
        decreases left
      {
        ok, pos, cnt, copied := CopyNextArray(extraData, extraDataSize, pos, cnt, left, copied, whole);
        if !ok {
          return;
        }
        i := i + 1;
        left := left - 1;
      }
      ok := true;
      EndOfRun(copied, ReadArrays(d, extraDataSize, pos, left), whole);
    }

    /** Emits all units in order. */
    method MakeHEVCStreamHVC1ANNEXB(pBuf: array<Byte>, ghost r: Hvcc) returns (size: nat)
      requires Valid() && Holds(r) && |Stream(r.cfg)| <= pBuf.Length
      modifies pBuf
      ensures size == |Stream(r.cfg)|
      ensures pBuf[..] == Stream(r.cfg) + old(pBuf[..])[size..]
    {
      size := PutNals(cfgLength, cfgData, numCfg, pBuf, 0, r.cfg, [], pBuf[..]);
      assert [] + Stream(r.cfg) == Stream(r.cfg);
    }
  }

  /** One round of the outer loop: the array at `pos` comes next, or the run ends in it. */
  lemma OneMoreArray(d: seq<Byte>, size: nat, pos: nat, left: nat, copied: seq<Nal>, whole: NalRun)
    requires pos <= size <= |d| && left > 0 && whole == Before(copied, ReadArrays(d, size, pos, left))
    requires !whole.status.Outside?
    ensures pos + 3 <= size
    ensures var part := Before(copied, ReadNals(d, size, pos + 3, Int2(d[pos + 1], d[pos + 2])));
            if !part.status.Complete? then whole == part && part.status.Truncated?
            else |part.nals| <= |whole.nals| && whole == Before(part.nals, ReadArrays(d, size, part.pos, left - 1))
  {
    var r := ReadNals(d, size, pos + 3, Int2(d[pos + 1], d[pos + 2]));
    if r.status.Complete? {
      var rest := ReadArrays(d, size, r.pos, left - 1);
      assert copied + (r.nals + rest.nals) == (copied + r.nals) + rest.nals;
    }
  }
}
