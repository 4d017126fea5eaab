/**
 What the decoder does over a run, told from the actions alone: which pictures its calls hand
 out, how often it reads, decodes and clears flags, and when it closes.
 */
module PipelineTrace {
  import opened PipelineModel
  import opened PipelineInvariant
  import opened PipelineSteps

  // ---- Counting along a run ----

  /** This action is a call of NX_VidDecDecodeFrame that makes a picture displayable. */
  predicate HandsOut(s: State, a: Action) {
    a.DecoderStep? && s.dec.pc.Decoding? && a.outcome.Decoded? && a.outcome.outImgIdx >= 0
  }

  /** The pictures that decode calls make displayable in a run, as the VPU returns them. */
  ghost function Handed(c: Config, s: State, actions: seq<Action>, t: State): seq<Frame>
    requires Run(c, s, actions, t)
    decreases |actions|
  {
    if actions == [] then [] else
    var rest := Handed(c, Next(c, s, actions[0]), actions[1..], t);
    if HandsOut(s, actions[0]) then [actions[0].vpu[actions[0].outcome.outImgIdx]] + rest else rest
  }

  /** How many reads of the stream find it going on, or ended. */
  ghost function Reads(c: Config, s: State, actions: seq<Action>, t: State, more: bool): nat
    requires Run(c, s, actions, t)
    decreases |actions|
  {
    if actions == [] then 0 else
    var a := actions[0];
    One(a.DecoderStep? && s.dec.pc.Reading? && a.more == more) + Reads(c, Next(c, s, a), actions[1..], t, more)
  }

  /** How many decode calls there are. */
  ghost function DecodeCalls(c: Config, s: State, actions: seq<Action>, t: State): nat
    requires Run(c, s, actions, t)
    decreases |actions|
  {
    if actions == [] then 0 else
    var a := actions[0];
    One(a.DecoderStep? && s.dec.pc.Decoding?) + DecodeCalls(c, Next(c, s, a), actions[1..], t)
  }

  /** How many display flags are cleared. */
  ghost function Cleared(c: Config, s: State, actions: seq<Action>, t: State): nat
    requires Run(c, s, actions, t)
    decreases |actions|
  {
    if actions == [] then 0 else
    var n := Next(c, s, actions[0]);
    |s.mem.flags - n.mem.flags| + Cleared(c, n, actions[1..], t)
  }

  /** The VPU is free in what it returns: no picture yet, or any picture in any buffer whose
      display flag is clear. */
  lemma AnyPictureCanCome(s: State, more: bool, i: nat, f: Frame)
    requires s.dec.pc.Decoding?
    ensures Enabled(s, DecoderStep(more, NeedStream, s.mem.vpu)) && Enabled(s, DecoderStep(more, Decoded(-1), s.mem.vpu))
    ensures i !in s.mem.flags ==>
              var a := DecoderStep(more, Decoded(i), s.mem.vpu[i := f]);
              Enabled(s, a) && HandsOut(s, a) && a.vpu[a.outcome.outImgIdx] == f
  {
  }

  // ---- One step ----

  /** A packet has been read and not yet decoded. */
  predicate HasPacket(d: Decoder) {
    d.pc.Checking? || d.pc.Releasing? || d.pc.Clearing? || d.pc.Decoding?
  }

  /** A flag may be cleared before the next packet is read. */
  predicate MayClear(d: Decoder) {
    d.pc.Checking? || d.pc.Releasing? || d.pc.Clearing?
  }

  /** The stream has ended. */
  predicate Closes(d: Decoder) {
    d.pc.Closing? || d.pc.Finished?
  }

  lemma OneCleared(flags: set<int>, i: int)
    ensures |flags - (flags - {i})| <= 1
  {
    assert flags - (flags - {i}) <= {i};
    SubsetSize(flags - (flags - {i}), {i});
  }

  lemma SubsetSize(a: set<int>, b: set<int>)
    requires a <= b
    ensures |a| <= |b|
  {
    assert b == a + (b - a);
  }

  lemma StepHands(c: Config, s: State, a: Action)
    requires Enabled(s, a)
    ensures Next(c, s, a).decoded == s.decoded + if HandsOut(s, a) then [a.vpu[a.outcome.outImgIdx]] else []
  {
    if !a.DecoderStep? {
      LeavesDecoder(c, s, a);
    }
  }

  lemma StepPacket(c: Config, s: State, a: Action)
    requires Enabled(s, a)
    ensures One(HasPacket(s.dec)) + One(a.DecoderStep? && s.dec.pc.Reading? && a.more) ==
            One(HasPacket(Next(c, s, a).dec)) + One(a.DecoderStep? && s.dec.pc.Decoding?)
    ensures One(Closes(s.dec)) + One(a.DecoderStep? && s.dec.pc.Reading? && !a.more) == One(Closes(Next(c, s, a).dec))
  {
    if !a.DecoderStep? {
      LeavesDecoder(c, s, a);
    }
  }

  lemma ClearingClears(s: State)
    requires s.dec.pc.Clearing?
    ensures |s.mem.flags - ClearFlag(s).mem.flags| <= 1
  {
    OneCleared(s.mem.flags, s.dec.relIndex);
  }

  lemma OthersClearNothing(c: Config, s: State, a: Action)
    requires Enabled(s, a) && !(a.DecoderStep? && s.dec.pc.Clearing?)
    ensures s.mem.flags <= Next(c, s, a).mem.flags
  {
    if !a.DecoderStep? {
      LeavesDecoder(c, s, a);
    }
  }

  lemma StepClears(c: Config, s: State, a: Action)
    requires Enabled(s, a)
    ensures |s.mem.flags - Next(c, s, a).mem.flags| <= One(a.DecoderStep? && s.dec.pc.Clearing?)
  {
    if a.DecoderStep? && s.dec.pc.Clearing? {
      ClearingClears(s);
    } else {
      OthersClearNothing(c, s, a);
      assert s.mem.flags - Next(c, s, a).mem.flags == {};
    }
  }

  lemma StepMayClear(c: Config, s: State, a: Action)
    requires Enabled(s, a)
    ensures One(a.DecoderStep? && s.dec.pc.Clearing?) + One(MayClear(Next(c, s, a).dec)) <=
            One(MayClear(s.dec)) + One(a.DecoderStep? && s.dec.pc.Reading? && a.more)
  {
    if !a.DecoderStep? {
      LeavesDecoder(c, s, a);
    }
  }

  // ---- Over runs ----

  /** The decoded history is what the decode calls handed out, and nothing else. */
  lemma {:induction false} HistoryIsHanded(c: Config, s: State, actions: seq<Action>, t: State)
    requires Run(c, s, actions, t)
    ensures t.decoded == s.decoded + Handed(c, s, actions, t)
    decreases |actions|
  {
    if actions != [] {
      StepHands(c, s, actions[0]);
      HistoryIsHanded(c, Next(c, s, actions[0]), actions[1..], t);
    }
  }

  /** From the set-up on, exactly those pictures, in that order. */
  lemma HandedFromTheStart(c: Config, actions: seq<Action>, t: State)
    requires Run(c, Init(c), actions, t)
    ensures t.decoded == Handed(c, Init(c), actions, t)
  {
    HistoryIsHanded(c, Init(c), actions, t);
    assert Init(c).decoded == [];
  }

  /** Each packet that is read is given to the VPU once, before the next one is read. */
  lemma {:induction false} EachPacketDecoded(c: Config, s: State, actions: seq<Action>, t: State)
    requires Run(c, s, actions, t)
    ensures One(HasPacket(s.dec)) + Reads(c, s, actions, t, true) ==
            One(HasPacket(t.dec)) + DecodeCalls(c, s, actions, t)
    decreases |actions|
  {
    if actions != [] {
      StepPacket(c, s, actions[0]);
      EachPacketDecoded(c, Next(c, s, actions[0]), actions[1..], t);
    }
  }

  /** The decoder closes when the stream ends, and only then. */
  lemma {:induction false} ClosesAtTheEnd(c: Config, s: State, actions: seq<Action>, t: State)
    requires Run(c, s, actions, t)
    ensures One(Closes(s.dec)) + Reads(c, s, actions, t, false) == One(Closes(t.dec))
    decreases |actions|
  {
    if actions != [] {
      StepPacket(c, s, actions[0]);
      ClosesAtTheEnd(c, Next(c, s, actions[0]), actions[1..], t);
    }
  }

  /** At most one flag is cleared for each packet that is read. */
  lemma {:induction false} OneFlagARead(c: Config, s: State, actions: seq<Action>, t: State)
    requires Run(c, s, actions, t)
    ensures Cleared(c, s, actions, t) + One(MayClear(t.dec)) <= One(MayClear(s.dec)) + Reads(c, s, actions, t, true)
    decreases |actions|
  {
    if actions != [] {
      StepClears(c, s, actions[0]);
      StepMayClear(c, s, actions[0]);
      OneFlagARead(c, Next(c, s, actions[0]), actions[1..], t);
    }
  }

  /** Between two reads of the stream at most one flag is cleared. */
  lemma OneFlagBetweenReads(c: Config, s: State, actions: seq<Action>, t: State)
    requires Run(c, s, actions, t) && Reads(c, s, actions, t, true) == 0
    ensures Cleared(c, s, actions, t) <= 1
  {
    OneFlagARead(c, s, actions, t);
  }

  /** From the set-up on: a stream that goes on is not closed, one that has ended is. */
  lemma ClosedExactlyAtTheEnd(c: Config, actions: seq<Action>, t: State)
    requires Run(c, Init(c), actions, t)
    ensures t.dec.pc.Closing? || t.dec.pc.Finished? <==> Reads(c, Init(c), actions, t, false) == 1
    ensures Reads(c, Init(c), actions, t, false) <= 1
    ensures Reads(c, Init(c), actions, t, true) == DecodeCalls(c, Init(c), actions, t) + One(HasPacket(t.dec))
  {
    ClosesAtTheEnd(c, Init(c), actions, t);
    EachPacketDecoded(c, Init(c), actions, t);
  }
}
