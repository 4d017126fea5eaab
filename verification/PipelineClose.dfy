/**
 The end of the stream. The decoder closes the VPU, which frees the frame buffers, as soon as it
 has left its loop - while the image processor may still have pictures in them to read.
 */
module PipelineClose {
  import opened PipelineModel
  import opened PipelineInvariant
  import opened PipelineSteps
  import opened PipelineTheorems
  import opened PipelineTrace

  /** The image processor holds an index whose picture it has not read. */
  predicate ImageUnread(m: Imager) {
    m.pc.PopBuffer? || m.pc.Deinterlacing?
  }

  /** No picture is left to be read from the VPU's buffers. */
  predicate NothingUnread(s: State) {
    s.q.decOut == [] && !ImageUnread(s.img)
  }

  /** How many pictures are left to be read from there. */
  function Unread(s: State): nat {
    |s.q.decOut| + One(ImageUnread(s.img))
  }

  /** However the threads go on behind the closing, and whatever is found in the freed buffers,
      when they cannot go on everything decoded has been encoded. */
  ghost predicate SurvivesClose(c: Config, s: State) {
    forall vpu, actions, t ::
      Run(c, Close(s, vpu), actions, t) && ImageBlocked(t) && EncoderBlocked(t) ==> t.encoded == Processed(c, s.decoded)
  }

  // ---- Behind the closing ----

  /** Everything behind the closing runs to an end, in boundedly many steps, and what is encoded
      then is what was under way - as found in the freed buffers. */
  lemma RunsOut(c: Config, s: State, vpu: map<int, Frame>, actions: seq<Action>, t: State)
    requires WellFormed(c) && Reachable(c, s) && s.dec.pc.Closing?
    requires Run(c, Close(s, vpu), actions, t)
    ensures |actions| <= Work(s)
    ensures ImageBlocked(t) && EncoderBlocked(t) ==> t.encoded == Output(c, Close(s, vpu))
  {
    var u := Close(s, vpu);
    ReachableInv(c, s);
    CloseKeeps(c, s, vpu);
    FinishedStays(c, u, actions, t);
    BoundedWithoutDecoder(c, u, actions, t);
    if ImageBlocked(t) && EncoderBlocked(t) {
      QuietIsEmpty(c, t);
    }
  }

  /** From every state behind the closing the threads can go on until nothing is left. */
  lemma {:induction false} Completes(c: Config, s: State) returns (actions: seq<Action>, t: State)
    requires WellFormed(c) && Kept(c, s) && s.dec.pc.Finished?
    ensures Run(c, s, actions, t) && ImageBlocked(t) && EncoderBlocked(t)
    ensures t.encoded == Output(c, s) && t.decoded == s.decoded
    decreases Work(s)
  {
    if ImageBlocked(s) && EncoderBlocked(s) {
      actions, t := [], s;
      QuietIsEmpty(c, s);
    } else {
      var a := if ImageBlocked(s) then EncoderStep else ImageStep;
      actions, t := CompletesBehind(c, s, a);
    }
  }

  lemma CompletesBehind(c: Config, s: State, a: Action) returns (actions: seq<Action>, t: State)
    requires WellFormed(c) && Kept(c, s) && s.dec.pc.Finished? && Enabled(s, a) && !a.DecoderStep?
    ensures Run(c, s, actions, t) && ImageBlocked(t) && EncoderBlocked(t)
    ensures t.encoded == Output(c, s) && t.decoded == s.decoded
    decreases Work(s), 0
  {
    var n := Next(c, s, a);
    OtherStepKeeps(c, s, a);
    LeavesDecoder(c, s, a);
    WorkDecreases(c, s, a);
    var rest;
    rest, t := Completes(c, n);
    actions := [a] + rest;
    assert actions[1..] == rest;
  }

  // ---- What the closing changes ----

  /** What does not depend on the VPU's buffers any more. */
  function ReadPart(c: Config, s: State): seq<Frame> {
    s.encoded + EncoderPart(s.out, s.enc) + QueuedBuffers(s.out, s.q.encIn)
    + if ImageUnread(s.img) then [] else ImagePart(c, s.mem, s.out, s.img)
  }

  /** The indices of the pictures still to be read, in order. */
  function UnreadIndices(s: State): seq<int> {
    (if ImageUnread(s.img) then [s.img.inIndex] else []) + s.q.decOut
  }

  lemma JoinsImage(a: seq<Frame>, b: seq<Frame>, e: seq<Frame>, m: seq<Frame>, d: seq<Frame>)
    ensures a + (b + e + m + d + []) == (a + b + e + m) + d
    ensures a + (b + e + m + d + []) == (a + b + e + []) + (m + d)
  {
  }

  lemma UnreadPictures(c: Config, s: State)
    ensures QueuedPictures(c, s.mem, UnreadIndices(s)) ==
            (if ImageUnread(s.img) then ImagePart(c, s.mem, s.out, s.img) else []) + QueuedPictures(c, s.mem, s.q.decOut)
  {
  }

  lemma OutputSplits(c: Config, s: State)
    requires !DecoderHolds(s.dec)
    ensures Output(c, s) == ReadPart(c, s) + QueuedPictures(c, s.mem, UnreadIndices(s))
  {
    JoinsImage(s.encoded, EncoderPart(s.out, s.enc), QueuedBuffers(s.out, s.q.encIn),
               ImagePart(c, s.mem, s.out, s.img), QueuedPictures(c, s.mem, s.q.decOut));
    UnreadPictures(c, s);
  }

  lemma CloseSplits(c: Config, s: State, vpu: map<int, Frame>)
    requires s.dec.pc.Closing?
    ensures Output(c, s) == ReadPart(c, s) + QueuedPictures(c, s.mem, UnreadIndices(s))
    ensures Output(c, Close(s, vpu)) == ReadPart(c, s) + QueuedPictures(c, s.mem.(vpu := vpu), UnreadIndices(s))
  {
    OutputSplits(c, s);
    OutputSplits(c, Close(s, vpu));
    assert ReadPart(c, Close(s, vpu)) == ReadPart(c, s);
  }

  /** At most the pictures that were not read are changed, at most as many as there are
      credits, and they are the last ones. */
  lemma OnlyUnreadChange(c: Config, s: State, vpu: map<int, Frame>, actions: seq<Action>, t: State)
    requires WellFormed(c) && Reachable(c, s) && s.dec.pc.Closing?
    requires Run(c, Close(s, vpu), actions, t) && ImageBlocked(t) && EncoderBlocked(t)
    ensures Unread(s) <= c.credits && Unread(s) <= |s.decoded| == |t.encoded|
    ensures var n := |s.decoded| - Unread(s); t.encoded[..n] == Processed(c, s.decoded)[..n]
  {
    ReachableInv(c, s);
    RunsOut(c, s, vpu, actions, t);
    CloseSplits(c, s, vpu);
    assert |UnreadIndices(s)| == Unread(s);
    assert (ReadPart(c, s) + QueuedPictures(c, s.mem.(vpu := vpu), UnreadIndices(s)))[..|ReadPart(c, s)|] == ReadPart(c, s);
  }

  lemma UnreadDescribed(s: State)
    requires Described(s) && !NothingUnread(s)
    ensures UnreadIndices(s) != []
    ensures var i := UnreadIndices(s)[0]; i in s.mem.image && s.mem.image[i] == i
  {
    if !ImageUnread(s.img) {
      assert s.q.decOut[0] in s.q.decOut;
    }
  }

  /** A picture that was not read can be found changed, whatever it was. */
  lemma UnreadCanChange(c: Config, s: State, f: Frame, g: Frame) returns (vpu: map<int, Frame>)
    requires s.dec.pc.Closing? && Described(s) && !NothingUnread(s) && Process(c, f) != Process(c, g)
    ensures Output(c, Close(s, vpu)) != Output(c, s)
  {
    UnreadDescribed(s);
    var i, k := UnreadIndices(s)[0], |ReadPart(c, s)|;
    var was := Process(c, PictureAt(s.mem, i));
    var h := if was == Process(c, f) then g else f;
    vpu := map[i := h];
    CloseSplits(c, s, vpu);
    assert Output(c, s)[k] == was;
    assert Output(c, Close(s, vpu))[k] == Process(c, h);
  }

  /** When closing the decoder is harmless: exactly when the image processor has read every
      picture by then. (If processing made all pictures equal, nobody could tell.) */
  lemma ClosesCleanlyExactly(c: Config, s: State, f: Frame, g: Frame)
    requires WellFormed(c) && Reachable(c, s) && s.dec.pc.Closing? && Process(c, f) != Process(c, g)
    ensures SurvivesClose(c, s) <==> NothingUnread(s)
  {
    ReachableInv(c, s);
    if NothingUnread(s) {
      forall vpu, actions, t | Run(c, Close(s, vpu), actions, t) && ImageBlocked(t) && EncoderBlocked(t)
        ensures t.encoded == Processed(c, s.decoded)
      {
        RunsOut(c, s, vpu, actions, t);
        CloseSplits(c, s, vpu);
        assert UnreadIndices(s) == [];
      }
    } else {
      var vpu := UnreadCanChange(c, s, f, g);
      CloseKeeps(c, s, vpu);
      var actions, t := Completes(c, Close(s, vpu));
    }
  }

  /** A stream whose pictures have all been read at the closing is encoded whole: every picture
      that the VPU handed out, processed, in order. */
  lemma WholeStreamEncoded(c: Config, start: seq<Action>, s: State, vpu: map<int, Frame>, actions: seq<Action>, t: State)
    requires WellFormed(c) && Run(c, Init(c), start, s) && s.dec.pc.Closing? && NothingUnread(s)
    requires Run(c, Close(s, vpu), actions, t) && ImageBlocked(t) && EncoderBlocked(t)
    ensures var handed := Handed(c, Init(c), start, s);
            && |t.encoded| == |handed|
            && forall i :: 0 <= i < |handed| ==> t.encoded[i] == c.scale(c.deinterlace(handed[i]))
  {
    HandedFromTheStart(c, start, s);
    EncodedInDecodeOrder(c, start, s);
    RunsOut(c, s, vpu, actions, t);
    CloseSplits(c, s, vpu);
    assert UnreadIndices(s) == [];
  }

  // ---- A stream of one picture ----

  /** The constants of the application, with processing that leaves pictures as they are. */
  function Plain(): Config {
    Config(2, 3, 16, 3, (f: Frame) => f, (f: Frame) => f)
  }

  lemma {:induction false} RunOn(c: Config, s: State, actions: seq<Action>, m: State, a: Action)
    requires Run(c, s, actions, m) && Enabled(m, a)
    ensures Run(c, s, actions + [a], Next(c, m, a))
    decreases |actions|
  {
    if actions == [] {
      assert actions + [a] == [a];
      assert Run(c, Next(c, m, a), [], Next(c, m, a));
      assert [a][1..] == [];
    } else {
      RunOn(c, Next(c, s, actions[0]), actions[1..], m, a);
      assert (actions + [a])[1..] == actions[1..] + [a];
    }
  }

  /** The decoder decodes picture 1 into buffer 0, queues it, and reaches the end of the stream
      before the image processor has taken a step. */
  lemma OnePictureQueued() returns (actions: seq<Action>, s: State)
    ensures Run(Plain(), Init(Plain()), actions, s)
    ensures s.dec.pc.Closing? && s.q.decOut == [0] && s.decoded == [1] && s.encoded == []
    ensures s.img.pc.AwaitBuffer? && s.q.encIn == [] && s.enc.pc.AwaitInput? && s.mem.image == map[0 := 0]
  {
    var c, a := Plain(), DecoderStep(true, Decoded(0), map[0 := 1]);
    var s1 := Next(c, Init(c), a);
    RunOn(c, Init(c), [], Init(c), a);
    var s2 := Next(c, s1, a);
    RunOn(c, Init(c), [a], s1, a);
    var s3 := Next(c, s2, a);
    RunOn(c, Init(c), [a] + [a], s2, a);
    var s4 := Next(c, s3, a);
    RunOn(c, Init(c), [a] + [a] + [a], s3, a);
    var queued := QueuePicture(c, s4, a, [a] + [a] + [a] + [a]);
    var end := DecoderStep(false, NeedStream, map[]);
    actions, s := queued.0 + [end], Next(c, queued.1, end);
    RunOn(c, Init(c), queued.0, queued.1, end);
  }

  /** From the taken credit to the posted index. */
  lemma QueuePicture(c: Config, s: State, a: Action, before: seq<Action>) returns (r: (seq<Action>, State))
    requires c == Plain() && a.DecoderStep? && Run(c, Init(c), before, s)
    requires s.dec == Decoder(Storing, 0, 0) && s.q.decOut == [] && s.mem.image == map[]
    ensures Run(c, Init(c), r.0, r.1)
    ensures r.1.dec == Decoder(Reading, 0, 0) && r.1.q == s.q.(decOut := [0]) && r.1.mem.image == map[0 := 0]
    ensures r.1.img == s.img && r.1.enc == s.enc && r.1.decoded == s.decoded && r.1.encoded == s.encoded
  {
    var s1 := Next(c, s, a);
    RunOn(c, Init(c), before, s, a);
    var s2 := Next(c, s1, a);
    RunOn(c, Init(c), before + [a], s1, a);
    var s3 := Next(c, s2, a);
    RunOn(c, Init(c), before + [a] + [a], s2, a);
    r := (before + [a] + [a] + [a], s3);
  }

  /** From a closing state the threads can go on until nothing is left. */
  lemma CloseCompletes(c: Config, s: State, vpu: map<int, Frame>) returns (actions: seq<Action>, t: State)
    requires WellFormed(c) && Kept(c, s) && s.dec.pc.Closing?
    ensures Run(c, Close(s, vpu), actions, t) && t.dec.pc.Finished? && ImageBlocked(t) && EncoderBlocked(t)
    ensures t.decoded == s.decoded && t.encoded == Output(c, Close(s, vpu))
  {
    CloseKeeps(c, s, vpu);
    actions, t := Completes(c, Close(s, vpu));
    FinishedStays(c, Close(s, vpu), actions, t);
  }

  lemma ClosingRun(c: Config, start: seq<Action>, s: State, vpu: map<int, Frame>) returns (closed: seq<Action>)
    requires Run(c, Init(c), start, s) && s.dec.pc.Closing?
    ensures Run(c, Init(c), closed, Close(s, vpu))
  {
    var close := DecoderStep(false, NeedStream, vpu);
    assert Next(c, s, close) == Close(s, vpu);
    RunOn(c, Init(c), start, s, close);
    closed := start + [close];
  }

  /** Any run to a closing state can be run out, with any contents found in the freed buffers. */
  lemma RunCloses(c: Config, start: seq<Action>, s: State, vpu: map<int, Frame>)
      returns (actions: seq<Action>, t: State)
    requires WellFormed(c) && Run(c, Init(c), start, s) && s.dec.pc.Closing?
    ensures Run(c, Init(c), actions, t) && t.dec.pc.Finished? && ImageBlocked(t) && EncoderBlocked(t)
    ensures t.decoded == s.decoded && t.encoded == Output(c, Close(s, vpu))
  {
    InitInv(c);
    RunInv(c, Init(c), start, s);
    var closed := ClosingRun(c, start, s, vpu);
    var rest;
    rest, t := CloseCompletes(c, s, vpu);
    RunsJoin(c, Init(c), closed, Close(s, vpu), rest, t);
    actions := closed + rest;
  }

  lemma FreedPicture(s: State)
    requires s.dec.pc.Closing? && s.q.decOut == [0] && s.encoded == [] && s.mem.image == map[0 := 0]
    requires s.img.pc.AwaitBuffer? && s.q.encIn == [] && s.enc.pc.AwaitInput?
    ensures Output(Plain(), Close(s, map[0 := 2])) == [2]
  {
    var c, mem := Plain(), s.mem.(vpu := map[0 := 2]);
    CloseSplits(c, s, map[0 := 2]);
    assert ReadPart(c, s) == [] && UnreadIndices(s) == [0];
    assert QueuedPictures(c, mem, [0]) == [2];
  }

  /** A run in which picture 1 is decoded, its buffer is freed and found holding 2, and 2 is
      what is encoded. */
  lemma ClosedTooEarly() returns (actions: seq<Action>, t: State)
    ensures Run(Plain(), Init(Plain()), actions, t)
    ensures t.dec.pc.Finished? && ImageBlocked(t) && EncoderBlocked(t)
    ensures t.decoded == [1] && t.encoded == [2]
  {
    var start, s := OnePictureQueued();
    FreedPicture(s);
    actions, t := RunCloses(Plain(), start, s, map[0 := 2]);
  }
}
