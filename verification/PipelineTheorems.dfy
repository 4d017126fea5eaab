/** What holds of every run of the pipeline, for every interleaving of its threads. */
module PipelineTheorems {
  import opened PipelineModel
  import opened PipelineInvariant
  import opened PipelineSteps
  import opened PipelineTrace

  // ---- Every run keeps the invariant ----

  lemma {:induction false} RunInv(c: Config, s: State, actions: seq<Action>, t: State)
    requires WellFormed(c) && Inv(c, s) && Run(c, s, actions, t)
    ensures Inv(c, t)
    decreases |actions|
  {
    if actions != [] {
      StepInv(c, s, actions[0]);
      RunInv(c, Next(c, s, actions[0]), actions[1..], t);
    }
  }

  lemma ReachableInv(c: Config, s: State)
    requires WellFormed(c) && Reachable(c, s)
    ensures Inv(c, s)
  {
    var actions :| Run(c, Init(c), actions, s);
    InitInv(c);
    RunInv(c, Init(c), actions, s);
  }

  /** The constants of multi_thread_transcoding meet the conditions of the theorems. */
  lemma ApplicationConstants(deinterlace: Frame -> Frame, scale: Frame -> Frame)
    ensures WellFormed(Config(2, 3, 16, 3, deinterlace, scale))
  {
  }

  // ---- Order and conservation of the pictures ----

  lemma EncodedPrefix(c: Config, s: State)
    requires Ordered(c, s)
    ensures |s.encoded| <= |s.decoded|
    ensures forall i :: 0 <= i < |s.encoded| ==> s.encoded[i] == c.scale(c.deinterlace(s.decoded[i]))
  {
    assert forall i :: 0 <= i < |s.encoded| ==> s.encoded[i] == Output(c, s)[i];
  }

  lemma OrderedUntilClosed(c: Config, s: State)
    requires WellFormed(c) && Reachable(c, s) && !s.dec.pc.Finished?
    ensures Ordered(c, s)
  {
    ReachableInv(c, s);
  }

  /** Until the decoder is closed, pictures are encoded in the order in which the VPU hands them
      out, each processed once, none lost or duplicated: what has been encoded and what is under
      way is exactly what was handed out. */
  lemma EncodedInDecodeOrder(c: Config, actions: seq<Action>, s: State)
    requires WellFormed(c) && Run(c, Init(c), actions, s) && !s.dec.pc.Finished?
    ensures var handed := Handed(c, Init(c), actions, s);
            && |s.encoded| <= |handed|
            && (forall i :: 0 <= i < |s.encoded| ==> s.encoded[i] == c.scale(c.deinterlace(handed[i])))
            && Processed(c, handed) == s.encoded + InFlight(c, s)
  {
    OrderedUntilClosed(c, s);
    EncodedPrefix(c, s);
    HandedFromTheStart(c, actions, s);
  }

  lemma InFlightBound(c: Config, s: State)
    requires Credits(c, s)
    ensures |InFlight(c, s)| <= c.buffers + c.credits + 1
  {
  }

  /** Pictures are conserved in every run, also behind the closing of the decoder, and no more
      than the buffers and credits allow are under way. */
  lemma PicturesConserved(c: Config, actions: seq<Action>, s: State)
    requires WellFormed(c) && Run(c, Init(c), actions, s)
    ensures |Handed(c, Init(c), actions, s)| == |s.encoded| + |InFlight(c, s)|
    ensures |InFlight(c, s)| <= c.buffers + c.credits + 1
  {
    ReachableInv(c, s);
    HandedFromTheStart(c, actions, s);
    InFlightBound(c, s);
  }

  // ---- Ownership ----

  /** The output buffers are conserved, and a buffer being written is not being encoded,
      waiting to be encoded or free. */
  lemma BuffersOwnedOnce(c: Config, s: State)
    requires WellFormed(c) && Reachable(c, s)
    ensures Buffers(s.q, s.img, s.enc) == multiset(Handles(c.buffers))
    ensures forall b :: Buffers(s.q, s.img, s.enc)[b] == One(0 <= b < c.buffers)
    ensures ImageHoldsBuffer(s.img) ==> s.img.outBuf !in s.q.encIn && s.img.outBuf !in s.q.imgOut
    ensures ImageHoldsBuffer(s.img) && EncoderHolds(s.enc) ==> s.img.outBuf != s.enc.buf
  {
    ReachableInv(c, s);
    forall b ensures Buffers(s.q, s.img, s.enc)[b] == One(0 <= b < c.buffers) {
      BufferOnce(c, s, b);
    }
    if ImageHoldsBuffer(s.img) {
      WrittenBufferApart(c, s);
    }
  }

  /** A decoder index is in flight exactly while its display flag is set, and in one place;
      so decOutImage[i] is not overwritten before the flag of i is cleared. */
  lemma IndicesOwnedOnce(c: Config, s: State)
    requires WellFormed(c) && Reachable(c, s)
    ensures forall i :: Indices(s.q, s.dec, s.img)[i] == One(i in s.mem.flags)
    ensures s.dec.pc.Storing? ==> s.dec.outIndex !in s.q.decOut && s.dec.outIndex !in s.q.decRel
    ensures s.dec.pc.Storing? && ImageHoldsIndex(s.img) ==> s.dec.outIndex != s.img.inIndex
  {
    ReachableInv(c, s);
    forall i ensures Indices(s.q, s.dec, s.img)[i] == One(i in s.mem.flags) {
      IndexOnce(s, i);
    }
    var i := s.dec.outIndex;
    IndexOnce(s, i);
    assert i in s.q.decOut ==> multiset(s.q.decOut)[i] > 0;
    assert i in s.q.decRel ==> multiset(s.q.decRel)[i] > 0;
  }

  /** At most one more index than there are credits is outstanding, although the decoder
      clears at most one flag a round; when it decodes, at most as many as there are credits,
      so a VPU with `total` buffers always has total - credits of them to decode into. */
  lemma FewOutstanding(c: Config, s: State, total: set<int>)
    requires WellFormed(c) && Reachable(c, s) && s.mem.flags <= total
    ensures |s.mem.flags| == Outstanding(s) <= c.credits + 1
    ensures s.dec.pc.Decoding? ==> |total - s.mem.flags| >= |total| - c.credits
  {
    ReachableInv(c, s);
    assert |multiset(s.mem.flags)| == |Indices(s.q, s.dec, s.img)|;
    assert total == s.mem.flags + (total - s.mem.flags);
  }

  // ---- No queue or semaphore operation fails ----

  /** The operation the thread performs in this step succeeds: no push meets a full queue,
      no pop an empty one, no post an exhausted maximum; the encoder's "no member" branch
      is not taken. */
  predicate Succeeds(c: Config, s: State, a: Action) {
    match a
    case DecoderStep(_, _, _) =>
      && (s.dec.pc.Releasing? ==> |s.q.decRel| > 0)
      && (s.dec.pc.PushFrame? ==> |s.q.decOut| < c.capacity)
      && (s.dec.pc.PostFrame? ==> s.sem.imgIn < c.semMax)
    case ImageStep =>
      && (s.img.pc.PopFrame? ==> |s.q.decOut| > 0)
      && (s.img.pc.PopBuffer? ==> |s.q.imgOut| > 0)
      && (s.img.pc.PushEncode? ==> |s.q.encIn| < c.capacity)
      && (s.img.pc.PostEncode? ==> s.sem.encIn < c.semMax)
      && (s.img.pc.PushRelease? ==> |s.q.decRel| < c.capacity)
      && (s.img.pc.PostCredit? ==> s.sem.decOut < c.semMax)
    case EncoderStep =>
      && (EncoderAwaits(s.enc) ==> |s.q.encIn| > 0)
      && (s.enc.pc.PushBuffer? ==> |s.q.imgOut| < c.capacity)
      && (s.enc.pc.PostBuffer? ==> s.sem.imgOut < c.semMax)
  }

  lemma NothingFails(c: Config, s: State, a: Action)
    requires WellFormed(c) && Reachable(c, s)
    ensures Succeeds(c, s, a)
  {
    ReachableInv(c, s);
  }

  lemma FailingImageStep(c: Config, s: State)
    requires !ImageBlocked(s) && !Succeeds(c, s, ImageStep)
    ensures var n := NextImage(c, s); n.q == s.q && n.sem == s.sem && n.mem == s.mem && n.out == s.out
    ensures NextImage(c, s).encoded == s.encoded
  {
  }

  lemma FailingEncoderStep(c: Config, s: State)
    requires !EncoderBlocked(s) && !Succeeds(c, s, EncoderStep)
    ensures var n := NextEncoder(c, s); n.q == s.q && n.sem == s.sem && n.mem == s.mem && n.out == s.out
    ensures NextEncoder(c, s).encoded == s.encoded
  {
  }

  /** And one that failed, were it ever reached, would move nothing. */
  lemma FailureMovesNothing(c: Config, s: State, a: Action)
    requires Enabled(s, a) && !Succeeds(c, s, a)
    ensures var n := Next(c, s, a); n.q == s.q && n.sem == s.sem && n.mem == s.mem && n.out == s.out
    ensures Next(c, s, a).decoded == s.decoded && Next(c, s, a).encoded == s.encoded
  {
    match a
    case ImageStep => LeavesDecoder(c, s, a); FailingImageStep(c, s);
    case EncoderStep => LeavesDecoder(c, s, a); FailingEncoderStep(c, s);
    case DecoderStep(_, _, _) =>
  }

  // ---- Deadlock freedom ----

  /** The three threads are never all blocked on their semaphores. */
  lemma DeadlockFree(c: Config, s: State)
    requires WellFormed(c) && Reachable(c, s)
    ensures !(DecoderBlocked(s) && ImageBlocked(s) && EncoderBlocked(s))
  {
    ReachableInv(c, s);
  }

  lemma NothingQueued(c: Config, s: State)
    requires WellFormed(c) && Credits(c, s) && s.dec.pc.Finished? && ImageBlocked(s) && EncoderBlocked(s)
    ensures s.q.decOut == [] && s.q.encIn == []
    ensures !ImageHoldsIndex(s.img) && !ImageHoldsBuffer(s.img) && !EncoderHolds(s.enc)
  {
  }

  lemma QuietIsEmpty(c: Config, s: State)
    requires WellFormed(c) && Kept(c, s) && s.dec.pc.Finished? && ImageBlocked(s) && EncoderBlocked(s)
    ensures InFlight(c, s) == [] && Output(c, s) == s.encoded
    ensures multiset(s.q.imgOut) == multiset(Handles(c.buffers))
  {
    NothingQueued(c, s);
    assert InFlight(c, s) == [];
  }

  /** With the decoder gone, the other two are both blocked only when there is nothing left to
      process or encode: as many pictures have been encoded as decoded, and all buffers are free. */
  lemma DrainedWhenQuiet(c: Config, s: State)
    requires WellFormed(c) && Reachable(c, s)
    requires s.dec.pc.Finished? && ImageBlocked(s) && EncoderBlocked(s)
    ensures InFlight(c, s) == [] && |s.encoded| == |s.decoded|
    ensures multiset(s.q.imgOut) == multiset(Handles(c.buffers))
  {
    ReachableInv(c, s);
    QuietIsEmpty(c, s);
  }

  // ---- Bounded waiting and draining ----

  function ImageRank(m: Imager): nat {
    match m.pc
    case AwaitBuffer => 2
    case AwaitFrame => 1
    case PopFrame => 0
    case PopBuffer => 15
    case Deinterlacing => 14
    case Scaling => 13
    case PushEncode => 12
    case PostEncode => 5
    case PushRelease => 4
    case PostCredit => 3
  }

  function EncoderRank(e: Encoder): nat {
    match e.pc
    case AwaitInput => 2
    case Counting => 1
    case PopInput => 0
    case Encoding => 5
    case PushBuffer => 4
    case PostBuffer => 3
  }

  /** How much work is left for the image processor and the encoder without the decoder. */
  function Work(s: State): nat {
    16 * |s.q.decOut| + 6 * |s.q.encIn| + ImageRank(s.img) + EncoderRank(s.enc)
  }

  lemma ImageWorkDecreases(c: Config, s: State)
    requires Credits(c, s) && Enabled(s, ImageStep)
    ensures Work(Next(c, s, ImageStep)) < Work(s)
  {
  }

  lemma EncoderWorkDecreases(c: Config, s: State)
    requires Credits(c, s) && Enabled(s, EncoderStep)
    ensures Work(Next(c, s, EncoderStep)) < Work(s)
  {
  }

  /** Every step of the image processor or the encoder leaves less work. */
  lemma WorkDecreases(c: Config, s: State, a: Action)
    requires Credits(c, s) && Enabled(s, a) && !a.DecoderStep?
    ensures Work(Next(c, s, a)) < Work(s)
  {
    match a
    case ImageStep => ImageWorkDecreases(c, s);
    case EncoderStep => EncoderWorkDecreases(c, s);
  }

  /** While the decoder takes no step - it waits for a credit, or it has finished - the other
      threads take at most Work(s) steps, in whatever order, and change nothing of what is
      encoded in the end. */
  lemma {:induction false} BoundedWithoutDecoder(c: Config, s: State, actions: seq<Action>, t: State)
    requires WellFormed(c) && Kept(c, s) && Run(c, s, actions, t)
    requires forall a :: a in actions ==> !a.DecoderStep?
    ensures |actions| + Work(t) <= Work(s)
    ensures Kept(c, t) && Output(c, t) == Output(c, s)
    decreases |actions|
  {
    if actions != [] {
      var n := Next(c, s, actions[0]);
      WorkDecreases(c, s, actions[0]);
      OtherStepKeeps(c, s, actions[0]);
      BoundedWithoutDecoder(c, n, actions[1..], t);
    }
  }

  lemma {:induction false} RunsJoin(c: Config, s: State, a1: seq<Action>, m: State, a2: seq<Action>, t: State)
    requires Run(c, s, a1, m) && Run(c, m, a2, t)
    ensures Run(c, s, a1 + a2, t)
    decreases |a1|
  {
    if a1 == [] {
      assert a1 + a2 == a2;
    } else {
      RunsJoin(c, Next(c, s, a1[0]), a1[1..], m, a2, t);
      assert (a1 + a2)[1..] == a1[1..] + a2;
    }
  }

  lemma {:induction false} FinishedStays(c: Config, s: State, actions: seq<Action>, t: State)
    requires s.dec.pc.Finished? && Run(c, s, actions, t)
    ensures t.dec.pc.Finished? && t.decoded == s.decoded
    ensures forall a :: a in actions ==> !a.DecoderStep?
    decreases |actions|
  {
    if actions != [] {
      FinishedStays(c, Next(c, s, actions[0]), actions[1..], t);
      assert actions == [actions[0]] + actions[1..];
    }
  }

  /** Draining: once the decoder has finished every run is bounded by the work left, and one
      that cannot go on has encoded everything that was under way. */
  lemma Drains(c: Config, s: State, actions: seq<Action>, t: State)
    requires WellFormed(c) && Reachable(c, s) && s.dec.pc.Finished?
    requires Run(c, s, actions, t)
    ensures |actions| <= Work(s)
    ensures Output(c, t) == s.encoded + InFlight(c, s)
    ensures ImageBlocked(t) && EncoderBlocked(t) ==> t.encoded == s.encoded + InFlight(c, s)
  {
    ReachableInv(c, s);
    FinishedStays(c, s, actions, t);
    BoundedWithoutDecoder(c, s, actions, t);
    if ImageBlocked(t) && EncoderBlocked(t) {
      QuietIsEmpty(c, t);
    }
  }

  /** The decoder is not starved: while it waits for a credit the others take at most
      Work(s) steps, and they stop only when the credit is there. */
  lemma CreditArrives(c: Config, s: State, actions: seq<Action>, t: State)
    requires WellFormed(c) && Reachable(c, s) && s.dec.pc.AwaitCredit?
    requires Run(c, s, actions, t) && forall a :: a in actions ==> !a.DecoderStep?
    ensures |actions| <= Work(s)
    ensures ImageBlocked(t) && EncoderBlocked(t) ==> !DecoderBlocked(t)
  {
    ReachableInv(c, s);
    BoundedWithoutDecoder(c, s, actions, t);
    var start :| Run(c, Init(c), start, s);
    RunsJoin(c, Init(c), start, s, actions, t);
    DeadlockFree(c, t);
  }
}
