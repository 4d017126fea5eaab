/** Each step of each thread keeps the invariant. */
module PipelineSteps {
  import opened PipelineModel
  import opened PipelineInvariant

  /** Two memories that show the same picture at every queued index. */
  lemma SamePictures(c: Config, m: Memory, n: Memory, q: seq<int>)
    requires forall i :: i in q ==> PictureAt(m, i) == PictureAt(n, i)
    ensures QueuedPictures(c, m, q) == QueuedPictures(c, n, q)
  {
  }

  /** The indices waiting for or held by the image processor are flagged and not the decoder's. */
  lemma InFlightApart(s: State, i: int)
    requires IndexOwnership(s) && (i in s.q.decOut || (ImageHoldsIndex(s.img) && i == s.img.inIndex))
    ensures i in s.mem.flags
    ensures DecoderHolds(s.dec) ==> i != s.dec.outIndex
    ensures s.dec.pc.Clearing? ==> i != s.dec.relIndex
  {
    IndexOnce(s, i);
    assert i in s.q.decOut ==> multiset(s.q.decOut)[i] > 0;
  }

  /** A change of memory that touches no picture in flight keeps the order. */
  lemma MemoryKeepsOrder(c: Config, s: State, mem: Memory)
    requires Ordered(c, s)
    requires forall i :: i in s.q.decOut || (ImageHoldsIndex(s.img) && i == s.img.inIndex) ==>
                           PictureAt(mem, i) == PictureAt(s.mem, i)
    requires DecoderPart(c, mem, s.dec) == DecoderPart(c, s.mem, s.dec)
    ensures Ordered(c, s.(mem := mem))
  {
    SamePictures(c, mem, s.mem, s.q.decOut);
  }

  /** A picture that moves from one part of the pipeline to the next keeps its place. */
  lemma Moves(a: seq<Frame>, b: seq<Frame>, x: seq<Frame>, d: seq<Frame>, e: seq<Frame>)
    ensures [] + (x + b) + a + d + e == x + b + a + d + e
    ensures a + (b + x) + [] + d + e == a + b + x + d + e
    ensures a + b + [] + (x + d) + e == a + b + x + d + e
    ensures a + b + d + (e + x) + [] == a + b + d + e + x
  {
  }

  // ---- The decoder ----

  lemma ReadInv(c: Config, s: State, more: bool)
    requires WellFormed(c) && Inv(c, s) && s.dec.pc.Reading?
    ensures Inv(c, Read(s, more))
  {
  }

  lemma CheckReleaseInv(c: Config, s: State)
    requires WellFormed(c) && Inv(c, s) && s.dec.pc.Checking?
    ensures Inv(c, CheckRelease(s))
  {
  }

  lemma ReleaseOwnership(s: State)
    requires IndexOwnership(s) && s.dec.pc.Releasing? && |s.q.decRel| > 0
    ensures IndexOwnership(Release(s))
  {
    Front(s.q.decRel);
  }

  lemma ReleaseInv(c: Config, s: State)
    requires WellFormed(c) && Inv(c, s) && s.dec.pc.Releasing?
    ensures Inv(c, Release(s))
  {
    ReleaseOwnership(s);
  }

  lemma ClearFlagOwnership(s: State)
    requires IndexOwnership(s) && Described(s) && s.dec.pc.Clearing?
    ensures IndexOwnership(ClearFlag(s)) && Described(ClearFlag(s))
  {
    var t := ClearFlag(s);
    IndexOnce(s, s.dec.relIndex);
    assert Indices(t.q, t.dec, t.img) == Indices(s.q, s.dec, s.img) - multiset{s.dec.relIndex};
    forall i | i in s.q.decOut || (ImageHoldsIndex(s.img) && i == s.img.inIndex)
      ensures Describes(t.mem, i)
    {
      InFlightApart(s, i);
    }
  }

  lemma ClearFlagInv(c: Config, s: State)
    requires WellFormed(c) && Inv(c, s) && s.dec.pc.Clearing?
    ensures Inv(c, ClearFlag(s))
  {
    ClearFlagOwnership(s);
    MemoryKeepsOrder(c, s, s.mem.(flags := s.mem.flags - {s.dec.relIndex}));
  }

  lemma NewFlag(flags: set<int>, i: int)
    requires i !in flags
    ensures multiset(flags + {i}) == multiset(flags) + multiset{i}
  {
  }

  lemma DecodeOwnership(s: State, outcome: Outcome, vpu: map<int, Frame>)
    requires IndexOwnership(s) && s.dec.pc.Decoding? && VpuContract(s.mem, outcome, vpu)
    ensures IndexOwnership(Decode(s, outcome, vpu))
  {
    if outcome.Decoded? && outcome.outImgIdx >= 0 {
      NewFlag(s.mem.flags, outcome.outImgIdx);
    }
  }

  lemma DecodeDescribed(s: State, outcome: Outcome, vpu: map<int, Frame>)
    requires Described(s) && s.dec.pc.Decoding? && VpuContract(s.mem, outcome, vpu)
    ensures Described(Decode(s, outcome, vpu))
  {
  }

  lemma DecodeOrder(c: Config, s: State, outcome: Outcome, vpu: map<int, Frame>)
    requires IndexOwnership(s) && Described(s) && Ordered(c, s)
    requires s.dec.pc.Decoding? && VpuContract(s.mem, outcome, vpu)
    ensures Ordered(c, Decode(s, outcome, vpu))
  {
    var t := Decode(s, outcome, vpu);
    var m := s.(mem := t.mem);
    MemoryKeepsOrder(c, s, t.mem);
    if outcome.Decoded? && outcome.outImgIdx >= 0 {
      var f := vpu[outcome.outImgIdx];
      assert Processed(c, t.decoded) == Processed(c, s.decoded) + [Process(c, f)];
      assert InFlight(c, t) == InFlight(c, m) + [Process(c, f)];
    }
  }

  lemma DecodeKeeps(c: Config, s: State, outcome: Outcome, vpu: map<int, Frame>)
    requires Kept(c, s) && s.dec.pc.Decoding? && VpuContract(s.mem, outcome, vpu)
    ensures Kept(c, Decode(s, outcome, vpu))
  {
    DecodeOwnership(s, outcome, vpu);
    DecodeDescribed(s, outcome, vpu);
  }

  lemma OrderedInv(c: Config, s: State)
    requires Kept(c, s) && Ordered(c, s)
    ensures Inv(c, s)
  {
  }

  lemma DecodeInv(c: Config, s: State, outcome: Outcome, vpu: map<int, Frame>)
    requires WellFormed(c) && Inv(c, s) && s.dec.pc.Decoding? && VpuContract(s.mem, outcome, vpu)
    ensures Inv(c, Decode(s, outcome, vpu))
    ensures Decode(s, outcome, vpu).decoded ==
            s.decoded + if outcome.Decoded? && outcome.outImgIdx >= 0 then [vpu[outcome.outImgIdx]] else []
  {
    DecodeKeeps(c, s, outcome, vpu);
    DecodeOrder(c, s, outcome, vpu);
    OrderedInv(c, Decode(s, outcome, vpu));
  }

  lemma TakeCreditInv(c: Config, s: State)
    requires WellFormed(c) && Inv(c, s) && s.dec.pc.AwaitCredit? && s.sem.decOut > 0
    ensures Inv(c, TakeCredit(s))
  {
  }

  lemma StoreImageInv(c: Config, s: State)
    requires WellFormed(c) && Inv(c, s) && s.dec.pc.Storing?
    ensures Inv(c, StoreImage(s))
  {
    IndexOnce(s, s.dec.outIndex);
    MemoryKeepsOrder(c, s, s.mem.(image := s.mem.image[s.dec.outIndex := s.dec.outIndex]));
  }

  lemma PushDecodedOrder(c: Config, s: State)
    requires Ordered(c, s) && Described(s) && s.dec.pc.PushFrame? && |s.q.decOut| < c.capacity
    ensures Ordered(c, PushDecoded(c, s))
  {
    var t := PushDecoded(c, s);
    var d, x := QueuedPictures(c, s.mem, s.q.decOut), DecoderPart(c, s.mem, s.dec);
    assert QueuedPictures(c, t.mem, t.q.decOut) == d + x;
    Moves(EncoderPart(s.out, s.enc), QueuedBuffers(s.out, s.q.encIn), x, ImagePart(c, s.mem, s.out, s.img), d);
  }

  lemma PushDecodedOwnership(c: Config, s: State)
    requires IndexOwnership(s) && s.dec.pc.PushFrame? && |s.q.decOut| < c.capacity
    ensures IndexOwnership(PushDecoded(c, s))
  {
  }

  lemma PushDecodedCredits(c: Config, s: State)
    requires WellFormed(c) && Credits(c, s) && Described(s) && s.dec.pc.PushFrame?
    ensures |s.q.decOut| < c.capacity && Credits(c, PushDecoded(c, s)) && Described(PushDecoded(c, s))
  {
  }

  lemma PushDecodedInv(c: Config, s: State)
    requires WellFormed(c) && Inv(c, s) && s.dec.pc.PushFrame?
    ensures Inv(c, PushDecoded(c, s))
  {
    PushDecodedCredits(c, s);
    PushDecodedOwnership(c, s);
    PushDecodedOrder(c, s);
  }

  lemma PostDecodedInv(c: Config, s: State)
    requires WellFormed(c) && Inv(c, s) && s.dec.pc.PostFrame?
    ensures Inv(c, PostDecoded(c, s))
  {
  }

  lemma CloseKeeps(c: Config, s: State, vpu: map<int, Frame>)
    requires Kept(c, s) && s.dec.pc.Closing?
    ensures Kept(c, Close(s, vpu))
  {
  }

  lemma CloseCounts(c: Config, s: State, vpu: map<int, Frame>)
    requires s.dec.pc.Closing?
    ensures |Output(c, Close(s, vpu))| == |Output(c, s)|
  {
  }

  /** Closing frees what the display flags protected, but moves nothing. */
  lemma CloseInv(c: Config, s: State, vpu: map<int, Frame>)
    requires WellFormed(c) && Inv(c, s) && s.dec.pc.Closing?
    ensures Inv(c, Close(s, vpu))
  {
    CloseKeeps(c, s, vpu);
    CloseCounts(c, s, vpu);
  }

  // ---- The image processor ----

  lemma TakeBufferKeeps(c: Config, s: State)
    requires WellFormed(c) && Kept(c, s) && s.img.pc.AwaitBuffer? && s.sem.imgOut > 0
    ensures Kept(c, TakeBuffer(s)) && Output(c, TakeBuffer(s)) == Output(c, s)
  {
  }

  lemma TakeFrameKeeps(c: Config, s: State)
    requires WellFormed(c) && Kept(c, s) && s.img.pc.AwaitFrame? && s.sem.imgIn > 0
    ensures Kept(c, TakeFrame(s)) && Output(c, TakeFrame(s)) == Output(c, s)
  {
  }

  lemma PopDecodedOrder(c: Config, s: State)
    requires s.img.pc.PopFrame? && |s.q.decOut| > 0
    ensures Output(c, PopDecoded(s)) == Output(c, s)
  {
    var t := PopDecoded(s);
    var x, d := ImagePart(c, t.mem, t.out, t.img), QueuedPictures(c, t.mem, t.q.decOut);
    assert QueuedPictures(c, s.mem, s.q.decOut) == x + d;
    Moves(EncoderPart(s.out, s.enc), QueuedBuffers(s.out, s.q.encIn), x, d, DecoderPart(c, s.mem, s.dec));
  }

  lemma PopDecodedKeeps(c: Config, s: State)
    requires WellFormed(c) && Kept(c, s) && s.img.pc.PopFrame?
    ensures Kept(c, PopDecoded(s)) && Output(c, PopDecoded(s)) == Output(c, s)
  {
    Front(s.q.decOut);
    PopDecodedOrder(c, s);
  }

  lemma PopFreeKeeps(c: Config, s: State)
    requires WellFormed(c) && Kept(c, s) && s.img.pc.PopBuffer?
    ensures Kept(c, PopFree(s)) && Output(c, PopFree(s)) == Output(c, s)
  {
    Front(s.q.imgOut);
  }

  lemma DeinterlaceOrder(c: Config, s: State)
    requires s.img.pc.Deinterlacing?
    ensures Output(c, Deinterlace(c, s)) == Output(c, s)
  {
  }

  lemma DeinterlaceKeeps(c: Config, s: State)
    requires WellFormed(c) && Kept(c, s) && s.img.pc.Deinterlacing?
    ensures Kept(c, Deinterlace(c, s)) && Output(c, Deinterlace(c, s)) == Output(c, s)
  {
    DeinterlaceOrder(c, s);
  }

  /** The buffer the image processor writes is neither queued for encoding nor being encoded. */
  lemma WrittenBufferApart(c: Config, s: State)
    requires BufferOwnership(c, s) && ImageHoldsBuffer(s.img)
    ensures s.img.outBuf !in s.q.encIn && s.img.outBuf !in s.q.imgOut
    ensures EncoderHolds(s.enc) ==> s.img.outBuf != s.enc.buf
  {
    var b := s.img.outBuf;
    BufferOnce(c, s, b);
    assert b in s.q.encIn <==> multiset(s.q.encIn)[b] > 0;
    assert b in s.q.imgOut <==> multiset(s.q.imgOut)[b] > 0;
  }

  lemma ScaleOrder(c: Config, s: State)
    requires BufferOwnership(c, s) && s.img.pc.Scaling?
    ensures Output(c, Scale(c, s)) == Output(c, s)
  {
    var t := Scale(c, s);
    WrittenBufferApart(c, s);
    assert QueuedBuffers(t.out, t.q.encIn) == QueuedBuffers(s.out, s.q.encIn);
  }

  lemma ScaleKeeps(c: Config, s: State)
    requires WellFormed(c) && Kept(c, s) && s.img.pc.Scaling?
    ensures Kept(c, Scale(c, s)) && Output(c, Scale(c, s)) == Output(c, s)
  {
    ScaleOrder(c, s);
  }

  lemma PushScaledOrder(c: Config, s: State)
    requires s.img.pc.PushEncode? && |s.q.encIn| < c.capacity
    ensures Output(c, PushScaled(c, s)) == Output(c, s)
  {
    var t := PushScaled(c, s);
    var b, x := QueuedBuffers(s.out, s.q.encIn), ImagePart(c, s.mem, s.out, s.img);
    assert QueuedBuffers(t.out, t.q.encIn) == b + x;
    Moves(EncoderPart(s.out, s.enc), b, x, QueuedPictures(c, s.mem, s.q.decOut), DecoderPart(c, s.mem, s.dec));
  }

  lemma PushScaledKeeps(c: Config, s: State)
    requires WellFormed(c) && Kept(c, s) && s.img.pc.PushEncode?
    ensures Kept(c, PushScaled(c, s)) && Output(c, PushScaled(c, s)) == Output(c, s)
  {
    PushScaledOrder(c, s);
  }

  lemma PostScaledKeeps(c: Config, s: State)
    requires WellFormed(c) && Kept(c, s) && s.img.pc.PostEncode?
    ensures Kept(c, PostScaled(c, s)) && Output(c, PostScaled(c, s)) == Output(c, s)
  {
  }

  lemma PushReleasedOwnership(c: Config, s: State)
    requires IndexOwnership(s) && s.img.pc.PushRelease? && |s.q.decRel| < c.capacity
    ensures IndexOwnership(PushReleased(c, s))
  {
  }

  lemma PushReleasedKeeps(c: Config, s: State)
    requires WellFormed(c) && Kept(c, s) && s.img.pc.PushRelease?
    ensures Kept(c, PushReleased(c, s)) && Output(c, PushReleased(c, s)) == Output(c, s)
  {
    PushReleasedOwnership(c, s);
  }

  lemma PostReleasedKeeps(c: Config, s: State)
    requires WellFormed(c) && Kept(c, s) && s.img.pc.PostCredit?
    ensures Kept(c, PostReleased(c, s)) && Output(c, PostReleased(c, s)) == Output(c, s)
  {
  }

  // ---- The encoder ----

  lemma TakeInputKeeps(c: Config, s: State)
    requires WellFormed(c) && Kept(c, s) && s.enc.pc.AwaitInput? && s.sem.encIn > 0
    ensures Kept(c, TakeInput(s)) && Output(c, TakeInput(s)) == Output(c, s)
  {
  }

  lemma CountInputKeeps(c: Config, s: State)
    requires WellFormed(c) && Kept(c, s) && s.enc.pc.Counting?
    ensures Kept(c, CountInput(s)) && Output(c, CountInput(s)) == Output(c, s)
  {
  }

  lemma PopScaledOrder(c: Config, s: State)
    requires s.enc.pc.PopInput? && |s.q.encIn| > 0
    ensures Output(c, PopScaled(s)) == Output(c, s)
  {
    var t := PopScaled(s);
    var x, b := EncoderPart(t.out, t.enc), QueuedBuffers(t.out, t.q.encIn);
    assert QueuedBuffers(s.out, s.q.encIn) == x + b;
    Moves(ImagePart(c, s.mem, s.out, s.img), b, x, QueuedPictures(c, s.mem, s.q.decOut), DecoderPart(c, s.mem, s.dec));
  }

  lemma PopScaledKeeps(c: Config, s: State)
    requires WellFormed(c) && Kept(c, s) && s.enc.pc.PopInput?
    ensures Kept(c, PopScaled(s)) && Output(c, PopScaled(s)) == Output(c, s)
  {
    Front(s.q.encIn);
    PopScaledOrder(c, s);
  }

  lemma Consumes(e: seq<Frame>, x: Frame, a: seq<Frame>, b: seq<Frame>, d: seq<Frame>, p: seq<Frame>)
    ensures (e + [x]) + ([] + a + b + d + p) == e + ([x] + a + b + d + p)
  {
  }

  lemma EncodeOrder(c: Config, s: State)
    requires s.enc.pc.Encoding?
    ensures Output(c, Encode(s)) == Output(c, s)
  {
    Consumes(s.encoded, BufferAt(s.out, s.enc.buf), QueuedBuffers(s.out, s.q.encIn), ImagePart(c, s.mem, s.out, s.img),
             QueuedPictures(c, s.mem, s.q.decOut), DecoderPart(c, s.mem, s.dec));
  }

  lemma EncodeKeeps(c: Config, s: State)
    requires WellFormed(c) && Kept(c, s) && s.enc.pc.Encoding?
    ensures Kept(c, Encode(s)) && Output(c, Encode(s)) == Output(c, s)
  {
    EncodeOrder(c, s);
  }

  lemma PushFreeKeeps(c: Config, s: State)
    requires WellFormed(c) && Kept(c, s) && s.enc.pc.PushBuffer?
    ensures Kept(c, PushFree(c, s)) && Output(c, PushFree(c, s)) == Output(c, s)
  {
  }

  lemma PostFreeKeeps(c: Config, s: State)
    requires WellFormed(c) && Kept(c, s) && s.enc.pc.PostBuffer?
    ensures Kept(c, PostFree(c, s)) && Output(c, PostFree(c, s)) == Output(c, s)
  {
  }

  // ---- Every step ----

  lemma DecoderStepInv(c: Config, s: State, a: Action)
    requires WellFormed(c) && Inv(c, s) && a.DecoderStep? && Enabled(s, a)
    ensures Inv(c, Next(c, s, a))
  {
    match s.dec.pc
    case Reading => ReadInv(c, s, a.more);
    case Checking => CheckReleaseInv(c, s);
    case Releasing => ReleaseInv(c, s);
    case Clearing => ClearFlagInv(c, s);
    case Decoding => DecodeInv(c, s, a.outcome, a.vpu);
    case AwaitCredit => TakeCreditInv(c, s);
    case Storing => StoreImageInv(c, s);
    case PushFrame => PushDecodedInv(c, s);
    case PostFrame => PostDecodedInv(c, s);
    case Closing => CloseInv(c, s, a.vpu);
  }

  lemma ImageStepKeeps(c: Config, s: State)
    requires WellFormed(c) && Kept(c, s) && Enabled(s, ImageStep)
    ensures Kept(c, NextImage(c, s)) && Output(c, NextImage(c, s)) == Output(c, s)
  {
    match s.img.pc
    case AwaitBuffer => TakeBufferKeeps(c, s);
    case AwaitFrame => TakeFrameKeeps(c, s);
    case PopFrame => PopDecodedKeeps(c, s);
    case PopBuffer => PopFreeKeeps(c, s);
    case Deinterlacing => DeinterlaceKeeps(c, s);
    case Scaling => ScaleKeeps(c, s);
    case PushEncode => PushScaledKeeps(c, s);
    case PostEncode => PostScaledKeeps(c, s);
    case PushRelease => PushReleasedKeeps(c, s);
    case PostCredit => PostReleasedKeeps(c, s);
  }

  lemma EncoderStepKeeps(c: Config, s: State)
    requires WellFormed(c) && Kept(c, s) && Enabled(s, EncoderStep)
    ensures Kept(c, NextEncoder(c, s)) && Output(c, NextEncoder(c, s)) == Output(c, s)
  {
    match s.enc.pc
    case AwaitInput => TakeInputKeeps(c, s);
    case Counting => CountInputKeeps(c, s);
    case PopInput => PopScaledKeeps(c, s);
    case Encoding => EncodeKeeps(c, s);
    case PushBuffer => PushFreeKeeps(c, s);
    case PostBuffer => PostFreeKeeps(c, s);
  }

  /** The threads behind the decoder change nothing of what will have been encoded. */
  lemma OtherStepKeeps(c: Config, s: State, a: Action)
    requires WellFormed(c) && Kept(c, s) && Enabled(s, a) && !a.DecoderStep?
    ensures Kept(c, Next(c, s, a)) && Output(c, Next(c, s, a)) == Output(c, s)
  {
    if a.ImageStep? {
      ImageStepKeeps(c, s);
    } else {
      EncoderStepKeeps(c, s);
    }
  }

  lemma ImageLeavesDecoder(c: Config, s: State)
    requires !ImageBlocked(s)
    ensures var n := NextImage(c, s); n.decoded == s.decoded && n.dec == s.dec && n.mem == s.mem
  {
  }

  lemma EncoderLeavesDecoder(c: Config, s: State)
    requires !EncoderBlocked(s)
    ensures var n := NextEncoder(c, s); n.decoded == s.decoded && n.dec == s.dec && n.mem == s.mem
  {
  }

  lemma LeavesDecoder(c: Config, s: State, a: Action)
    requires Enabled(s, a) && !a.DecoderStep?
    ensures var n := Next(c, s, a); n.decoded == s.decoded && n.dec == s.dec && n.mem == s.mem
  {
    if a.ImageStep? {
      ImageLeavesDecoder(c, s);
    } else {
      EncoderLeavesDecoder(c, s);
    }
  }

  /** Every step of every thread keeps the invariant. */
  lemma StepInv(c: Config, s: State, a: Action)
    requires WellFormed(c) && Inv(c, s) && Enabled(s, a)
    ensures Inv(c, Next(c, s, a))
  {
    if a.DecoderStep? {
      DecoderStepInv(c, s, a);
    } else {
      OtherStepKeeps(c, s, a);
      LeavesDecoder(c, s, a);
    }
  }
}
