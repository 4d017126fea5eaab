/**
 What every step of the pipeline keeps: the credit equations of the semaphores, the
 ownership of decoder indices and output buffers, and the order of the pictures.
 */
module PipelineInvariant {
  import opened PipelineModel

  function One(b: bool): nat {
    if b then 1 else 0
  }

  // ---- Who holds what, by program counter ----

  /** The decoder has taken a credit and not yet queued its index. */
  predicate DecoderSpends(d: Decoder) {
    d.pc.Storing? || d.pc.PushFrame?
  }

  predicate DecoderHolds(d: Decoder) {
    d.pc.AwaitCredit? || DecoderSpends(d)
  }

  /** The image processor has taken an output credit and not yet popped the buffer. */
  predicate ImageAwaits(m: Imager) {
    m.pc.AwaitFrame? || m.pc.PopFrame? || m.pc.PopBuffer?
  }

  predicate ImageHoldsIndex(m: Imager) {
    !m.pc.AwaitBuffer? && !m.pc.AwaitFrame? && !m.pc.PopFrame? && !m.pc.PostCredit?
  }

  predicate ImageHoldsBuffer(m: Imager) {
    m.pc.Deinterlacing? || m.pc.Scaling? || m.pc.PushEncode?
  }

  /** The encoder has taken an input credit and not yet popped the buffer. */
  predicate EncoderAwaits(e: Encoder) {
    e.pc.Counting? || e.pc.PopInput?
  }

  predicate EncoderHolds(e: Encoder) {
    e.pc.Encoding? || e.pc.PushBuffer?
  }

  // ---- The credit equations ----

  /** The number of decoder indices whose display flag has not been cleared. */
  function Outstanding(s: State): nat {
    |s.q.decOut| + |s.q.decRel| + One(DecoderHolds(s.dec)) + One(ImageHoldsIndex(s.img)) + One(s.dec.pc.Clearing?)
  }

  predicate Credits(c: Config, s: State) {
    && c.credits == s.sem.decOut + One(DecoderSpends(s.dec)) + |s.q.decOut|
                    + One(ImageHoldsIndex(s.img)) + One(s.img.pc.PostCredit?)
    && |s.q.decOut| == s.sem.imgIn + One(s.dec.pc.PostFrame?) + One(s.img.pc.PopFrame?)
    && c.buffers == |s.q.imgOut| + |s.q.encIn| + One(ImageHoldsBuffer(s.img)) + One(EncoderHolds(s.enc))
    && |s.q.imgOut| == s.sem.imgOut + One(s.enc.pc.PostBuffer?) + One(ImageAwaits(s.img))
    && |s.q.encIn| == s.sem.encIn + One(s.img.pc.PostEncode?) + One(EncoderAwaits(s.enc))
    && Outstanding(s) + One(s.dec.pc.Decoding?) <= c.credits + 1
    && (s.dec.pc.Releasing? ==> |s.q.decRel| > 0)
  }

  // ---- Ownership ----

  function Held(b: bool, x: int): multiset<int> {
    if b then multiset{x} else multiset{}
  }

  /** Every place a decoder index can be, with multiplicity. */
  function Indices(q: Queues, d: Decoder, m: Imager): multiset<int> {
    multiset(q.decOut) + multiset(q.decRel) + Held(DecoderHolds(d), d.outIndex)
    + Held(ImageHoldsIndex(m), m.inIndex) + Held(d.pc.Clearing?, d.relIndex)
  }

  /** Every place an output buffer can be, with multiplicity. */
  function Buffers(q: Queues, m: Imager, e: Encoder): multiset<int> {
    multiset(q.imgOut) + multiset(q.encIn) + Held(ImageHoldsBuffer(m), m.outBuf) + Held(EncoderHolds(e), e.buf)
  }

  predicate IndexOwnership(s: State) {
    Indices(s.q, s.dec, s.img) == multiset(s.mem.flags)
  }

  predicate BufferOwnership(c: Config, s: State) {
    Buffers(s.q, s.img, s.enc) == multiset(Handles(c.buffers))
  }

  // ---- The pictures ----

  function Processed(c: Config, fs: seq<Frame>): (r: seq<Frame>)
    ensures |r| == |fs|
    ensures forall i :: 0 <= i < |fs| ==> r[i] == Process(c, fs[i])
  {
    seq(|fs|, i requires 0 <= i < |fs| => Process(c, fs[i]))
  }

  /** The pictures of queued decoder indices, as the encoder will get them. */
  function QueuedPictures(c: Config, m: Memory, q: seq<int>): (r: seq<Frame>)
    ensures |r| == |q|
    ensures forall i :: 0 <= i < |q| ==> r[i] == Process(c, PictureAt(m, q[i]))
  {
    seq(|q|, i requires 0 <= i < |q| => Process(c, PictureAt(m, q[i])))
  }

  /** The pictures in queued output buffers. */
  function QueuedBuffers(out: map<int, Frame>, q: seq<int>): (r: seq<Frame>)
    ensures |r| == |q|
    ensures forall i :: 0 <= i < |q| ==> r[i] == BufferAt(out, q[i])
  {
    seq(|q|, i requires 0 <= i < |q| => BufferAt(out, q[i]))
  }

  function EncoderPart(out: map<int, Frame>, e: Encoder): seq<Frame> {
    if e.pc.Encoding? then [BufferAt(out, e.buf)] else []
  }

  function ImagePart(c: Config, mem: Memory, out: map<int, Frame>, m: Imager): seq<Frame> {
    if m.pc.PopBuffer? || m.pc.Deinterlacing? then [Process(c, PictureAt(mem, m.inIndex))]
    else if m.pc.Scaling? then [c.scale(m.temp)]
    else if m.pc.PushEncode? then [BufferAt(out, m.outBuf)]
    else []
  }

  function DecoderPart(c: Config, mem: Memory, d: Decoder): seq<Frame> {
    if DecoderHolds(d) && d.outIndex in mem.vpu then [Process(c, mem.vpu[d.outIndex])] else []
  }

  /** The pictures between decoder and encoder, oldest first. */
  function InFlight(c: Config, s: State): seq<Frame> {
    EncoderPart(s.out, s.enc) + QueuedBuffers(s.out, s.q.encIn) + ImagePart(c, s.mem, s.out, s.img)
    + QueuedPictures(c, s.mem, s.q.decOut) + DecoderPart(c, s.mem, s.dec)
  }

  /** What has been encoded, and what will be when the threads behind the decoder go on. */
  function Output(c: Config, s: State): seq<Frame> {
    s.encoded + InFlight(c, s)
  }

  /** decOutImage[i] describes buffer i, whose display flag is set. */
  predicate Describes(mem: Memory, i: int) {
    i in mem.flags && i in mem.image && mem.image[i] == i
  }

  /** Every index in flight can be looked up and, until the decoder is closed, has content. */
  predicate Described(s: State) {
    && (forall i :: i in s.q.decOut ==> Describes(s.mem, i))
    && (ImageHoldsIndex(s.img) ==> Describes(s.mem, s.img.inIndex))
    && (s.dec.pc.PushFrame? ==> Describes(s.mem, s.dec.outIndex))
    && (!s.dec.pc.Finished? ==> forall i :: i in s.mem.flags ==> i in s.mem.vpu)
  }

  predicate Ordered(c: Config, s: State) {
    Processed(c, s.decoded) == Output(c, s)
  }

  /** What holds also behind the closing of the decoder. */
  predicate Kept(c: Config, s: State) {
    Credits(c, s) && IndexOwnership(s) && BufferOwnership(c, s) && Described(s)
  }

  /** No picture is lost or duplicated; until the decoder is closed, none is changed. */
  predicate Inv(c: Config, s: State) {
    Kept(c, s) && |Output(c, s)| == |s.decoded| && (!s.dec.pc.Finished? ==> Ordered(c, s))
  }

  // ---- Initially ----

  lemma InitInv(c: Config)
    requires WellFormed(c)
    ensures Inv(c, Init(c))
  {
    assert InFlight(c, Init(c)) == [];
  }

  // ---- Consequences of ownership ----

  /** An index in flight is in one place only. */
  lemma IndexOnce(s: State, i: int)
    requires IndexOwnership(s)
    ensures Indices(s.q, s.dec, s.img)[i] == One(i in s.mem.flags)
  {
  }

  /** An output buffer is in one place only. */
  lemma BufferOnce(c: Config, s: State, b: int)
    requires BufferOwnership(c, s)
    ensures Buffers(s.q, s.img, s.enc)[b] == One(0 <= b < c.buffers)
  {
    HandlesOnce(c.buffers, b);
  }

  lemma {:induction false} HandlesOnce(n: nat, b: int)
    ensures multiset(Handles(n))[b] == One(0 <= b < n)
  {
    if n > 0 {
      HandlesOnce(n - 1, b);
      assert Handles(n) == Handles(n - 1) + [n - 1];
    }
  }

  lemma Front(q: seq<int>)
    requires |q| > 0
    ensures multiset(q) == multiset{q[0]} + multiset(q[1..])
    ensures q[0] in q && forall x :: x in q[1..] ==> x in q
  {
    assert q == [q[0]] + q[1..];
  }
}
