/**
 The three-thread transcoding pipeline as a step system: the decoder, the image
 processor and the encoder each run a loop, and every queue operation, semaphore
 operation and processing action is one atomic step.
 */
module PipelineModel {

  /** The content of a picture, up to identity. */
  type Frame = int

  /** The constants the application sets up, and the two opaque image operations. */
  datatype Config = Config(
    credits: nat,                   // initial value of pSemDecOutBuf
    buffers: nat,                   // number of output buffers allocated
    capacity: nat,                  // maxElement of each of the four queues
    semMax: nat,                    // nMaxValue of each of the four semaphores
    deinterlace: Frame -> Frame,
    scale: Frame -> Frame)

  predicate WellFormed(c: Config) {
    && 1 <= c.credits <= c.semMax
    && 1 <= c.buffers <= c.semMax
    && c.credits + 1 <= c.capacity
    && c.buffers <= c.capacity
  }

  /** Where each thread stands: the operation it performs next. */
  datatype DecoderPc =
    | Reading | Checking | Releasing | Clearing | Decoding
    | AwaitCredit | Storing | PushFrame | PostFrame | Closing | Finished

  datatype ImagePc =
    | AwaitBuffer | AwaitFrame | PopFrame | PopBuffer | Deinterlacing | Scaling
    | PushEncode | PostEncode | PushRelease | PostCredit

  datatype EncoderPc =
    | AwaitInput | Counting | PopInput | Encoding | PushBuffer | PostBuffer

  /** The four queues, each of decoder indices or of output buffer handles. */
  datatype Queues = Queues(
    decOut: seq<int>,               // decoder indices, decoder to image processor
    decRel: seq<int>,               // decoder indices, image processor to decoder
    imgOut: seq<int>,               // free output buffers, encoder to image processor
    encIn: seq<int>)                // filled output buffers, image processor to encoder

  /** The counts of the four semaphores. */
  datatype Semaphores = Semaphores(decOut: nat, imgIn: nat, imgOut: nat, encIn: nat)

  /** The threads: program counter and locals. */
  datatype Decoder = Decoder(pc: DecoderPc, outIndex: int, relIndex: int)
  datatype Imager = Imager(pc: ImagePc, inIndex: int, outBuf: int, temp: Frame)
  datatype Encoder = Encoder(pc: EncoderPc, buf: int)

  /** The VPU's frame buffers and their display flags, and decOutImage. */
  datatype Memory = Memory(vpu: map<int, Frame>, flags: set<int>, image: map<int, int>)

  datatype State = State(
    q: Queues,
    sem: Semaphores,
    dec: Decoder,
    img: Imager,
    enc: Encoder,
    mem: Memory,
    out: map<int, Frame>,           // the output buffers
    decoded: seq<Frame>,            // what the decoder has handed out so far
    encoded: seq<Frame>)            // what the encoder has consumed so far

  /** The result of one decode call: outImgIdx is negative when no picture is displayable yet. */
  datatype Outcome = NeedStream | Decoded(outImgIdx: int)

  /** One step of one thread. The decoder's step carries what its environment decides:
      whether the stream goes on, and what the VPU returns and leaves in its memory - or, when
      the decoder is closed, what is found there afterwards. */
  datatype Action =
    | DecoderStep(more: bool, outcome: Outcome, vpu: map<int, Frame>)
    | ImageStep
    | EncoderStep

  /** The handles of the output buffers, in the order they are allocated and queued. */
  function Handles(n: nat): (hs: seq<int>)
    ensures |hs| == n && forall i :: 0 <= i < n ==> hs[i] == i
  {
    seq(n, i => i)
  }

  function Init(c: Config): State {
    State(Queues([], [], Handles(c.buffers), []),
          Semaphores(c.credits, 0, c.buffers, 0),
          Decoder(Reading, 0, 0), Imager(AwaitBuffer, 0, 0, 0), Encoder(AwaitInput, 0),
          Memory(map[], {}, map[]), map[],
          [], [])
  }

  // ---- Queue and semaphore operations on values ----

  /** NX_PushQueue: a full queue is left alone (every caller drops the error code). */
  function Push(q: seq<int>, capacity: nat, x: int): seq<int> {
    if |q| < capacity then q + [x] else q
  }

  /** NX_PopQueue: from an empty queue the destination keeps its old value. */
  function Popped(q: seq<int>, previous: int): int {
    if |q| > 0 then q[0] else previous
  }

  function AfterPop(q: seq<int>): seq<int> {
    if |q| > 0 then q[1..] else q
  }

  /** NX_PostSem: at the maximum the count stays (NX_ESEM_OVERFLOW). */
  function Post(value: nat, max: nat): nat {
    if value < max then value + 1 else value
  }

  /** The picture reached through decOutImage[i]. */
  function PictureAt(m: Memory, i: int): Frame {
    if i in m.image && m.image[i] in m.vpu then m.vpu[m.image[i]] else 0
  }

  /** The picture in output buffer b. */
  function BufferAt(out: map<int, Frame>, b: int): Frame {
    if b in out then out[b] else 0
  }

  function Process(c: Config, f: Frame): Frame {
    c.scale(c.deinterlace(f))
  }

  // ---- When a step can be taken ----

  /** All that is assumed of the VPU while it is open: a buffer whose display flag is set keeps
      its content and is not handed out again. */
  ghost predicate VpuContract(m: Memory, outcome: Outcome, vpu: map<int, Frame>) {
    && (forall i :: i in m.flags && i in m.vpu ==> i in vpu && vpu[i] == m.vpu[i])
    && (outcome.Decoded? && outcome.outImgIdx >= 0 ==>
          outcome.outImgIdx !in m.flags && outcome.outImgIdx in vpu)
  }

  predicate DecoderBlocked(s: State) {
    s.dec.pc.AwaitCredit? && s.sem.decOut == 0
  }

  predicate ImageBlocked(s: State) {
    || (s.img.pc.AwaitBuffer? && s.sem.imgOut == 0)
    || (s.img.pc.AwaitFrame? && s.sem.imgIn == 0)
  }

  predicate EncoderBlocked(s: State) {
    s.enc.pc.AwaitInput? && s.sem.encIn == 0
  }

  ghost predicate Enabled(s: State, a: Action) {
    match a
    case DecoderStep(more, outcome, vpu) =>
      && !s.dec.pc.Finished?
      && !DecoderBlocked(s)
      && (s.dec.pc.Decoding? ==> VpuContract(s.mem, outcome, vpu))
    case ImageStep => !ImageBlocked(s)
    case EncoderStep => !EncoderBlocked(s)
  }

  // ---- The decoder's steps ----

  function Read(s: State, more: bool): State {
    s.(dec := s.dec.(pc := if more then Checking else Closing))
  }

  function CheckRelease(s: State): State {
    s.(dec := s.dec.(pc := if |s.q.decRel| > 0 then Releasing else Decoding))
  }

  function Release(s: State): State {
    s.(q := s.q.(decRel := AfterPop(s.q.decRel)),
       dec := s.dec.(relIndex := Popped(s.q.decRel, 0),
                     pc := if |s.q.decRel| > 0 then Clearing else Checking))
  }

  function ClearFlag(s: State): State {
    s.(mem := s.mem.(flags := s.mem.flags - {s.dec.relIndex}), dec := s.dec.(pc := Decoding))
  }

  /** Whatever the VPU does to its memory, then a picture becomes displayable or not. */
  function Decode(s: State, outcome: Outcome, vpu: map<int, Frame>): State
    requires outcome.Decoded? && outcome.outImgIdx >= 0 ==> outcome.outImgIdx in vpu
  {
    if outcome.Decoded? && outcome.outImgIdx >= 0 then
      s.(mem := s.mem.(vpu := vpu, flags := s.mem.flags + {outcome.outImgIdx}),
         dec := s.dec.(outIndex := outcome.outImgIdx, pc := AwaitCredit),
         decoded := s.decoded + [vpu[outcome.outImgIdx]])
    else
      s.(mem := s.mem.(vpu := vpu), dec := s.dec.(pc := Reading))
  }

  function TakeCredit(s: State): State
    requires s.sem.decOut > 0
  {
    s.(sem := s.sem.(decOut := s.sem.decOut - 1), dec := s.dec.(pc := Storing))
  }

  function StoreImage(s: State): State {
    s.(mem := s.mem.(image := s.mem.image[s.dec.outIndex := s.dec.outIndex]), dec := s.dec.(pc := PushFrame))
  }

  function PushDecoded(c: Config, s: State): State {
    s.(q := s.q.(decOut := Push(s.q.decOut, c.capacity, s.dec.outIndex)), dec := s.dec.(pc := PostFrame))
  }

  function PostDecoded(c: Config, s: State): State {
    s.(sem := s.sem.(imgIn := Post(s.sem.imgIn, c.semMax)), dec := s.dec.(pc := Reading))
  }

  /** Closing the decoder frees its frame buffers, whatever their display flags say: nothing is
      known of what is read from them afterwards. decOutImage still refers to them. */
  function Close(s: State, vpu: map<int, Frame>): State {
    s.(mem := s.mem.(vpu := vpu), dec := s.dec.(pc := Finished))
  }

  function NextDecoder(c: Config, s: State, more: bool, outcome: Outcome, vpu: map<int, Frame>): State
    requires !DecoderBlocked(s)
    requires s.dec.pc.Decoding? && outcome.Decoded? && outcome.outImgIdx >= 0 ==> outcome.outImgIdx in vpu
  {
    match s.dec.pc
    case Reading => Read(s, more)
    case Checking => CheckRelease(s)
    case Releasing => Release(s)
    case Clearing => ClearFlag(s)
    case Decoding => Decode(s, outcome, vpu)
    case AwaitCredit => TakeCredit(s)
    case Storing => StoreImage(s)
    case PushFrame => PushDecoded(c, s)
    case PostFrame => PostDecoded(c, s)
    case Closing => Close(s, vpu)
    case Finished => s
  }

  // ---- The image processor's steps ----

  function TakeBuffer(s: State): State
    requires s.sem.imgOut > 0
  {
    s.(sem := s.sem.(imgOut := s.sem.imgOut - 1), img := s.img.(pc := AwaitFrame))
  }

  function TakeFrame(s: State): State
    requires s.sem.imgIn > 0
  {
    s.(sem := s.sem.(imgIn := s.sem.imgIn - 1), img := s.img.(pc := PopFrame))
  }

  function PopDecoded(s: State): State {
    s.(q := s.q.(decOut := AfterPop(s.q.decOut)),
       img := s.img.(inIndex := Popped(s.q.decOut, s.img.inIndex), pc := PopBuffer))
  }

  function PopFree(s: State): State {
    s.(q := s.q.(imgOut := AfterPop(s.q.imgOut)),
       img := s.img.(outBuf := Popped(s.q.imgOut, s.img.outBuf), pc := Deinterlacing))
  }

  function Deinterlace(c: Config, s: State): State {
    s.(img := s.img.(temp := c.deinterlace(PictureAt(s.mem, s.img.inIndex)), pc := Scaling))
  }

  function Scale(c: Config, s: State): State {
    s.(out := s.out[s.img.outBuf := c.scale(s.img.temp)], img := s.img.(pc := PushEncode))
  }

  function PushScaled(c: Config, s: State): State {
    s.(q := s.q.(encIn := Push(s.q.encIn, c.capacity, s.img.outBuf)), img := s.img.(pc := PostEncode))
  }

  function PostScaled(c: Config, s: State): State {
    s.(sem := s.sem.(encIn := Post(s.sem.encIn, c.semMax)), img := s.img.(pc := PushRelease))
  }

  function PushReleased(c: Config, s: State): State {
    s.(q := s.q.(decRel := Push(s.q.decRel, c.capacity, s.img.inIndex)), img := s.img.(pc := PostCredit))
  }

  function PostReleased(c: Config, s: State): State {
    s.(sem := s.sem.(decOut := Post(s.sem.decOut, c.semMax)), img := s.img.(pc := AwaitBuffer))
  }

  function NextImage(c: Config, s: State): State
    requires !ImageBlocked(s)
  {
    match s.img.pc
    case AwaitBuffer => TakeBuffer(s)
    case AwaitFrame => TakeFrame(s)
    case PopFrame => PopDecoded(s)
    case PopBuffer => PopFree(s)
    case Deinterlacing => Deinterlace(c, s)
    case Scaling => Scale(c, s)
    case PushEncode => PushScaled(c, s)
    case PostEncode => PostScaled(c, s)
    case PushRelease => PushReleased(c, s)
    case PostCredit => PostReleased(c, s)
  }

  // ---- The encoder's steps ----

  function TakeInput(s: State): State
    requires s.sem.encIn > 0
  {
    s.(sem := s.sem.(encIn := s.sem.encIn - 1), enc := s.enc.(pc := Counting))
  }

  function CountInput(s: State): State {
    s.(enc := s.enc.(pc := if |s.q.encIn| == 0 then AwaitInput else PopInput))
  }

  function PopScaled(s: State): State {
    s.(q := s.q.(encIn := AfterPop(s.q.encIn)),
       enc := s.enc.(buf := Popped(s.q.encIn, s.enc.buf), pc := Encoding))
  }

  function Encode(s: State): State {
    s.(encoded := s.encoded + [BufferAt(s.out, s.enc.buf)], enc := s.enc.(pc := PushBuffer))
  }

  function PushFree(c: Config, s: State): State {
    s.(q := s.q.(imgOut := Push(s.q.imgOut, c.capacity, s.enc.buf)), enc := s.enc.(pc := PostBuffer))
  }

  function PostFree(c: Config, s: State): State {
    s.(sem := s.sem.(imgOut := Post(s.sem.imgOut, c.semMax)), enc := s.enc.(pc := AwaitInput))
  }

  function NextEncoder(c: Config, s: State): State
    requires !EncoderBlocked(s)
  {
    match s.enc.pc
    case AwaitInput => TakeInput(s)
    case Counting => CountInput(s)
    case PopInput => PopScaled(s)
    case Encoding => Encode(s)
    case PushBuffer => PushFree(c, s)
    case PostBuffer => PostFree(c, s)
  }

  ghost function Next(c: Config, s: State, a: Action): State
    requires Enabled(s, a)
  {
    match a
    case DecoderStep(more, outcome, vpu) => NextDecoder(c, s, more, outcome, vpu)
    case ImageStep => NextImage(c, s)
    case EncoderStep => NextEncoder(c, s)
  }

  // ---- Runs ----

  /** The actions, taken one after the other from s, are all enabled and end in t. */
  ghost predicate Run(c: Config, s: State, actions: seq<Action>, t: State)
    decreases |actions|
  {
    if actions == [] then s == t
    else Enabled(s, actions[0]) && Run(c, Next(c, s, actions[0]), actions[1..], t)
  }

  ghost predicate Reachable(c: Config, s: State) {
    exists actions :: Run(c, Init(c), actions, s)
  }
}
