/**
 The pipeline as it is stored: queue and semaphore objects shared by three threads. Each
 method is one atomic step of one thread; its contract is that step of PipelineModel.
 */
module Transcoder {
  import opened PipelineModel
  import Queue
  import Semaphore
  import PipelineTheorems
  import PipelineTrace

  method NewQueue(capacity: nat) returns (q: Queue.NxQueue)
    requires capacity <= Queue.MAX_QUEUE_ELEMENT
    ensures fresh(q) && fresh(q.pElements) && q.Valid() && q.View() == Queue.Fifo(capacity, [])
  {
    q := new Queue.NxQueue();
    var _ := q.Init(capacity, true);
  }

  ghost predicate QueuesApart(a: Queue.NxQueue, b: Queue.NxQueue, c: Queue.NxQueue, d: Queue.NxQueue) {
    && a != b && a != c && a != d && b != c && b != d && c != d
    && a.pElements != b.pElements && a.pElements != c.pElements && a.pElements != d.pElements
    && b.pElements != c.pElements && b.pElements != d.pElements && c.pElements != d.pElements
  }

  /** The four queues, empty. */
  method NewQueues(capacity: nat) returns (a: Queue.NxQueue, b: Queue.NxQueue, c: Queue.NxQueue, d: Queue.NxQueue)
    requires capacity <= Queue.MAX_QUEUE_ELEMENT
    ensures fresh({a, b, c, d}) && fresh({a.pElements, b.pElements, c.pElements, d.pElements})
    ensures QueuesApart(a, b, c, d)
    ensures forall q :: q in {a, b, c, d} ==> q.Valid() && q.View() == Queue.Fifo(capacity, [])
  {
    a := NewQueue(capacity);
    b := NewQueue(capacity);
    c := NewQueue(capacity);
    d := NewQueue(capacity);
  }

  /** The four semaphores: decoder, image processing input and output, encoder. */
  method NewSemaphores(c: Config) returns (a: Semaphore.NxSemaphore, b: Semaphore.NxSemaphore,
                                           e: Semaphore.NxSemaphore, f: Semaphore.NxSemaphore)
    requires WellFormed(c) && c.semMax < Semaphore.UINT_RANGE
    ensures fresh({a, b, e, f}) && a != b && a != e && a != f && b != e && b != f && e != f
    ensures a.nMaxValue == b.nMaxValue == e.nMaxValue == f.nMaxValue == c.semMax
    ensures a.nValue == c.credits && b.nValue == 0 && e.nValue == c.buffers && f.nValue == 0
  {
    a := new Semaphore.NxSemaphore(c.credits, c.semMax);
    b := new Semaphore.NxSemaphore(0, c.semMax);
    e := new Semaphore.NxSemaphore(c.buffers, c.semMax);
    f := new Semaphore.NxSemaphore(0, c.semMax);
  }

  class AppData {
    const decRelQueue: Queue.NxQueue
    const decOutQueue: Queue.NxQueue
    const imgOutQueue: Queue.NxQueue
    const encInputQueue: Queue.NxQueue

    const semDecOutBuf: Semaphore.NxSemaphore
    const semImgInBuf: Semaphore.NxSemaphore
    const semImgOutBuf: Semaphore.NxSemaphore
    const semEncInBuf: Semaphore.NxSemaphore

    const cfg: Config

    // the threads' program counters and locals
    var dec: Decoder
    var img: Imager
    var enc: Encoder

    // VPU memory and display flags, decOutImage, output buffers, output file
    var mem: Memory
    var out: map<int, Frame>
    ghost var decoded: seq<Frame>
    var encoded: seq<Frame>

    ghost predicate ValidQueue(q: Queue.NxQueue)
      reads q
    {
      q.Valid() && q.maxElement == cfg.capacity
    }

    ghost predicate SemaphoresApart() {
      && semDecOutBuf != semImgInBuf && semDecOutBuf != semImgOutBuf && semDecOutBuf != semEncInBuf
      && semImgInBuf != semImgOutBuf && semImgInBuf != semEncInBuf && semImgOutBuf != semEncInBuf
      && semDecOutBuf.nMaxValue == semImgInBuf.nMaxValue == semImgOutBuf.nMaxValue == semEncInBuf.nMaxValue == cfg.semMax
    }

    /** Everything the threads share. */
    ghost function Parts(): set<object> {
      {this, decRelQueue, decOutQueue, imgOutQueue, encInputQueue,
       decRelQueue.pElements, decOutQueue.pElements, imgOutQueue.pElements, encInputQueue.pElements,
       semDecOutBuf, semImgInBuf, semImgOutBuf, semEncInBuf}
    }

    ghost predicate Valid()
      reads decRelQueue, decOutQueue, imgOutQueue, encInputQueue
    {
      && QueuesApart(decRelQueue, decOutQueue, imgOutQueue, encInputQueue) && SemaphoresApart()
      && ValidQueue(decRelQueue) && ValidQueue(decOutQueue) && ValidQueue(imgOutQueue) && ValidQueue(encInputQueue)
    }

    ghost function Elements(q: Queue.NxQueue): seq<int>
      reads q, q.pElements
      requires q.Valid()
    {
      q.View().elements
    }

    /** The state of the model that this object stores. */
    ghost function View(): State
      reads this, decRelQueue, decOutQueue, imgOutQueue, encInputQueue
      reads decRelQueue.pElements, decOutQueue.pElements, imgOutQueue.pElements, encInputQueue.pElements
      reads semDecOutBuf, semImgInBuf, semImgOutBuf, semEncInBuf
      requires Valid()
    {
      State(Queues(Elements(decOutQueue), Elements(decRelQueue), Elements(imgOutQueue), Elements(encInputQueue)),
            Semaphores(semDecOutBuf.nValue, semImgInBuf.nValue, semImgOutBuf.nValue, semEncInBuf.nValue),
            dec, img, enc, mem, out, decoded, encoded)
    }

    /** The queues and semaphores that multi_thread_transcoding creates, all of them empty
        or at their initial count; AllocateBuffers completes the set-up. */
    constructor (config: Config)
      requires WellFormed(config) && config.capacity <= Queue.MAX_QUEUE_ELEMENT
      requires config.semMax < Semaphore.UINT_RANGE
      ensures Valid() && cfg == config && fresh(Parts())
      ensures View() == var s := Init(config); s.(q := s.q.(imgOut := []))
    {
      cfg := config;
      var decOut, decRel, imgOut, encIn := NewQueues(config.capacity);
      decOutQueue, decRelQueue, imgOutQueue, encInputQueue := decOut, decRel, imgOut, encIn;
      var semDecOut, semImgIn, semImgOut, semEncIn := NewSemaphores(config);
      semDecOutBuf, semImgInBuf, semImgOutBuf, semEncInBuf := semDecOut, semImgIn, semImgOut, semEncIn;
      dec, img, enc := Decoder(Reading, 0, 0), Imager(AwaitBuffer, 0, 0, 0), Encoder(AwaitInput, 0);
      mem, out, decoded, encoded := Memory(map[], {}, map[]), map[], [], [];
    }

    /** Every allocated output buffer is queued as free. */
    method AllocateBuffers()
      requires Valid() && cfg.buffers <= cfg.capacity && Elements(imgOutQueue) == []
      modifies imgOutQueue, imgOutQueue.pElements
      ensures Valid()
      ensures View() == var s := old(View()); s.(q := s.q.(imgOut := Handles(cfg.buffers)))
    {
      var i := 0;
      while i < cfg.buffers
        invariant 0 <= i <= cfg.buffers
        invariant ValidQueue(imgOutQueue)
        invariant Elements(imgOutQueue) == Handles(i)
      {
        var _ := imgOutQueue.Push(i);
        i := i + 1;
      }
    }

    // ---- The decoder's steps ----

    method ReadStep(more: bool)
      requires Valid() && dec.pc.Reading?
      modifies this`dec
      ensures Valid() && View() == Read(old(View()), more)
    {
      dec := dec.(pc := if more then Checking else Closing);
    }

    method CheckReleaseStep()
      requires Valid() && dec.pc.Checking?
      modifies this`dec
      ensures Valid() && View() == CheckRelease(old(View()))
    {
      var n := decRelQueue.Count();
      dec := dec.(pc := if n > 0 then Releasing else Decoding);
    }

    method ReleaseStep()
      requires Valid() && dec.pc.Releasing?
      modifies this`dec, decRelQueue
      ensures Valid() && View() == Release(old(View()))
    {
      var code, relIndex := decRelQueue.Pop(0);
      dec := dec.(relIndex := relIndex, pc := if code == 0 then Clearing else Checking);
    }

    method ClearFlagStep()
      requires Valid() && dec.pc.Clearing?
      modifies this`dec, this`mem
      ensures Valid() && View() == ClearFlag(old(View()))
    {
      mem := mem.(flags := mem.flags - {dec.relIndex});
      dec := dec.(pc := Decoding);
    }

    /** The VPU's part is an argument: what it returns and what it leaves in its memory. */
    method DecodeStep(outcome: Outcome, vpu: map<int, Frame>)
      requires Valid() && dec.pc.Decoding? && VpuContract(mem, outcome, vpu)
      modifies this`dec, this`mem, this`decoded
      ensures Valid() && View() == Decode(old(View()), outcome, vpu)
    {
      mem := mem.(vpu := vpu);
      dec := dec.(pc := Reading);
      if outcome.Decoded? && outcome.outImgIdx >= 0 {
        mem := mem.(flags := mem.flags + {outcome.outImgIdx});
        dec := dec.(outIndex := outcome.outImgIdx, pc := AwaitCredit);
        decoded := decoded + [vpu[outcome.outImgIdx]];
      }
    }

    method TakeCreditStep()
      requires Valid() && dec.pc.AwaitCredit? && semDecOutBuf.nValue > 0
      modifies this`dec, semDecOutBuf
      ensures Valid() && View() == TakeCredit(old(View()))
    {
      var _ := semDecOutBuf.Enter();
      dec := dec.(pc := Storing);
    }

    method StoreImageStep()
      requires Valid() && dec.pc.Storing?
      modifies this`dec, this`mem
      ensures Valid() && View() == StoreImage(old(View()))
    {
      mem := mem.(image := mem.image[dec.outIndex := dec.outIndex]);
      dec := dec.(pc := PushFrame);
    }

    method PushDecodedStep()
      requires Valid() && dec.pc.PushFrame?
      modifies this`dec, decOutQueue, decOutQueue.pElements
      ensures Valid() && View() == PushDecoded(cfg, old(View()))
    {
      var _ := decOutQueue.Push(dec.outIndex);
      dec := dec.(pc := PostFrame);
    }

    method PostDecodedStep()
      requires Valid() && dec.pc.PostFrame?
      modifies this`dec, semImgInBuf
      ensures Valid() && View() == PostDecoded(cfg, old(View()))
    {
      var _ := semImgInBuf.Post();
      dec := dec.(pc := Reading);
    }

    /** NX_VidDecClose: what is found in the freed buffers afterwards is an argument. */
    method CloseStep(vpu: map<int, Frame>)
      requires Valid() && dec.pc.Closing?
      modifies this`dec, this`mem
      ensures Valid() && View() == Close(old(View()), vpu)
    {
      mem := mem.(vpu := vpu);
      dec := dec.(pc := Finished);
    }

    // ---- The image processor's steps ----

    method TakeBufferStep()
      requires Valid() && img.pc.AwaitBuffer? && semImgOutBuf.nValue > 0
      modifies this`img, semImgOutBuf
      ensures Valid() && View() == TakeBuffer(old(View()))
    {
      var _ := semImgOutBuf.Enter();
      img := img.(pc := AwaitFrame);
    }

    method TakeFrameStep()
      requires Valid() && img.pc.AwaitFrame? && semImgInBuf.nValue > 0
      modifies this`img, semImgInBuf
      ensures Valid() && View() == TakeFrame(old(View()))
    {
      var _ := semImgInBuf.Enter();
      img := img.(pc := PopFrame);
    }

    method PopDecodedStep()
      requires Valid() && img.pc.PopFrame?
      modifies this`img, decOutQueue
      ensures Valid() && View() == PopDecoded(old(View()))
    {
      var _, inIndex := decOutQueue.Pop(img.inIndex);
      img := img.(inIndex := inIndex, pc := PopBuffer);
    }

    method PopFreeStep()
      requires Valid() && img.pc.PopBuffer?
      modifies this`img, imgOutQueue
      ensures Valid() && View() == PopFree(old(View()))
    {
      var _, outBuf := imgOutQueue.Pop(img.outBuf);
      img := img.(outBuf := outBuf, pc := Deinterlacing);
    }

    method DeinterlaceStep()
      requires Valid() && img.pc.Deinterlacing?
      modifies this`img
      ensures Valid() && View() == Deinterlace(cfg, old(View()))
    {
      img := img.(temp := cfg.deinterlace(PictureAt(mem, img.inIndex)), pc := Scaling);
    }

    method ScaleStep()
      requires Valid() && img.pc.Scaling?
      modifies this`img, this`out
      ensures Valid() && View() == Scale(cfg, old(View()))
    {
      out := out[img.outBuf := cfg.scale(img.temp)];
      img := img.(pc := PushEncode);
    }

    method PushScaledStep()
      requires Valid() && img.pc.PushEncode?
      modifies this`img, encInputQueue, encInputQueue.pElements
      ensures Valid() && View() == PushScaled(cfg, old(View()))
    {
      var _ := encInputQueue.Push(img.outBuf);
      img := img.(pc := PostEncode);
    }

    method PostScaledStep()
      requires Valid() && img.pc.PostEncode?
      modifies this`img, semEncInBuf
      ensures Valid() && View() == PostScaled(cfg, old(View()))
    {
      var _ := semEncInBuf.Post();
      img := img.(pc := PushRelease);
    }

    method PushReleasedStep()
      requires Valid() && img.pc.PushRelease?
      modifies this`img, decRelQueue, decRelQueue.pElements
      ensures Valid() && View() == PushReleased(cfg, old(View()))
    {
      var _ := decRelQueue.Push(img.inIndex);
      img := img.(pc := PostCredit);
    }

    method PostReleasedStep()
      requires Valid() && img.pc.PostCredit?
      modifies this`img, semDecOutBuf
      ensures Valid() && View() == PostReleased(cfg, old(View()))
    {
      var _ := semDecOutBuf.Post();
      img := img.(pc := AwaitBuffer);
    }

    // ---- The encoder's steps ----

    method TakeInputStep()
      requires Valid() && enc.pc.AwaitInput? && semEncInBuf.nValue > 0
      modifies this`enc, semEncInBuf
      ensures Valid() && View() == TakeInput(old(View()))
    {
      var _ := semEncInBuf.Enter();
      enc := enc.(pc := Counting);
    }

    method CountInputStep()
      requires Valid() && enc.pc.Counting?
      modifies this`enc
      ensures Valid() && View() == CountInput(old(View()))
    {
      var n := encInputQueue.Count();
      enc := enc.(pc := if n <= 0 then AwaitInput else PopInput);
    }

    method PopScaledStep()
      requires Valid() && enc.pc.PopInput?
      modifies this`enc, encInputQueue
      ensures Valid() && View() == PopScaled(old(View()))
    {
      var _, buf := encInputQueue.Pop(enc.buf);
      enc := enc.(buf := buf, pc := Encoding);
    }

    method EncodeStep()
      requires Valid() && enc.pc.Encoding?
      modifies this`enc, this`encoded
      ensures Valid() && View() == Encode(old(View()))
    {
      encoded := encoded + [BufferAt(out, enc.buf)];
      enc := enc.(pc := PushBuffer);
    }

    method PushFreeStep()
      requires Valid() && enc.pc.PushBuffer?
      modifies this`enc, imgOutQueue, imgOutQueue.pElements
      ensures Valid() && View() == PushFree(cfg, old(View()))
    {
      var _ := imgOutQueue.Push(enc.buf);
      enc := enc.(pc := PostBuffer);
    }

    method PostFreeStep()
      requires Valid() && enc.pc.PostBuffer?
      modifies this`enc, semImgOutBuf
      ensures Valid() && View() == PostFree(cfg, old(View()))
    {
      var _ := semImgOutBuf.Post();
      enc := enc.(pc := AwaitInput);
    }

    // ---- The threads ----

    /** The next step of DecodeThread, which is not blocked. */
    method DecoderStep(more: bool, outcome: Outcome, vpu: map<int, Frame>)
      requires Valid() && !DecoderBlocked(View())
      requires dec.pc.Decoding? ==> VpuContract(mem, outcome, vpu)
      modifies this, decRelQueue, decOutQueue, decOutQueue.pElements, semDecOutBuf, semImgInBuf
      ensures Valid() && View() == NextDecoder(cfg, old(View()), more, outcome, vpu)
      ensures decoded == old(decoded) + if old(dec).pc.Decoding? && outcome.Decoded? && outcome.outImgIdx >= 0
                                        then [vpu[outcome.outImgIdx]] else []
    {
      match dec.pc
      case Reading => ReadStep(more);
      case Checking => CheckReleaseStep();
      case Releasing => ReleaseStep();
      case Clearing => ClearFlagStep();
      case Decoding => DecodeStep(outcome, vpu);
      case AwaitCredit => TakeCreditStep();
      case Storing => StoreImageStep();
      case PushFrame => PushDecodedStep();
      case PostFrame => PostDecodedStep();
      case Closing => CloseStep(vpu);
      case Finished =>
    }

    /** The next step of ImageProcessingThread, which is not blocked. */
    method ImageStep()
      requires Valid() && !ImageBlocked(View())
      modifies this, decOutQueue, imgOutQueue, encInputQueue, encInputQueue.pElements
      modifies decRelQueue, decRelQueue.pElements
      modifies semDecOutBuf, semImgInBuf, semImgOutBuf, semEncInBuf
      ensures Valid() && View() == NextImage(cfg, old(View()))
    {
      match img.pc
      case AwaitBuffer => TakeBufferStep();
      case AwaitFrame => TakeFrameStep();
      case PopFrame => PopDecodedStep();
      case PopBuffer => PopFreeStep();
      case Deinterlacing => DeinterlaceStep();
      case Scaling => ScaleStep();
      case PushEncode => PushScaledStep();
      case PostEncode => PostScaledStep();
      case PushRelease => PushReleasedStep();
      case PostCredit => PostReleasedStep();
    }

    /** The next step of EncodeThread, which is not blocked. */
    method EncoderStep()
      requires Valid() && !EncoderBlocked(View())
      modifies this, encInputQueue, imgOutQueue, imgOutQueue.pElements, semImgOutBuf, semEncInBuf
      ensures Valid() && View() == NextEncoder(cfg, old(View()))
    {
      match enc.pc
      case AwaitInput => TakeInputStep();
      case Counting => CountInputStep();
      case PopInput => PopScaledStep();
      case Encoding => EncodeStep();
      case PushBuffer => PushFreeStep();
      case PostBuffer => PostFreeStep();
    }

    /** The next step of some thread. */
    method Step(a: Action)
      requires Valid() && Enabled(View(), a)
      modifies Parts()
      ensures Valid() && View() == Next(cfg, old(View()), a)
    {
      match a
      case DecoderStep(more, outcome, vpu) => DecoderStep(more, outcome, vpu);
      case ImageStep => ImageStep();
      case EncoderStep => EncoderStep();
    }
  }

  /** Set up, then run under any schedule: the objects follow the model, so until the decoder is
      closed the encoder has consumed, in order and processed, the first of the pictures that the
      decode calls of the schedule handed out. */
  method Transcode(config: Config, schedule: seq<Action>, ghost final: State) returns (app: AppData)
    requires WellFormed(config) && config.capacity <= Queue.MAX_QUEUE_ELEMENT
    requires config.semMax < Semaphore.UINT_RANGE
    requires Run(config, Init(config), schedule, final)
    ensures app.Valid() && app.View() == final
    ensures var handed := PipelineTrace.Handed(config, Init(config), schedule, final);
            && app.decoded == handed && |app.encoded| <= |handed|
            && (!app.dec.pc.Finished? ==>
                  forall i :: 0 <= i < |app.encoded| ==> app.encoded[i] == config.scale(config.deinterlace(handed[i])))
  {
    app := new AppData(config);
    app.AllocateBuffers();
    var i := 0;
    while i < |schedule|
      invariant 0 <= i <= |schedule|
      invariant app.Valid() && app.cfg == config && fresh(app.Parts())
      invariant Run(config, app.View(), schedule[i..], final)
    {
      app.Step(schedule[i]);
      i := i + 1;
    }
    PipelineTrace.HandedFromTheStart(config, schedule, final);
    PipelineTheorems.PicturesConserved(config, schedule, final);
    if !final.dec.pc.Finished? {
      PipelineTheorems.EncodedInDecodeOrder(config, schedule, final);
    }
  }
}
