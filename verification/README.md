# Verified model of the Nexell multimedia samples

This project models the parts of the repository whose correctness is hard to see by reading them,
and proves what they are for.

* **The three-thread transcoder** (`PipelineModel`, `PipelineInvariant`, `PipelineSteps`,
  `PipelineTrace`, `PipelineTheorems`, `PipelineClose`, `Transcoder`). Decoder, image processor and encoder run as a step
  system: one atomic step for each pend, post, push, pop and processing action, interleaved arbitrarily,
  for any number of decode credits K >= 1 and output buffers N >= 1. Every reachable state of every run keeps
  one invariant, and from it follow the order of the pictures, the ownership of indices and buffers,
  the success of every queue and semaphore operation, deadlock freedom and draining. `PipelineTrace` tells from
  the actions of a run which pictures its decode calls hand out, and the order is stated against those. `PipelineClose`
  is about the end of the stream, where the decoder frees its buffers. `Transcoder` is
  the same system as objects - four queues, four semaphores, thread locals - that follow the model step
  by step under any schedule.
* **Queue and semaphore** (`Queue`, `Semaphore`). The ring buffer refines a bounded FIFO. The
  semaphore is modelled at the level of its code, where `NX_PendSem` tests the count once and does not
  test it again after waiting; `NeverWrapsExactly` states precisely when that keeps the contract that
  the pipeline uses.
* **Parameter sets and packets** (`AnnexB`, `AvcStream`, `PacketLaws`, `ParameterSets`, `RecordLaws`,
  `RecordUse`). The parsers of the avcC and hvcC records (ISO/IEC 14496-15:2014, sections 5.3.3.1 and 8.3.3.1), the
  emitters and the packet converter to the byte stream format of Annex B of ITU-T H.264, with parsing,
  printing and splitting (section B.2) proved to undo each other, with exact conditions.
* **Pixels** (`PixelRows`, `LoadImage`, `LoadImageLaws`, `Deinterlace`, `DeinterlaceLaws`,
  `DeinterlacePlanes`, `DeinterlacePixels`). Planes with strides, the planar to semi-planar loader, and the basic deinterlacers.
* **Integer arithmetic** (`Bresenham`, `LineLaws`, `NearestLine`, `Rounding`). The line algorithm with its
  closed form, error bound and the lines it draws best, and the rounding divisions.
* **The message window** (`DebugWindow`). A ring of lines that overwrites the oldest.

`Bytes` and `Ring` hold what several of them share.

## What the model assumes

* Of the VPU, only that a buffer whose display flag is set keeps its content and is not handed out
  again until it is closed. Deinterlacing and scaling are arbitrary functions of a picture; a picture is
  read in one step, and a decoder that is closed while it is being read counts as closed before. A
  decoding error ends the process, so a run simply ends there.
* A queue call is atomic, because each holds the queue's mutex (`NX_GetQueueCnt` reads one word).
  A pend or post is atomic in the pipeline; `Semaphore.SingleRun` is the reason: in this application
  each semaphore is pended by one thread only and has a positive maximum. It also needs
  `pthread_cond_wait` to return only after a signal.
* `extraData` and packet data have the padding bytes behind them that FFmpeg guarantees, where the code
  reads a length field before it checks the size.

## What the code does not do

Some properties one would expect hold only under a condition. The condition is stated exactly, and an
input that fails is given:

* `DecodeThread` calls `NX_VidDecClose` as soon as the stream ends (trans_main.c:1240). That frees every
  frame buffer (library/src/libnxvpu/nx_video_api.c:939, 2159-2170), also those whose index is still in
  `decOutQueue` or held by the image thread; `decOutImage[i]` is only a copy of the descriptor. Draining
  the pipeline encodes the decoded pictures if and only if the image thread has read them all by then
  (`PipelineClose.ClosesCleanlyExactly`, `PipelineClose.ClosedTooEarly`).
* `NX_PendSem` takes one from an empty semaphore when two threads pend on it, when its maximum is 0, or
  when a wait ends spuriously (`Semaphore.NeverWrapsExactly`, `Semaphore.WrapsWhenShared` and beside it).
* `PasreAVCStream` stops when at most two bytes are left. With one-byte lengths a final NAL unit of one
  byte behind another one is dropped (`PacketLaws.ConvertsExactly`, `PacketLaws.LastUnitDropped`).
* `NX_ParseSpsPpsFromAVCC` rejects a record of fewer than 11 bytes, which one without SPS or PPS can be
  (`RecordLaws.AvccRoundTrip`, `RecordLaws.ShortRecordRejected`).
* `NX_ParseHEVCCfgFromHVC1` casts the number of arrays to `char`; where that is signed, 128 arrays or
  more are taken for none (`RecordLaws.HvccRoundTrip`, `RecordLaws.ManyArraysLost`).
* `bresenham_line` misses its end point on a diagonal of one pixel (`LineLaws.Ends`,
  `LineLaws.DiagonalMissed`), and plots a pixel that is not the nearest one exactly on the lines and at the
  places that `NearestLine.AllNearestExactly` and `LineLaws.NearestExactly` name
  (`LineLaws.SecondBestPlotted`).
* `RenderBob` and `RenderLinear` write a line behind a plane with an odd number of lines for the top
  field, and miss its last line, of three or more, for the bottom field (`DeinterlacePlanes.FillsPlaneExactly`,
  `DeinterlacePlanes.OddTopOverruns`, `DeinterlacePlanes.OddBottomMissesLast`); `NX_DeInterlaceFrame` can
  pass such a chroma plane for a height that is even but not a multiple of four.

The bodies of the semaphore functions are in `apps/transcoding_example/NX_Semaphore.c` (create: lines
21-39, pend: 51-69, post: 76-89), a file that is not in UTF-8; the table below cites their declarations.

## Model

| member | source | states |
|---|---|---|
| PipelineInvariant.InitInv | apps/transcoding_example/trans_main.c:1249-1271 | the set-up state, with all buffers in imgOutQueue, satisfies the invariant |
| PipelineSteps.StepInv | apps/transcoding_example/trans_main.c:919-980 | every atomic step of every thread keeps the invariant: credit equations, single ownership, number of pictures and, until the decoder is closed, their order and content |
| PipelineSteps.ClearFlagInv | apps/transcoding_example/trans_main.c:1206 | clearing a display flag takes exactly one index out of circulation and disturbs no queued picture |
| PipelineSteps.DecodeInv | apps/transcoding_example/trans_main.c:1216-1229 | whatever the VPU does under its contract, queued pictures keep their content; a picture it makes displayable, in whatever buffer, is the new last one, and nothing else enters the history |
| PipelineSteps.ScaleKeeps | apps/transcoding_example/trans_main.c:944 | writing the output buffer disturbs no picture waiting to be encoded |
| PipelineSteps.EncodeKeeps | apps/transcoding_example/trans_main.c:1049 | the encoder consumes the oldest picture under way |
| PipelineSteps.CloseInv | apps/transcoding_example/trans_main.c:1240 | closing the decoder, whatever is found in its buffers afterwards, keeps the credit equations, the ownership of indices and buffers and the number of pictures |
| PipelineTheorems.ReachableInv | apps/transcoding_example/trans_main.c:1245-1289 | every state of every run from the set-up, under every interleaving, satisfies the invariant; in particular each queue's length is its semaphore's count plus what is pushed and not posted or pended and not popped |
| PipelineTheorems.ApplicationConstants | apps/transcoding_example/trans_main.c:1249-1263 | K = 2, N = 3, capacity 16 and maximum 3 meet the conditions of the theorems |
| PipelineTrace.AnyPictureCanCome | apps/transcoding_example/trans_main.c:1216-1229 | the VPU may return no picture, or any picture in any buffer whose display flag is clear |
| PipelineTrace.HistoryIsHanded | apps/transcoding_example/trans_main.c:1216-1237 | over every run, what is added to the decoded history is the sequence of pictures that its decode calls make displayable (`Handed`, told from the actions), none left out whatever its index |
| PipelineTrace.HandedFromTheStart | apps/transcoding_example/trans_main.c:1193-1237 | from the set-up on the decoded history is exactly that sequence |
| PipelineTrace.EachPacketDecoded | apps/transcoding_example/trans_main.c:1193-1223 | each packet that is read is decoded once before the next is read, also after NEED_STREAM |
| PipelineTrace.ClosesAtTheEnd | apps/transcoding_example/trans_main.c:1193-1197 | the decoder leaves its loop when a read finds the stream ended, once, and only then |
| PipelineTrace.ClosedExactlyAtTheEnd | apps/transcoding_example/trans_main.c:1193-1240 | from the set-up on: closing or finished if and only if a read has found the end; as many decode calls as packets read, but for one not yet decoded |
| PipelineTrace.OneFlagARead | apps/transcoding_example/trans_main.c:1200-1209 | over every run at most one display flag is cleared for each packet read |
| PipelineTrace.OneFlagBetweenReads | apps/transcoding_example/trans_main.c:1200-1209 | between two reads at most one flag is cleared |
| PipelineTheorems.EncodedInDecodeOrder | apps/transcoding_example/trans_main.c:919-980 | until the decoder is closed: picture i encoded is scale(deinterlace(.)) of picture i that the run's decode calls handed out, and those handed out, processed, = encoded ++ encoder's ++ encInputQueue ++ image thread's ++ decOutQueue ++ decoder's: none lost, duplicated or reordered |
| PipelineTheorems.PicturesConserved | apps/transcoding_example/trans_main.c:919-980 | in every run, also behind the closing, as many pictures are encoded or under way as decode calls handed out, and at most N + K + 1 are under way |
| PipelineTheorems.BuffersOwnedOnce | apps/transcoding_example/trans_main.c:1263-1271 | the N output buffers are always exactly the queued and held ones, each once; a buffer being written is not free, queued or being encoded |
| PipelineTheorems.IndicesOwnedOnce | apps/transcoding_example/trans_main.c:1231-1236 | an index is in flight, in one place, exactly while its display flag is set; decOutImage of a queued or held index is not overwritten |
| PipelineTheorems.FewOutstanding | apps/transcoding_example/trans_main.c:1200-1209 | at most K + 1 indices are outstanding although one is released per round, at most K while decoding |
| PipelineTheorems.NothingFails | apps/transcoding_example/trans_main.c:926-935 | no push meets a full queue, no pop an empty one, no post its maximum; "Have No Queue Member" is unreachable |
| PipelineTheorems.FailureMovesNothing | apps/transcoding_example/trans_main.c:926-935 | a queue or semaphore operation that failed would leave queues, counts, buffers and histories alone |
| PipelineTheorems.DeadlockFree | apps/transcoding_example/trans_main.c:922-924 | in no reachable state are all three threads blocked on their semaphores |
| PipelineTheorems.DrainedWhenQuiet | apps/transcoding_example/trans_main.c:1194-1197 | with the decoder gone and both others blocked, as many pictures are encoded as decoded, none is under way and all buffers are free |
| PipelineTheorems.WorkDecreases | apps/transcoding_example/trans_main.c:919-980 | each step of the image or encoder thread lowers a measure of the work left |
| PipelineTheorems.BoundedWithoutDecoder | apps/transcoding_example/trans_main.c:1035-1059 | between two decoder steps the other threads take a bounded number of steps and change nothing of what is encoded in the end |
| PipelineTheorems.Drains | apps/transcoding_example/trans_main.c:1240-1242 | after the decoder has finished every run is bounded, and one that cannot go on has encoded everything that was under way |
| PipelineClose.RunsOut | apps/transcoding_example/trans_main.c:1240-1242 | the same from the closing on, with any contents found in the freed buffers |
| PipelineClose.Completes | apps/transcoding_example/trans_main.c:919-980 | the threads can always go on until nothing is left |
| PipelineClose.ClosesCleanlyExactly | apps/transcoding_example/trans_main.c:1240 | every completion has encoded the whole decoded history, whatever is found in the freed buffers, if and only if at the closing decOutQueue is empty and the image thread holds no index whose picture it has not read |
| PipelineClose.WholeStreamEncoded | apps/transcoding_example/trans_main.c:1193-1242 | when all have been read at the closing, every completion has encoded every picture that the VPU handed out, processed, in order |
| PipelineClose.OnlyUnreadChange | apps/transcoding_example/trans_main.c:1240 | otherwise at most the last K pictures differ, those not read yet |
| PipelineClose.ClosedTooEarly | apps/transcoding_example/trans_main.c:1193-1242 | a run from the set-up that decodes picture 1 and encodes picture 2 |
| PipelineTheorems.CreditArrives | apps/transcoding_example/trans_main.c:1231 | a decoder waiting for a credit gets one after boundedly many steps of the others |
| Transcoder.AppData.constructor | apps/transcoding_example/trans_main.c:1249-1259 | the queues and semaphores as created |
| Transcoder.AppData.AllocateBuffers | apps/transcoding_example/trans_main.c:1262-1271 | the allocated buffers are queued as free, completing the initial state |
| Transcoder.AppData.DecoderStep | apps/transcoding_example/trans_main.c:1193-1237 | the objects' next decoder operation is the model's step, on the whole state; a decode call that makes a picture displayable adds it to the history, in whatever buffer it is |
| Transcoder.AppData.ImageStep | apps/transcoding_example/trans_main.c:919-980 | the same for the image processing thread |
| Transcoder.AppData.EncoderStep | apps/transcoding_example/trans_main.c:1035-1059 | the same for the encoding thread |
| Transcoder.Transcode | apps/transcoding_example/trans_main.c:1245-1296 | set-up and any schedule end in the model's state of that run; the decoded history is what the schedule's decode calls handed out and, until the decoder is closed, the first of those pictures, processed and in order, have been encoded |
| Queue.OneCall | apps/transcoding_example/queue.c:38-85 | contents ++ what entered = what left ++ new contents, for each call, within the capacity |
| Queue.FailsExactly | apps/transcoding_example/queue.c:38-85 | a push fails exactly for want of room, a pop or peek for want of an element, with -1 and nothing changed |
| Queue.FirstInFirstOut | apps/transcoding_example/queue.c:38-85 | the same for every sequence of calls: first in, first out, nothing lost or duplicated |
| Queue.PeekShowsNextPop | apps/transcoding_example/queue.c:72-85 | after any calls, a peek reports what the next pop hands out, and changes nothing |
| Queue.DisabledRefuses | apps/transcoding_example/queue.c:23-32 | a queue that failed to initialise stays empty and refuses every call |
| Queue.DeinitialisedForGood | apps/transcoding_example/queue.c:93-101 | in every sequence of calls, from any queue, behind a deinitialisation every push, pop and peek fails and the queue stays empty with capacity 0 |
| Queue.NxQueue.constructor | apps/transcoding_example/queue.c:23-26 | memory for a queue, zeroed |
| Queue.NxQueue.Init | apps/transcoding_example/queue.c:23-36 | an empty queue of the given capacity, or -1 and a queue that refuses everything |
| Queue.NxQueue.Push | apps/transcoding_example/queue.c:38-53 | 0 and the element appended if there is room, else -1 and nothing changed |
| Queue.NxQueue.Pop | apps/transcoding_example/queue.c:55-70 | 0 and the oldest element taken out if there is one, else -1, an unchanged destination and queue |
| Queue.NxQueue.GetNextInfo | apps/transcoding_example/queue.c:72-85 | the oldest element, which stays, or -1 and an unchanged destination |
| Queue.NxQueue.Count | apps/transcoding_example/queue.c:87-91 | the number of elements |
| Queue.NxQueue.Deinit | apps/transcoding_example/queue.c:93-101 | an empty, disabled queue of capacity 0, whatever it held |
| Semaphore.SingleStep | apps/transcoding_example/NX_Semaphore.h:27-30 | with one pending thread every critical section is a pend, a post or nothing of an ideal bounded semaphore |
| Semaphore.SingleRun | apps/transcoding_example/NX_Semaphore.h:20-30 | over every such run the count is what was posted less what was pended and never wraps |
| Semaphore.NeverWrapsExactly | apps/transcoding_example/NX_Semaphore.h:20-30 | over all runs the count never wraps if and only if nobody pends, or one thread pends, waits end only by signals and the maximum is positive |
| Semaphore.WrapsWhenShared | apps/transcoding_example/NX_Semaphore.h:29 | two pending threads: a second one can take the count before the woken one |
| Semaphore.WrapsWhenSpurious | apps/transcoding_example/NX_Semaphore.h:29 | a wait that ends without a signal takes one from nothing |
| Semaphore.WrapsWhenFull | apps/transcoding_example/NX_Semaphore.h:16-30 | a post at the maximum signals although it adds nothing, which wraps a maximum of 0 |
| Semaphore.NxSemaphore.constructor | apps/transcoding_example/NX_Semaphore.h:27 | the initial count and the maximum |
| Semaphore.NxSemaphore.Enter | apps/transcoding_example/NX_Semaphore.h:29 | takes one, or waits leaving the count alone |
| Semaphore.NxSemaphore.Resume | apps/transcoding_example/NX_Semaphore.h:29 | after the wait takes one without testing, modulo 2^32 |
| Semaphore.NxSemaphore.Post | apps/transcoding_example/NX_Semaphore.h:16-30 | adds one, or reports the overflow and adds nothing |
| AnnexB.ConformingDelimited | apps/vpu_test2/MediaExtractor.cpp:270-278 | NAL units obeying section 7.4.1 of ITU-T H.264 can be told apart in a byte stream |
| AnnexB.StartAtFirst | apps/vpu_test2/MediaExtractor.cpp:270-278 | a unit starts behind the first bytes 00 00 01 of the rest |
| AnnexB.StopAtFirst | apps/vpu_test2/MediaExtractor.cpp:270-278 | and ends at the first bytes 00 00 00 or 00 00 01, or the end (section B.2) |
| AnnexB.SplitStream | apps/vpu_test2/MediaExtractor.cpp:270-278 | splitting by section B.2 gives back exactly the units of a stream if and only if they can be told apart |
| AnnexB.StreamUnit | apps/vpu_test2/MediaExtractor.cpp:270-278 | in a stream every unit lies behind the units before it and the bytes 00 00 00 01 |
| AvcStream.PasreAVCStream | apps/vpu_test2/MediaExtractor.cpp:229-284 | result and output buffer for every packet, also on a length error, with the rest of the buffer unchanged |
| AvcStream.UndefinedExactly | apps/vpu_test2/MediaExtractor.cpp:252-255 | the conversion has no defined value if and only if lengths have four bytes and one that is read has its top bit set |
| AvcStream.ReadLength | apps/vpu_test2/MediaExtractor.cpp:242-259 | the length field as written by its width |
| PacketLaws.LengthIsBigEndian | apps/vpu_test2/MediaExtractor.cpp:242-259 | the length is the value of its 1 to 4 bytes, most significant first, and 0 for any other field size |
| AvcStream.ConvertOne | apps/vpu_test2/MediaExtractor.cpp:261-281 | one round: reject, or append a start code and the unit and move on |
| PacketLaws.ReadsBack | apps/vpu_test2/MediaExtractor.cpp:244-259 | reading a length undoes writing it, for 1 to 4 bytes |
| PacketLaws.WritesBack | apps/vpu_test2/MediaExtractor.cpp:244-259 | writing a length undoes reading it |
| PacketLaws.ConvertsPacket | apps/vpu_test2/MediaExtractor.cpp:241-283 | a packet of nonempty units, with up to two stray bytes, converts to the stream of the kept units |
| PacketLaws.OneUnitConverts | apps/vpu_test2/MediaExtractor.cpp:251-283 | a unit behind 00 00 00 nn becomes the unit behind 00 00 00 01 |
| PacketLaws.ConvertsExactly | apps/vpu_test2/MediaExtractor.cpp:241-283 | the output is the stream of all units, of size inSize + count * (4 - n), if and only if no last one-byte unit is lost |
| PacketLaws.LastUnitDropped | apps/vpu_test2/MediaExtractor.cpp:282 | a packet whose last unit is dropped |
| PacketLaws.PacketRoundTrip | apps/vpu_test2/MediaExtractor.cpp:229-284 | splitting the converter's output gives back the packet's units if and only if they can be told apart |
| PacketLaws.AcceptsExactlyPackets | apps/vpu_test2/MediaExtractor.cpp:264-268 | -1 exactly on what is not a packet: some length is zero or runs past the end; for lengths of 1 to 3 bytes on every input, for those of 4 unless a top bit is set, and always for another field size |
| ParameterSets.AvccInfo.constructor | apps/vpu_test2/MediaExtractor.cpp:60-72 | a record with its fixed number of slots |
| ParameterSets.AvccInfo.ParseSpsPpsFromAVCC | apps/vpu_test2/MediaExtractor.cpp:83-125 | 0 and the record's fields, each from its byte, and parameter sets, or -1, for every input that fits the slots; -1 for another version or fewer than 11 bytes |
| ParameterSets.AvccInfo.MakeH264StreamAVCCtoANNEXB | apps/vpu_test2/MediaExtractor.cpp:127-150 | exactly the start-code-prefixed SPS, then PPS, and their size; nothing behind them is written |
| ParameterSets.CopyNals | apps/vpu_test2/MediaExtractor.cpp:101-110 | the loop over the sets: all in their slots with their lengths, or a truncated record |
| ParameterSets.CopyOne | apps/vpu_test2/MediaExtractor.cpp:102-109 | one set |
| ParameterSets.PutNals | apps/vpu_test2/MediaExtractor.cpp:131-139 | the emitting loop |
| ParameterSets.HvccInfo.constructor | apps/vpu_test2/MediaExtractor.cpp:74-81 | a record with its fixed number of slots |
| ParameterSets.HvccInfo.ParseHEVCCfgFromHVC1 | apps/vpu_test2/MediaExtractor.cpp:152-209 | 0, the fields, each from its byte, and all units of all arrays in order, or -1, for either signedness of char |
| ParameterSets.HvccInfo.CopyArrays | apps/vpu_test2/MediaExtractor.cpp:174-205 | the outer loop over the arrays |
| ParameterSets.HvccInfo.CopyNextArray | apps/vpu_test2/MediaExtractor.cpp:175-204 | one array |
| ParameterSets.CopyArray | apps/vpu_test2/MediaExtractor.cpp:184-204 | the inner loop over the units |
| ParameterSets.CopyCfg | apps/vpu_test2/MediaExtractor.cpp:185-203 | one unit, its length checked before anything is stored |
| ParameterSets.HvccInfo.MakeHEVCStreamHVC1ANNEXB | apps/vpu_test2/MediaExtractor.cpp:211-227 | each unit once behind a start code, in order, and the size |
| RecordLaws.ParsesExactly | apps/vpu_test2/MediaExtractor.cpp:83-125 | the parser yields a record if and only if the bytes spell it |
| RecordLaws.AvccRoundTrip | apps/vpu_test2/MediaExtractor.cpp:88-124 | parsing undoes serialising if and only if there are 11 bytes, as there are with an SPS and a PPS |
| RecordLaws.AvccLayout | apps/vpu_test2/MediaExtractor.cpp:94-124 | the bytes of an avcC record with an SPS and two PPS |
| RecordLaws.ShortRecordRejected | apps/vpu_test2/MediaExtractor.cpp:88-91 | a well-formed record of seven bytes that is refused |
| RecordLaws.EmittedSetsSplit | apps/vpu_test2/MediaExtractor.cpp:127-150 | the emitted stream splits into the record's sets if and only if they can be told apart, and its size is 4 a set plus their lengths |
| RecordLaws.ArraysAreRead | apps/vpu_test2/MediaExtractor.cpp:174-205 | the nested loops read the concatenation of all arrays |
| RecordLaws.HvccRoundTrip | apps/vpu_test2/MediaExtractor.cpp:168-207 | parsing undoes serialising if and only if the array count survives its cast, or there are no units |
| RecordLaws.HvccLayout | apps/vpu_test2/MediaExtractor.cpp:168-205 | the bytes of an hvcC record with two arrays |
| RecordLaws.HvccParsesExactly | apps/vpu_test2/MediaExtractor.cpp:152-209 | the parser yields a record if and only if the bytes spell it: as many arrays as the cast count says, with its units in order |
| RecordLaws.ManyArraysMisread | apps/vpu_test2/MediaExtractor.cpp:168-174 | where char is signed, 128 arrays or more are read as none |
| RecordLaws.ManyArraysLost | apps/vpu_test2/MediaExtractor.cpp:168-174 | such records with units in them |
| RecordUse.AvccFits | apps/vpu_test2/MediaExtractor.cpp:51-72 | a record with at most three SPS and three PPS of at most 1024 bytes meets the parser's conditions |
| RecordUse.AvccSequenceInfo | apps/vpu_test2/MediaExtractor.cpp:792-799 | for the bytes of such a record, parsing and emitting leave exactly its sets behind start codes, SPS first, and return their size and the length field's width |
| RecordUse.HvccFits | apps/vpu_test2/MediaExtractor.cpp:56-81 | a record with at most six units of at most 1024 bytes meets the parser's conditions |
| RecordUse.HvccSequenceInfo | apps/vpu_test2/MediaExtractor.cpp:934-941 | for the bytes of such a record, parsing and emitting leave exactly the units of all its arrays behind start codes |
| Bresenham.BresenhamLine | apps/diag_mass/src/utils.cpp:32-66 | the drawn pixels, in order, are those of the closed form, for all octants |
| Bresenham.DrawShallow | apps/diag_mass/src/utils.cpp:42-54 | the first loop ends at the end point |
| Bresenham.StepAlongX | apps/diag_mass/src/utils.cpp:44-52 | one round of it |
| Bresenham.DrawSteep | apps/diag_mass/src/utils.cpp:55-65 | the second loop |
| Bresenham.StepAlongY | apps/diag_mass/src/utils.cpp:57-63 | one round of it |
| Bresenham.StepsUnique | apps/diag_mass/src/utils.cpp:46-50 | the number of minor steps is the one that leaves cycle in 1..major |
| Bresenham.PixelNext | apps/diag_mass/src/utils.cpp:46-51 | cycle stays in 0..major, and the next pixel carries exactly when it overflows |
| Bresenham.LastPixel | apps/diag_mass/src/utils.cpp:42-65 | the last pixel is the end point if and only if the line is not a diagonal of one pixel |
| LineLaws.ErrorExact | apps/diag_mass/src/utils.cpp:36-64 | after i major and k minor steps 2 * abs(k * major - i * minor) <= major + 1, with equality exactly where a half is lost |
| LineLaws.NearestExactly | apps/diag_mass/src/utils.cpp:36-64 | the plotted pixel is a nearest one of its column or row if and only if no half is lost there |
| LineLaws.OffIsError | apps/diag_mass/src/utils.cpp:36-41 | in every octant the distance from the line is the minor error |
| LineLaws.CloseToTheLine | apps/diag_mass/src/utils.cpp:32-66 | every plotted pixel is within the error bound of the ideal line |
| LineLaws.Connected | apps/diag_mass/src/utils.cpp:44-64 | consecutive pixels differ by at most 1 in each coordinate |
| LineLaws.OnePixelAPlace | apps/diag_mass/src/utils.cpp:42-65 | one pixel for each place along the longer axis, in order, and the last one drawn twice exactly on lines longer across |
| LineLaws.Ends | apps/diag_mass/src/utils.cpp:32-66 | the line starts at its first point, and ends at its second if and only if it is not a diagonal of one pixel |
| LineLaws.DiagonalMissed | apps/diag_mass/src/utils.cpp:55-65 | every diagonal of one pixel ends beside its end point |
| LineLaws.FirstStepOfThree | apps/diag_mass/src/utils.cpp:43-50 | distances 3 and 2: a half is lost at the first step, and one minor step would have been nearer |
| LineLaws.SecondBestPlotted | apps/diag_mass/src/utils.cpp:43-50 | the pixel plotted there, and the nearer one that is not |
| NearestLine.AllNearestExactly | apps/diag_mass/src/utils.cpp:36-64 | every pixel of a line is a nearest one if and only if the longer distance is even, the shorter one is 0, or the two have a common factor |
| NearestLine.FactorKeepsHalf | apps/diag_mass/src/utils.cpp:36-64 | with a common factor no half is lost anywhere |
| NearestLine.HalfLostSomewhere | apps/diag_mass/src/utils.cpp:36-64 | without one, on a line with an odd longer distance, a half is lost somewhere |
| PixelRows.CopyPlane | apps/vpu_test2/VpuEncTest.cpp:62-68 | contiguous rows copied to rows a stride apart; the whole buffer is stated |
| PixelRows.PaintReadsBack | apps/vpu_test2/VpuEncTest.cpp:62-68 | what is painted at a wide enough stride can be read back row by row |
| PixelRows.PaddingStays | apps/vpu_test2/VpuEncTest.cpp:62-68 | bytes between and behind the rows are not written |
| LoadImage.Load | apps/vpu_test2/VpuEncTest.cpp:56-131 | the three planes after loading, for every format, size and stride that fits; the third is left alone in the semi-planar formats |
| LoadImage.LoadChroma | apps/vpu_test2/VpuEncTest.cpp:74-129 | the chroma planes by format; the semi-planar formats leave the third plane alone, an unknown format both |
| LoadImage.InterleaveRound | apps/vpu_test2/VpuEncTest.cpp:82-87 | one round of them |
| LoadImage.InterleavePlanes | apps/vpu_test2/VpuEncTest.cpp:80-88 | the interleaving loops |
| LoadImage.WritePairs | apps/vpu_test2/VpuEncTest.cpp:82-87 | one interleaved row |
| LoadImage.InterleavedAt | apps/vpu_test2/VpuEncTest.cpp:85-86 | sample x of the first plane lands at 2x, of the second at 2x + 1 |
| LoadImage.PlanesSeparate | apps/vpu_test2/VpuEncTest.cpp:76-104 | de-interleaving recovers both planes |
| LoadImageLaws.FrameRecovered | apps/vpu_test2/VpuEncTest.cpp:56-131 | in every format the loaded memory holds exactly the source's Y, Cb and Cr planes |
| LoadImageLaws.ChromaPointers | apps/vpu_test2/VpuEncTest.cpp:70-71 | the Cb plane starts at w * h and the Cr plane w * h / 4 behind it, for any size |
| LoadImageLaws.ChromaFollows | apps/vpu_test2/VpuEncTest.cpp:70-71 | for even sizes the Cr pointer is right behind the Cb plane |
| LoadImageLaws.SourceRecovered | apps/vpu_test2/VpuEncTest.cpp:56-131 | for even sizes the loaded memory spells the whole source frame, byte for byte |
| LoadImageLaws.LumaRow | apps/vpu_test2/VpuEncTest.cpp:61-68 | luma row y lies at y * luStride |
| LoadImageLaws.LumaRows | apps/vpu_test2/VpuEncTest.cpp:65-67 | and comes from y * w in the source |
| LoadImageLaws.ChromaRows | apps/vpu_test2/VpuEncTest.cpp:70-71 | where the chroma rows of the source are |
| LoadImageLaws.PlanarRow | apps/vpu_test2/VpuEncTest.cpp:106-127 | chroma row y of each planar plane lies at y strides |
| LoadImageLaws.SemiPlanarRow | apps/vpu_test2/VpuEncTest.cpp:76-104 | Cb, Cr, Cb, Cr, ... for NV12 and Cr first for NV21, at y * cbStride |
| LoadImageLaws.PlanesLeftAlone | apps/vpu_test2/VpuEncTest.cpp:74-129 | NV12 and NV21 do not touch the Cr plane, an unknown format neither chroma plane |
| LoadImageLaws.PaddingUntouched | apps/vpu_test2/VpuEncTest.cpp:56-131 | no byte changes outside h luma rows of w bytes and h / 2 chroma rows, of 2 * (w / 2) bytes in the one plane of NV12 and NV21 and of w / 2 bytes in both planes of the planar formats |
| Deinterlace.Merge8Bit | library/src/libnxdeinterlace/merge.c:50-59 | the destination row is the byte by byte mean, nothing else is written |
| Deinterlace.RenderDiscard | library/src/libnxdeinterlace/algo_basic.c:47-71 | output line y is input line field + 2y |
| Deinterlace.RenderBob | library/src/libnxdeinterlace/algo_basic.c:77-123 | which input line each output line is, for any line count and any pitches |
| Deinterlace.BobRound | library/src/libnxdeinterlace/algo_basic.c:101-111 | one round of it |
| Deinterlace.RenderLinear | library/src/libnxdeinterlace/algo_basic.c:129-178 | which line, or mean of two lines, each output line is |
| Deinterlace.LinearRound | library/src/libnxdeinterlace/algo_basic.c:154-165 | one round of it |
| Deinterlace.RenderMean | library/src/libnxdeinterlace/algo_basic.c:184-211 | output line y is the mean of input lines 2y and 2y + 1 |
| Deinterlace.RenderBlend | library/src/libnxdeinterlace/algo_basic.c:217-248 | the first input line, then the means of neighbours, and the first line even to a plane without lines |
| DeinterlacePlanes.FillsPlaneExactly | library/src/libnxdeinterlace/algo_basic.c:86-121 | Bob and Linear overwrite every visible line of the plane, whatever it held, and nothing behind them, if and only if the number of lines is even and not 0 |
| DeinterlacePlanes.OddTopOverruns | library/src/libnxdeinterlace/algo_basic.c:115-121 | for the top field of a plane with an odd number of lines, the line behind the plane becomes the input line of that number |
| DeinterlacePlanes.OddBottomMissesLast | library/src/libnxdeinterlace/algo_basic.c:99-113 | for the bottom field of one with three or more, the last line keeps its bytes |
| DeinterlacePlanes.PlaneLine | library/src/libnxdeinterlace/algo_basic.c:86-121 | line y of the plane is output line y, for any pitch |
| DeinterlacePixels.DiscardPlane | library/src/libnxdeinterlace/algo_basic.c:47-71 | every pixel of output line y is that of input line field + 2y |
| DeinterlacePixels.BobPlane | library/src/libnxdeinterlace/algo_basic.c:77-123 | every pixel is that of input line y, if it is of the field or an outermost line, or else of the line above |
| DeinterlacePixels.LinearPlane | library/src/libnxdeinterlace/algo_basic.c:129-178 | the same, with the floor of the mean of the lines above and below in place of the line above |
| DeinterlacePixels.MeanPlane | library/src/libnxdeinterlace/algo_basic.c:184-211 | every pixel is the floor of the mean of those of input lines 2y and 2y + 1 |
| DeinterlacePixels.BlendFirstLine | library/src/libnxdeinterlace/algo_basic.c:233-235 | the first output line is the first input line |
| DeinterlacePixels.BlendPlane | library/src/libnxdeinterlace/algo_basic.c:217-248 | the whole plane: line 0 is input line 0, every pixel of line y the floor of the mean of those of lines y - 1 and y |
| DeinterlaceLaws.MixBetween | library/src/libnxdeinterlace/merge.c:57-58 | every merged byte is the floor of the mean and lies between its two inputs, in either order |
| DeinterlaceLaws.KeepsField | library/src/libnxdeinterlace/algo_basic.c:77-178 | Bob and Linear keep every line of the chosen field and the outermost lines |
| DeinterlaceLaws.Absorbs | library/src/libnxdeinterlace/algo_basic.c:77-178 | Bob or Linear after Bob or Linear is the second one alone; each is idempotent |
| DeinterlaceLaws.DiscardUndoes | library/src/libnxdeinterlace/algo_basic.c:47-178 | Discard after Bob or Linear of the same field is Discard |
| DeinterlaceLaws.MeanAfterBob | library/src/libnxdeinterlace/algo_basic.c:77-211 | Mean after Bob of the top field is Discard of the top field except for the last line, which is stated |
| DeinterlaceLaws.BlendAfterBob | library/src/libnxdeinterlace/algo_basic.c:77-248 | Blend after Bob is Linear one line further down |
| DeinterlaceLaws.RenderedReadsBack | library/src/libnxdeinterlace/algo_basic.c:86-121 | the rendered lines can be read out of the output plane |
| DeinterlacePlanes.AgainIsInput | library/src/libnxdeinterlace/algo_basic.c:86-121 | the output plane is input for a second renderer of that pitch; the visible parts of its lines are the rendered lines, and with a pitch equal to the width the lines are |
| DeinterlacePlanes.RenderingCrops | library/src/libnxdeinterlace/algo_basic.c:47-248 | what a renderer makes of the visible part of its input does not depend on the rest |
| DeinterlacePlanes.SecondRenderer | library/src/libnxdeinterlace/algo_basic.c:47-248 | the visible lines a second renderer makes of that plane are those it would have made of the rendered lines |
| DeinterlacePlanes.DiscardUndoesOnPlanes | library/src/libnxdeinterlace/algo_basic.c:47-178 | Discard of the plane that Bob or Linear wrote shows the lines that Discard at once would have shown, for any pitches |
| DeinterlacePlanes.AbsorbsOnPlanes | library/src/libnxdeinterlace/algo_basic.c:77-178 | Bob or Linear of such a plane likewise |
| DebugWindow.ShowsLatest | apps/diagnostic/inc/debug_window.h:53-104 | after any sequence of messages the window shows the newest ones, in order, as many as fit, each as `CutKeeps` says |
| DebugWindow.CutKeeps | apps/diagnostic/inc/debug_window.h:58-62 | a message of at most 255 characters is kept whole, of a longer one the first 255 |
| DebugWindow.ShowsMessages | apps/diagnostic/inc/debug_window.h:53-104 | messages of at most 255 characters are shown as they are: all while there is room, and then the last ones |
| DebugWindow.ShowsEachMessage | apps/diagnostic/inc/debug_window.h:53-104 | for all messages: which one line i shows, and how much of it |
| DebugWindow.LatestOfLatest | apps/diagnostic/inc/debug_window.h:64-71 | overwriting the oldest line early does not change which messages are the newest |
| DebugWindow.Window.constructor | apps/diagnostic/inc/debug_window.h:22-43 | an empty window, for any number of lines that fit |
| DebugWindow.Window.ReadyExactly | apps/diagnostic/inc/debug_window.h:57-71 | a message finds a buffer if and only if a line fits and either at most 128 do or fewer than 128 have been shown |
| DebugWindow.Window.StoreLine | apps/diagnostic/inc/debug_window.h:55-71 | the message, or its first 255 characters, is added behind the others, in place of the oldest when the ring is full |
| DebugWindow.Window.DrawMessage | apps/diagnostic/inc/debug_window.h:53-73 | the same, so the ring holds the newest messages, and the screen shows exactly those |
| DebugWindow.Window.Clear | apps/diagnostic/inc/debug_window.h:75-80 | an empty window |
| DebugWindow.Window.UpdateScreen | apps/diagnostic/inc/debug_window.h:84-104 | line i of the ring, counted from the oldest, is drawn at i line heights |
| Rounding.DivPow2Truncates | library/include/theoraparser/internal.h:102-107 | the result is q if and only if q is the dividend over 2^shift, cut off toward zero |
| Rounding.NamedDivisions | library/include/theoraparser/internal.h:108-115 | OC_DIV2, OC_DIV8, OC_DIV16 and OC_DIV2_16 truncate toward zero, dividing by 2, 8, 16 and 65536 |
| Rounding.DivRoundPow2RoundsAway | library/include/theoraparser/internal.h:116-121 | the result is q if and only if q is nearest, ties away from zero |
| Rounding.DivPow2ReRoundsEven | library/include/theoraparser/internal.h:124-126 | the result is q if and only if q is nearest, ties to even |
| Rounding.Div2ReRoundsEven | library/include/theoraparser/internal.h:122-123 | the same for division by 2 |
| Rounding.Div2ReIsDivPow2Re | library/include/theoraparser/internal.h:122-126 | the two forms agree for one bit |
| Rounding.HalvesRounded | library/include/theoraparser/internal.h:102-126 | what each macro makes of k and a half and of its negative |
| Rounding.DivPow2Symmetric | library/include/theoraparser/internal.h:106-107 | negating the dividend negates the result |
| Rounding.DivRoundPow2Symmetric | library/include/theoraparser/internal.h:120-121 | the same for rounding away from zero |
| Rounding.DivPow2ReSymmetric | library/include/theoraparser/internal.h:125-126 | the same for rounding to even |

## Left out

- FFmpeg, VPU, scaler, display, ion, V4L2 and SDL calls: foreign or pure I/O; in the pipeline they are an arbitrary source of pictures and opaque functions.
- The decoder's initialisation loop (key frame search, sequence headers) before its main loop, and the display queueing inside the image processing thread: device state that no invariant of the pipeline needs.
- Weak memory effects: the steps are sequentially consistent, as the mutexes make them; `NX_GetQueueCnt` reads its count without the mutex.
- PipelineTheorems.EncodedInDecodeOrder: not stated behind the closing of the decoder, where it is false; `PipelineClose` says what holds there. The same is true of Transcoder.Transcode.
- ParameterSets.AvccInfo.ParseSpsPpsFromAVCC: what a rejected record leaves behind in the fields is not stated, and an input with more sets or longer sets than the record's slots is a precondition. A slot holds a NAL unit as a sequence, not as 1024 bytes of which some are stale.
- ParameterSets.HvccInfo.ParseHEVCCfgFromHVC1: the same; also a record of 7 to 22 bytes, or with an array header behind its end, where the code reads behind the record, is a precondition.
- Semaphore.NxSemaphore.Resume: `pthread_cond_wait` is taken not to fail, so NX_ESEM is not returned; creating and destroying a semaphore are not modelled beyond its initial count.
- AvcStream.PasreAVCStream: a four-byte length with its top bit set, whose shift is undefined in C, and an output buffer that is too small, are preconditions; the parameter outBufSize is unused in the code.
- Bresenham.BresenhamLine: pixels are a trace of `Draw_pixel` calls, and the end points are less than 2^30 apart in each coordinate, so that the remainder does not overflow an int.
- LoadImage.Load: source and planes are separate buffers, and w * h does not overflow an int; the address arithmetic is in offsets.
- Deinterlace.RenderBob: one plane at a time; the loop over the planes repeats it on separate buffers. The output pitch is positive, and the output has room for every line written, also the one too many of an odd plane. The same holds for the other renderers.
- Rounding.DivPow2Truncates: integers are unbounded, so dividends so close to the ends of int that an intermediate sum overflows are not treated; the same holds for the other macros.
- The SIMD and assembly merges (`pavgb` rounds up, the C form down), `Merge16BitGeneric` and the other deinterlacing modes.
- The second copies of the record parsers (trans_main.c), queues and semaphores in the other applications: the same logic.
- DebugWindow.Window.DrawMessage: a line is a string, so the unwritten terminator behind a message cut to 255 characters is taken to be there; a message needs a buffer to go to, which `ReadyExactly` is about; fonts and drawing are a trace of strings.
- `isIdrFrame`, the codec tables, header writers, floating point code and all windows: lookups, heuristics and straight-line code.
