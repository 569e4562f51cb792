/** The mock text-to-video streaming server: which prompt each synthetic frame
    is made from, how frames are grouped into blocks and chunks, and the
    messages the `/ws/generate` socket sends. A frame is the token
    `Frame(index, segment, prompt)`; its pixels and JPEG encoding are not
    modelled. */
module MockWebsocket {
  import opened Common

  const NUM_OUTPUT_FRAMES: nat := 120
  const NUM_FRAME_PER_BLOCK: nat := 6
  const DEFAULT_BLOCKS_PER_CHUNK: int := 5
  const DEFAULT_SWITCH_FRAME_INDICES: seq<int> := [24, 48, 72, 96]

  // ---------------------------------------------------------------------------
  // Segment lookup
  // ---------------------------------------------------------------------------

  /** `_segment_for_frame`: the position of the first boundary strictly
      greater than `frameIdx`, or the number of boundaries if there is none. */
  function SegmentForFrame(frameIdx: int, switches: seq<int>): (seg: nat)
    ensures seg <= |switches|
    ensures forall j :: 0 <= j < seg ==> switches[j] <= frameIdx
    ensures seg < |switches| ==> frameIdx < switches[seg]
  {
    if switches == [] then 0
    else if frameIdx < switches[0] then 0
    else 1 + SegmentForFrame(frameIdx, switches[1..])
  }

  predicate StrictlyIncreasing(s: seq<int>)
  {
    forall i, j :: 0 <= i < j < |s| ==> s[i] < s[j]
  }

  /** The number of boundaries at or below `frameIdx`. */
  function BoundariesPassed(frameIdx: int, switches: seq<int>): (n: nat)
    ensures n <= |switches|
  {
    if switches == [] then 0
    else (if switches[0] <= frameIdx then 1 else 0) + BoundariesPassed(frameIdx, switches[1..])
  }

  /** Later frames never belong to an earlier segment, whatever the table. */
  lemma SegmentMonotone(f1: int, f2: int, switches: seq<int>)
    requires f1 <= f2
    ensures SegmentForFrame(f1, switches) <= SegmentForFrame(f2, switches)
  {
  }

  /** With a strictly increasing table, frames below the first boundary are in
      segment 0 and frames in `[b[k-1], b[k])` are in segment k. */
  lemma SegmentOfInterval(frameIdx: int, switches: seq<int>, k: nat)
    requires StrictlyIncreasing(switches)
    requires k <= |switches|
    requires k == 0 || switches[k - 1] <= frameIdx
    requires k == |switches| || frameIdx < switches[k]
    ensures SegmentForFrame(frameIdx, switches) == k
  {
  }

  lemma {:induction false} NoneBelow(frameIdx: int, switches: seq<int>)
    requires forall j :: 0 <= j < |switches| ==> frameIdx < switches[j]
    ensures BoundariesPassed(frameIdx, switches) == 0
  {
    if switches != [] {
      NoneBelow(frameIdx, switches[1..]);
    }
  }

  /** With a strictly increasing table the segment is the number of
      boundaries already passed. */
  lemma {:induction false} SegmentCountsPassedBoundaries(frameIdx: int, switches: seq<int>)
    requires StrictlyIncreasing(switches)
    ensures SegmentForFrame(frameIdx, switches) == BoundariesPassed(frameIdx, switches)
  {
    if switches != [] {
      var rest := switches[1..];
      assert StrictlyIncreasing(rest) by {
        forall i, j | 0 <= i < j < |rest| ensures rest[i] < rest[j] {
          assert rest[i] == switches[i + 1] && rest[j] == switches[j + 1];
        }
      }
      if frameIdx < switches[0] {
        forall j | 0 <= j < |rest| ensures frameIdx < rest[j] {
          assert rest[j] == switches[j + 1];
        }
        NoneBelow(frameIdx, rest);
      } else {
        SegmentCountsPassedBoundaries(frameIdx, rest);
      }
    }
  }

  /** For an unsorted table the two differ: frame 20 with table [50, 10] is
      in segment 0, because the first boundary above it comes first, yet it
      has passed the boundary 10. */
  lemma UnsortedTableDiffers()
    ensures SegmentForFrame(20, [50, 10]) == 0
    ensures BoundariesPassed(20, [50, 10]) == 1
  {
  }

  /** The default table splits the 120 frames at 24, 48, 72 and 96. */
  lemma DefaultSegments()
    ensures SegmentForFrame(0, DEFAULT_SWITCH_FRAME_INDICES) == 0
    ensures SegmentForFrame(23, DEFAULT_SWITCH_FRAME_INDICES) == 0
    ensures SegmentForFrame(24, DEFAULT_SWITCH_FRAME_INDICES) == 1
    ensures SegmentForFrame(95, DEFAULT_SWITCH_FRAME_INDICES) == 3
    ensures SegmentForFrame(96, DEFAULT_SWITCH_FRAME_INDICES) == 4
    ensures SegmentForFrame(119, DEFAULT_SWITCH_FRAME_INDICES) == 4
  {
  }

  // ---------------------------------------------------------------------------
  // Prompts
  // ---------------------------------------------------------------------------

  /** Python's `s[:stop]`; a negative `stop` counts from the end and a
      negative `stop` before the beginning (`-stop > |s|`) gives the empty list. */
  function PyPrefix<T>(s: seq<T>, stop: int): (r: seq<T>)
    ensures |r| <= |s| && r == s[..|r|]
    ensures 0 <= stop ==> |r| == if stop <= |s| then stop else |s|
    ensures stop < 0 ==> |r| == if -stop <= |s| then |s| + stop else 0
  {
    if 0 <= stop then s[..if stop <= |s| then stop else |s|]
    else s[..if -stop <= |s| then |s| + stop else 0]
  }

  /** The reprompt splice: non-empty `reprompts` replace the tail of
      `prompts`; absent or empty ones leave it alone. */
  function FinalPrompts(prompts: seq<string>, reprompts: Option<seq<string>>): (r: seq<string>)
    ensures reprompts.Some? && |reprompts.value| > 0 ==>
      && |r| == (if |reprompts.value| <= |prompts| then |prompts| else |reprompts.value|)
      && r[|r| - |reprompts.value|..] == reprompts.value
      && r[..|r| - |reprompts.value|] == prompts[..|r| - |reprompts.value|]
    ensures reprompts.None? || reprompts.value == [] ==> r == prompts
  {
    if reprompts.Some? && |reprompts.value| > 0 then
      PyPrefix(prompts, -|reprompts.value|) + reprompts.value
    else
      prompts
  }

  /** What the splice promises: with k reprompts and k <= len(prompts), the
      list keeps its length and its first len-k prompts and ends with the
      reprompts; longer reprompts replace the whole list. */
  lemma FinalPromptsSplice(prompts: seq<string>, reprompts: Option<seq<string>>)
    ensures reprompts.None? || reprompts.value == [] ==> FinalPrompts(prompts, reprompts) == prompts
    ensures reprompts.Some? && 0 < |reprompts.value| <= |prompts| ==>
      var r, k := FinalPrompts(prompts, reprompts), |reprompts.value|;
      |r| == |prompts| && r[..|prompts| - k] == prompts[..|prompts| - k] && r[|prompts| - k..] == reprompts.value
    ensures reprompts.Some? && |reprompts.value| > |prompts| ==>
      FinalPrompts(prompts, reprompts) == reprompts.value
  {
    if reprompts.Some? && 0 < |reprompts.value| <= |prompts| {
      var r, k := FinalPrompts(prompts, reprompts), |reprompts.value|;
      var head := PyPrefix(prompts, -k);
      assert |head| == |prompts| - k;
      assert r[..|prompts| - k] == head;
      assert r[|prompts| - k..] == reprompts.value;
    }
  }

  /** The final prompt list is empty only when there are neither prompts nor reprompts. */
  lemma FinalPromptsEmpty(prompts: seq<string>, reprompts: Option<seq<string>>)
    ensures FinalPrompts(prompts, reprompts) == [] <==>
      prompts == [] && (reprompts.None? || reprompts.value == [])
  {
    if reprompts.Some? && |reprompts.value| > 0 {
      assert FinalPrompts(prompts, reprompts)[|FinalPrompts(prompts, reprompts)| - 1] == reprompts.value[|reprompts.value| - 1];
    }
  }

  /** `min(seg_idx, len(final_prompts) - 1)`. */
  function PromptIndex(seg: nat, count: nat): (i: int)
    ensures i <= seg && i <= count - 1 && (i == seg || i == count - 1)
    ensures count > 0 ==> 0 <= i < count
  {
    if seg < count - 1 then seg else count - 1
  }

  // ---------------------------------------------------------------------------
  // The frame schedule
  // ---------------------------------------------------------------------------

  datatype Frame = Frame(index: nat, segment: nat, prompt: string)

  /** One yield of `mock_chunk_inference`: the frames and the `is_final` flag. */
  datatype Chunk = Chunk(frames: seq<Frame>, isFinal: bool)

  function BlockStart(i: nat): nat
  {
    i / NUM_FRAME_PER_BLOCK * NUM_FRAME_PER_BLOCK
  }

  lemma BlockStartOf(block: nat, f: nat)
    requires f < NUM_FRAME_PER_BLOCK
    ensures BlockStart(block * NUM_FRAME_PER_BLOCK + f) == block * NUM_FRAME_PER_BLOCK
  {
  }

  /** Frame `i` is drawn for the segment of the first frame of its block, from
      the prompt of that segment (the last prompt when segments outnumber prompts). */
  function ScheduledFrame(i: nat, prompts: seq<string>, switches: seq<int>): (r: Frame)
    requires prompts != []
    ensures r.index == i && r.segment <= |switches|
    ensures r.segment == SegmentForFrame(BlockStart(i), switches)
    ensures r.segment < |prompts| ==> r.prompt == prompts[r.segment]
    ensures r.segment >= |prompts| ==> r.prompt == prompts[|prompts| - 1]
  {
    var seg := SegmentForFrame(BlockStart(i), switches);
    Frame(i, seg, prompts[PromptIndex(seg, |prompts|)])
  }

  /** The reference frame sequence: all frames, in index order. */
  function Schedule(prompts: seq<string>, switches: seq<int>): (r: seq<Frame>)
    requires prompts != []
  {
    seq(NUM_OUTPUT_FRAMES, i requires 0 <= i => ScheduledFrame(i, prompts, switches))
  }

  /** The frames come in index order, 0 to 119, each from one of the final
      prompts. */
  lemma ScheduleIndices(prompts: seq<string>, switches: seq<int>)
    requires prompts != []
    ensures var r := Schedule(prompts, switches);
      && |r| == NUM_OUTPUT_FRAMES
      && (forall i :: 0 <= i < |r| ==> r[i].index == i && r[i].prompt in prompts)
  {
  }

  /** All frames of one block share the segment and the prompt of the block's
      first frame. */
  lemma ScheduleBlocksShareSegment(prompts: seq<string>, switches: seq<int>)
    requires prompts != []
    ensures var r := Schedule(prompts, switches);
      forall i :: 0 <= i < |r| ==>
        BlockStart(i) <= i && r[i].segment == r[BlockStart(i)].segment && r[i].prompt == r[BlockStart(i)].prompt
  {
    var r := Schedule(prompts, switches);
    forall i | 0 <= i < |r|
      ensures BlockStart(i) <= i
      ensures r[i].segment == r[BlockStart(i)].segment && r[i].prompt == r[BlockStart(i)].prompt
    {
      BlockStartOf(i / NUM_FRAME_PER_BLOCK, i % NUM_FRAME_PER_BLOCK);
      BlockStartOf(i / NUM_FRAME_PER_BLOCK, 0);
    }
  }

  /** Segments never decrease along the schedule. */
  lemma ScheduleSegmentsMonotone(prompts: seq<string>, switches: seq<int>, i: nat, j: nat)
    requires prompts != []
    requires i <= j < NUM_OUTPUT_FRAMES
    ensures Schedule(prompts, switches)[i].segment <= Schedule(prompts, switches)[j].segment
  {
    assert BlockStart(i) <= BlockStart(j);
    SegmentMonotone(BlockStart(i), BlockStart(j), switches);
  }

  function Flatten(chunks: seq<Chunk>): seq<Frame>
  {
    if chunks == [] then [] else Flatten(chunks[..|chunks| - 1]) + chunks[|chunks| - 1].frames
  }

  lemma FlattenSnoc(chunks: seq<Chunk>, c: Chunk)
    ensures Flatten(chunks + [c]) == Flatten(chunks) + c.frames
  {
    assert (chunks + [c])[..|chunks|] == chunks;
  }

  /** The chunking `mock_chunk_inference` promises: at least one chunk, none
      empty, exactly the last one final; with `blocksPerChunk >= 1` every
      other chunk holds `blocksPerChunk` whole blocks and the last at most
      that many; with `blocksPerChunk < 1` every block is a chunk of its own. */
  predicate WellChunked(chunks: seq<Chunk>, blocksPerChunk: int)
  {
    && |chunks| >= 1
    && (forall c :: 0 <= c < |chunks| ==> (chunks[c].isFinal <==> c == |chunks| - 1))
    && (forall c :: 0 <= c < |chunks| ==> 0 < |chunks[c].frames|)
    && (blocksPerChunk >= 1 ==> forall c :: 0 <= c < |chunks| - 1 ==>
          |chunks[c].frames| == blocksPerChunk * NUM_FRAME_PER_BLOCK)
    && (blocksPerChunk >= 1 ==> |chunks[|chunks| - 1].frames| <= blocksPerChunk * NUM_FRAME_PER_BLOCK)
    && (blocksPerChunk < 1 ==> forall c :: 0 <= c < |chunks| ==> |chunks[c].frames| == NUM_FRAME_PER_BLOCK)
  }

  // ---------------------------------------------------------------------------
  // mock_chunk_inference
  // ---------------------------------------------------------------------------

  /** The frames of the block starting at `start`, cut off at the last frame. */
  function BlockFrames(start: nat, seg: nat, prompt: string): (r: seq<Frame>)
  {
    var n := if start + NUM_FRAME_PER_BLOCK <= NUM_OUTPUT_FRAMES then NUM_FRAME_PER_BLOCK
             else if start <= NUM_OUTPUT_FRAMES then NUM_OUTPUT_FRAMES - start else 0;
    seq(n, f requires 0 <= f => Frame(start + f, seg, prompt))
  }

  /** Block `b` of the schedule is made whole by the inner loop. */
  lemma ScheduleBlock(prompts: seq<string>, switches: seq<int>, b: nat)
    requires prompts != []
    requires b < NUM_OUTPUT_FRAMES / NUM_FRAME_PER_BLOCK
    ensures var start := b * NUM_FRAME_PER_BLOCK;
      var seg := SegmentForFrame(start, switches);
      Schedule(prompts, switches)[start..start + NUM_FRAME_PER_BLOCK]
        == BlockFrames(start, seg, prompts[PromptIndex(seg, |prompts|)])
  {
    var start := b * NUM_FRAME_PER_BLOCK;
    var seg := SegmentForFrame(start, switches);
    var block := Schedule(prompts, switches)[start..start + NUM_FRAME_PER_BLOCK];
    forall f | 0 <= f < NUM_FRAME_PER_BLOCK
      ensures block[f] == BlockFrames(start, seg, prompts[PromptIndex(seg, |prompts|)])[f]
    {
      BlockStartOf(b, f);
    }
  }

  /** The schedule up to the end of block `b` is the schedule up to its
      start followed by the block. */
  lemma SchedulePrefixStep(prompts: seq<string>, switches: seq<int>, b: nat)
    requires prompts != []
    requires b < NUM_OUTPUT_FRAMES / NUM_FRAME_PER_BLOCK
    ensures var start := b * NUM_FRAME_PER_BLOCK;
      var seg := SegmentForFrame(start, switches);
      Schedule(prompts, switches)[..start + NUM_FRAME_PER_BLOCK]
        == Schedule(prompts, switches)[..start] + BlockFrames(start, seg, prompts[PromptIndex(seg, |prompts|)])
  {
    var start := b * NUM_FRAME_PER_BLOCK;
    var s := Schedule(prompts, switches);
    ScheduleBlock(prompts, switches, b);
    assert s[..start + NUM_FRAME_PER_BLOCK] == s[..start] + s[start..start + NUM_FRAME_PER_BLOCK];
  }

  /** A prefix `done + before` of `s` grows by `block` when `s` does. */
  lemma ExtendPrefix<T>(done: seq<T>, before: seq<T>, block: seq<T>, s: seq<T>, n: nat, m: nat)
    requires n <= m <= |s|
    requires done + before == s[..n]
    requires s[..m] == s[..n] + block
    ensures done + (before + block) == s[..m]
  {
    assert done + (before + block) == (done + before) + block;
  }

  /** The inner `for f in range(NUM_FRAME_PER_BLOCK)` loop: the frames of one
      block appended to the chunk buffer. */
  method GenerateBlock(chunkBuffer: seq<Frame>, currentStart: nat, segIdx: nat, prompt: string)
    returns (buffer: seq<Frame>)
    ensures buffer == chunkBuffer + BlockFrames(currentStart, segIdx, prompt)
  {
    buffer := chunkBuffer;
    var f := 0;
    while f < NUM_FRAME_PER_BLOCK
      invariant 0 <= f <= NUM_FRAME_PER_BLOCK
      invariant currentStart + f <= NUM_OUTPUT_FRAMES || f == 0
      invariant buffer == chunkBuffer + BlockFrames(currentStart, segIdx, prompt)[..if currentStart + f <= NUM_OUTPUT_FRAMES then f else 0]
    {
      var frameIdx := currentStart + f;
      if frameIdx >= NUM_OUTPUT_FRAMES {
        break;
      }
      buffer := buffer + [Frame(frameIdx, segIdx, prompt)];
      f := f + 1;
    }
    assert buffer == chunkBuffer + BlockFrames(currentStart, segIdx, prompt);
  }

  /** The chunks yielded so far: none empty, each whole blocks of the size
      `blocksPerChunk` asks for, and the last one final exactly when the
      generator is `complete`. */
  ghost predicate ChunksSoFar(chunks: seq<Chunk>, blocksPerChunk: int, complete: bool)
  {
    && (complete ==> |chunks| >= 1)
    && (forall c :: 0 <= c < |chunks| ==> (chunks[c].isFinal <==> complete && c == |chunks| - 1))
    && (forall c :: 0 <= c < |chunks| ==> 0 < |chunks[c].frames|)
    && (blocksPerChunk >= 1 ==> forall c :: 0 <= c < |chunks| ==>
          |chunks[c].frames| <= blocksPerChunk * NUM_FRAME_PER_BLOCK
          && (!chunks[c].isFinal ==> |chunks[c].frames| == blocksPerChunk * NUM_FRAME_PER_BLOCK))
    && (blocksPerChunk < 1 ==> forall c :: 0 <= c < |chunks| ==> |chunks[c].frames| == NUM_FRAME_PER_BLOCK)
  }

  /** A flush hands on `pending` whole blocks: exactly `blocksPerChunk` of
      them unless it is the final flush. */
  lemma Flush(chunks: seq<Chunk>, blocksPerChunk: int, buffer: seq<Frame>, pending: nat, isFinal: bool)
    requires ChunksSoFar(chunks, blocksPerChunk, false)
    requires 1 <= pending && |buffer| == pending * NUM_FRAME_PER_BLOCK
    requires blocksPerChunk >= 1 ==> pending <= blocksPerChunk
    requires blocksPerChunk < 1 ==> pending == 1
    requires !isFinal ==> |buffer| >= blocksPerChunk * NUM_FRAME_PER_BLOCK
    ensures ChunksSoFar(chunks + [Chunk(buffer, isFinal)], blocksPerChunk, isFinal)
  {
  }

  lemma ChunksComplete(chunks: seq<Chunk>, blocksPerChunk: int)
    requires ChunksSoFar(chunks, blocksPerChunk, true)
    ensures WellChunked(chunks, blocksPerChunk)
  {
  }

  /** `yield chunk_buffer, is_final` followed by emptying
      the buffer: no frame is lost or repeated. */
  method YieldChunk(chunks: seq<Chunk>, chunkBuffer: seq<Frame>, isFinal: bool)
    returns (chunks': seq<Chunk>, buffer': seq<Frame>)
    ensures chunks' == chunks + [Chunk(chunkBuffer, isFinal)] && buffer' == []
    ensures Flatten(chunks') + buffer' == Flatten(chunks) + chunkBuffer
  {
    FlattenSnoc(chunks, Chunk(chunkBuffer, isFinal));
    chunks', buffer' := chunks + [Chunk(chunkBuffer, isFinal)], [];
  }

  /** `mock_chunk_inference`: the chunks it yields, in order, and the message
      of the exception it raises, if any. The only exception is the
      IndexError of an empty final prompt list, raised in the first block
      before anything is yielded. */
  method MockChunkInference(prompts: seq<string>, switches: seq<int>, blocksPerChunk: int,
                            reprompts: Option<seq<string>>)
    returns (chunks: seq<Chunk>, raised: Option<string>)
    ensures raised.Some? <==> FinalPrompts(prompts, reprompts) == []
    ensures raised.Some? ==> chunks == [] && raised.value == IndexErrorMessage
    ensures raised.None? ==> WellChunked(chunks, blocksPerChunk)
    ensures raised.None? ==> Flatten(chunks) == Schedule(FinalPrompts(prompts, reprompts), switches)
  {
    var finalPrompts := FinalPrompts(prompts, reprompts);
    var numBlocks := NUM_OUTPUT_FRAMES / NUM_FRAME_PER_BLOCK;
    var framesGenerated := 0;
    var chunkBuffer: seq<Frame> := [];
    ghost var pending: nat := 0;  // whole blocks in chunkBuffer
    chunks, raised := [], None;

    var blockIdx := 0;
    while blockIdx < numBlocks
      invariant 0 <= blockIdx <= numBlocks
      invariant finalPrompts == [] ==> blockIdx == 0 && chunks == []
      invariant framesGenerated == blockIdx * NUM_FRAME_PER_BLOCK
      invariant |chunkBuffer| == pending * NUM_FRAME_PER_BLOCK
      invariant blocksPerChunk >= 1 ==> pending < blocksPerChunk
      invariant blocksPerChunk < 1 || blockIdx == numBlocks ==> pending == 0
      invariant ChunksSoFar(chunks, blocksPerChunk, blockIdx == numBlocks)
      invariant finalPrompts != [] ==>
        Flatten(chunks) + chunkBuffer == Schedule(finalPrompts, switches)[..framesGenerated]
    {
      var currentStart := blockIdx * NUM_FRAME_PER_BLOCK;
      var segIdx := SegmentForFrame(currentStart, switches);
      var lookup := PyIndex(finalPrompts, PromptIndex(segIdx, |finalPrompts|));
      if lookup.Failure? {
        raised := Some(lookup.error);
        return;
      }
      var prompt := lookup.value;

      ghost var before := chunkBuffer;
      chunkBuffer := GenerateBlock(chunkBuffer, currentStart, segIdx, prompt);
      SchedulePrefixStep(finalPrompts, switches, blockIdx);
      ExtendPrefix(Flatten(chunks), before, BlockFrames(currentStart, segIdx, prompt),
                   Schedule(finalPrompts, switches), framesGenerated, framesGenerated + NUM_FRAME_PER_BLOCK);
      framesGenerated := framesGenerated + NUM_FRAME_PER_BLOCK;
      pending := pending + 1;

      var isFinal := blockIdx == numBlocks - 1;
      if |chunkBuffer| >= blocksPerChunk * NUM_FRAME_PER_BLOCK || isFinal {
        Flush(chunks, blocksPerChunk, chunkBuffer, pending, isFinal);
        chunks, chunkBuffer := YieldChunk(chunks, chunkBuffer, isFinal);
        pending := 0;
      }
      blockIdx := blockIdx + 1;
    }
    ChunksComplete(chunks, blocksPerChunk);
    assert Schedule(finalPrompts, switches)[..framesGenerated] == Schedule(finalPrompts, switches);
  }

  // ---------------------------------------------------------------------------
  // ws_generate
  // ---------------------------------------------------------------------------

  /** The init payload; `None` is a field the client left out (for
      `reprompts`, also an explicit null). */
  datatype InitMessage = InitMessage(
    prompts: Option<seq<string>>,
    blocksPerChunk: Option<int>,
    switchFrameIndices: Option<seq<int>>,
    reprompts: Option<seq<string>>)

  datatype StreamConfig = StreamConfig(
    prompts: seq<string>,
    blocksPerChunk: int,
    switchFrameIndices: seq<int>,
    reprompts: Option<seq<string>>)

  /** The message of the KeyError raised by `init["prompts"]`. */
  const MissingPromptsMessage: string := "'prompts'"

  /** Reading the init payload: `prompts` is required, the other fields
      have defaults. */
  function ReadInit(init: InitMessage): (r: Result<StreamConfig, string>)
    ensures r.Failure? <==> init.prompts.None?
    ensures r.Failure? ==> r.error == MissingPromptsMessage
    ensures r.Success? ==> r.value.prompts == init.prompts.value
    ensures r.Success? ==> (r.value.blocksPerChunk ==
      if init.blocksPerChunk.None? then DEFAULT_BLOCKS_PER_CHUNK else init.blocksPerChunk.value)
    ensures r.Success? ==> (r.value.switchFrameIndices ==
      if init.switchFrameIndices.None? then DEFAULT_SWITCH_FRAME_INDICES else init.switchFrameIndices.value)
    ensures r.Success? ==> r.value.reprompts == init.reprompts
  {
    match init.prompts
    case None => Failure(MissingPromptsMessage)
    case Some(prompts) =>
      Success(StreamConfig(
        prompts,
        match init.blocksPerChunk case Some(n) => n case None => DEFAULT_BLOCKS_PER_CHUNK,
        match init.switchFrameIndices case Some(s) => s case None => DEFAULT_SWITCH_FRAME_INDICES,
        init.reprompts))
  }

  /** A JSON message the server sends on the socket. */
  datatype WsMessage =
    | FrameMessage(frameIndex: nat, frame: Frame)
    | DoneMessage(totalFrames: nat)
    | ErrorMessage(message: string)

  /** Frame messages for `frames`, numbered from `start`. */
  function FrameMessagesFrom(start: nat, frames: seq<Frame>): (r: seq<WsMessage>)
  {
    seq(|frames|, i requires 0 <= i < |frames| => FrameMessage(start + i, frames[i]))
  }

  /** Frame messages numbered consecutively from 0. */
  function FrameMessages(frames: seq<Frame>): (r: seq<WsMessage>)
    ensures |r| == |frames|
    ensures forall i :: 0 <= i < |r| ==> r[i] == FrameMessage(i, frames[i])
  {
    FrameMessagesFrom(0, frames)
  }

  lemma FrameMessagesAppend(start: nat, a: seq<Frame>, b: seq<Frame>)
    ensures FrameMessagesFrom(start, a + b) == FrameMessagesFrom(start, a) + FrameMessagesFrom(start + |a|, b)
  {
  }

  /** The `for img in frames` loop: one frame message per frame, numbered by
      `total_frames_sent` from `start`. */
  method SendFrames(frames: seq<Frame>, start: nat) returns (msgs: seq<WsMessage>, totalFramesSent: nat)
    ensures msgs == FrameMessagesFrom(start, frames)
    ensures totalFramesSent == start + |frames|
  {
    msgs, totalFramesSent := [], start;
    var k := 0;
    while k < |frames|
      invariant 0 <= k <= |frames|
      invariant totalFramesSent == start + k
      invariant msgs == FrameMessagesFrom(start, frames[..k])
    {
      assert frames[..k + 1] == frames[..k] + [frames[k]];
      FrameMessagesAppend(start, frames[..k], [frames[k]]);
      msgs := msgs + [FrameMessage(totalFramesSent, frames[k])];
      totalFramesSent := totalFramesSent + 1;
      k := k + 1;
    }
    assert frames[..k] == frames;
  }

  /** Whether chunk `k` is the first one flagged final. */
  predicate FirstFinal(chunks: seq<Chunk>, k: int)
  {
    0 <= k < |chunks| && chunks[k].isFinal && forall c :: 0 <= c < k ==> !chunks[c].isFinal
  }

  /** The `async for` loop of `ws_generate`: every frame of every chunk in
      turn, numbered by `total_frames_sent`, and a `done` message right after
      the first final chunk, which ends the loop. */
  method SendChunks(chunks: seq<Chunk>) returns (sent: seq<WsMessage>)
    ensures (forall c :: 0 <= c < |chunks| ==> !chunks[c].isFinal) ==> sent == FrameMessages(Flatten(chunks))
    ensures forall k :: FirstFinal(chunks, k) ==>
      sent == FrameMessages(Flatten(chunks[..k + 1])) + [DoneMessage(|Flatten(chunks[..k + 1])|)]
  {
    sent := [];
    var totalFramesSent := 0;
    var chunkIdx := 0;
    while chunkIdx < |chunks|
      invariant 0 <= chunkIdx <= |chunks|
      invariant forall c :: 0 <= c < chunkIdx ==> !chunks[c].isFinal
      invariant totalFramesSent == |Flatten(chunks[..chunkIdx])|
      invariant sent == FrameMessages(Flatten(chunks[..chunkIdx]))
    {
      var msgs;
      ghost var before := Flatten(chunks[..chunkIdx]);
      msgs, totalFramesSent := SendFrames(chunks[chunkIdx].frames, totalFramesSent);
      sent := sent + msgs;
      FrameMessagesAppend(0, before, chunks[chunkIdx].frames);
      FlattenSnoc(chunks[..chunkIdx], chunks[chunkIdx]);
      assert chunks[..chunkIdx + 1] == chunks[..chunkIdx] + [chunks[chunkIdx]];
      chunkIdx := chunkIdx + 1;

      if chunks[chunkIdx - 1].isFinal {
        sent := sent + [DoneMessage(totalFramesSent)];
        assert FirstFinal(chunks, chunkIdx - 1);
        return;
      }
    }
    assert chunks[..chunkIdx] == chunks;
  }

  /** `ws_generate` after the socket is accepted: the messages it sends. */
  method WsGenerate(init: InitMessage) returns (sent: seq<WsMessage>)
    ensures ReadInit(init).Failure? ==> sent == [ErrorMessage(MissingPromptsMessage)]
    ensures ReadInit(init).Success? ==>
      var cfg := ReadInit(init).value;
      var finalPrompts := FinalPrompts(cfg.prompts, cfg.reprompts);
      && (finalPrompts == [] ==> sent == [ErrorMessage(IndexErrorMessage)])
      && (finalPrompts != [] ==>
            sent == FrameMessages(Schedule(finalPrompts, cfg.switchFrameIndices)) + [DoneMessage(NUM_OUTPUT_FRAMES)])
  {
    var config := ReadInit(init);
    if config.Failure? {
      sent := [ErrorMessage(config.error)];
      return;
    }
    var cfg := config.value;
    var chunks, raised := MockChunkInference(cfg.prompts, cfg.switchFrameIndices, cfg.blocksPerChunk, cfg.reprompts);
    if raised.Some? {
      // the generator raised before its first yield
      sent := SendChunks(chunks);
      assert sent == [];
      sent := sent + [ErrorMessage(raised.value)];
    } else {
      sent := SendChunks(chunks);
      assert FirstFinal(chunks, |chunks| - 1);
      assert chunks[..|chunks|] == chunks;
    }
  }

  /** The wire sequence: frame messages numbered 0, 1, 2, ... with no gap or
      repeat, then exactly one terminal message; a `done` carries the number
      of frame messages before it and nothing follows it. */
  lemma WsGenerateShape(prompts: seq<string>, switches: seq<int>)
    requires prompts != []
    ensures var sent := FrameMessages(Schedule(prompts, switches)) + [DoneMessage(NUM_OUTPUT_FRAMES)];
      && |sent| == NUM_OUTPUT_FRAMES + 1
      && (forall i :: 0 <= i < |sent| - 1 ==> sent[i].FrameMessage? && sent[i].frameIndex == i)
      && sent[|sent| - 1] == DoneMessage(|sent| - 1)
      && (forall i :: 0 <= i < |sent| ==> (sent[i].DoneMessage? <==> i == |sent| - 1))
      && (forall i :: 0 <= i < |sent| ==> !sent[i].ErrorMessage?)
  {
  }
}
