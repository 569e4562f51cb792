# LiveCut backend, modelled in Dafny

LiveCut turns a script into a sequence of short video scenes with voiceover
and streams them to the browser. This project models three pieces of its
Python backend and proves what each of them promises.

- **The mock text-to-video socket** (`backend/mock_websocket.py`), in
  `mock_websocket.dfy`, module `MockWebsocket`. This covers:
  - how each of the 120 output frames picks its segment from the
    switch-frame table and its prompt from the (possibly reprompted) prompt
    list, reading the segment per block of 6 frames;
  - how the `mock_chunk_inference` generator groups blocks into chunks of
    `blocks_per_chunk` blocks, with the last chunk flagged final;
  - the messages `/ws/generate` sends: one `frame` message per frame,
    numbered from 0, then `done` with the frame count, or a single `error`.
  - A frame is the token `Frame(index, segment, prompt)`.
- **The `/generate` orchestrator** (`backend/app.py`), in `app.dfy`, module
  `App`. This covers:
  - the two 400 checks on the request, and the default of 5 scenes;
  - the normalisation of agent replies (`parse_response`);
  - the Server-Sent Events stream of `generate_scenes`: one
    `{"scene_index": i, "video_base64": ...}` event per scene, in order, then
    `{"done": true}`, or an `{"error": ...}` event at the first failure;
  - the exact text of each event, which is the `json.dumps` text framed as
    `data: ...` and a blank line. It is proved to read back unambiguously.
- **Voice resolution** (`backend/voice_selector_agent.py`), in
  `voice_selector.dfy`, module `VoiceSelector`. This covers:
  - the `VOICES` table keyed by lower-cased voice name, where a later voice
    with the same lower-cased name replaces the earlier one in place;
  - the voice name read out of the language model's reply;
  - the case-insensitive lookup, and its fallback to the first key.
- **Shared pieces.**
  - `common.dfy`, module `Common`: `Option`, `Result` and Python list
    indexing.
  - `pytext.dfy`, module `PyText`: the Python text built-ins the backend
    calls. These are `str.strip()` over Python's whitespace set,
    `str.lower()`, `str(int)`, and the string quoting of `json.dumps`.
  - `json_read.dfy`, module `JsonRead`: the reader for that JSON text.

Python exceptions become `Failure` values carrying the text `str(e)` gives:
- `"'prompts'"` and `"'scenes'"` for the two `KeyError`s;
- `"list index out of range"` for the `IndexError`s.

A Python generator is modelled as a method that returns everything it
yields, plus the exception it raised, if any. The one exception
`mock_chunk_inference` can raise is an empty final prompt list. It comes in
the first block, before anything is yielded, so consuming the list after the
fact sends the same messages as the interleaved Python generator.

Everything outside the process is a function parameter:
- the decomposer agent's reply;
- `json.loads`;
- the audio, video and base64 work on one scene, which yields the scene's
  base64 video or an exception message;
- the fetched ElevenLabs voice list;
- the language model's reply content.

`_segment_for_frame` returns the position of the first boundary strictly
above the frame. For a strictly increasing table that position is the number
of boundaries at or below the frame (`SegmentCountsPassedBoundaries`). For
an unsorted table the two can differ. `UnsortedTableDiffers` shows frame 20
with the table `[50, 10]`: it is in segment 0, yet it has passed one
boundary. The model follows the code.

The JSON text the backend writes is paired with a reader, `json_read.dfy`,
module `JsonRead`. It reads the decimal numbers and string literals that
`json.dumps` writes. On other text it is more lenient than JSON (leading
zeros, raw control characters inside a literal), and the round trips do not
depend on that. `App.ParseEvent` uses it to decode the three event body
shapes the backend writes, in `json.dumps`'s default spacing. The
lemmas prove that every number, string and event the backend writes reads
back as itself. The browser client that does this reading is not part of
this model.

## Model

| member | source | states |
|---|---|---|
| `Common.PyIndex` | backend/mock_websocket.py:186 | Python list indexing: succeeds exactly for `-len <= i < len`, negative indices count from the end, anything else fails with "list index out of range" |
| `PyText.StripLeading` | backend/app.py:152 | the result is a suffix of the input; everything cut off is whitespace; the result does not start with whitespace |
| `PyText.StripTrailing` | backend/app.py:152 | the result is a prefix of the input; everything cut off is whitespace; the result does not end with whitespace |
| `PyText.Strip` | backend/app.py:152 | `s.strip()` is no longer than `s`, and is empty or starts and ends with a non-whitespace character |
| `PyText.StripIsTrimmedSlice` | backend/voice_selector_agent.py:121 | `s.strip()` is a contiguous slice of `s` with only whitespace on either side, and it neither starts nor ends with whitespace |
| `PyText.StripEmptyIff` | backend/app.py:152 | `not s.strip()` holds exactly when every character of `s` is whitespace (both directions) |
| `PyText.Lower` | backend/voice_selector_agent.py:124 | same length; each character lower-cased on its own (ASCII letters shift by 32, all others kept) |
| `PyText.LowerIdempotent` | backend/voice_selector_agent.py:36 | lower-casing twice equals lower-casing once, so the lower-cased keys are themselves fixed points of the lookup |
| `PyText.Decimal` | backend/app.py:177-182 | `str(i)` for a scene index: one or more decimal digits, no leading zero, and the digits denote `i` |
| `PyText.EscapeChar` | backend/app.py:182 | `json.dumps` writes a character as printable ASCII; it is a single character exactly when printable and neither `"` nor backslash, and then the character itself |
| `PyText.Quote` | backend/app.py:182 | a `json.dumps` string literal is printable ASCII and delimited by double quotes |
| `JsonRead.DecimalReadsBack` | backend/app.py:177-182 | a JSON reader reads `str(n)` back as `n`, leaving whatever non-digit text follows |
| `JsonRead.DecimalInjective` | backend/app.py:177-182 | distinct scene indices are written as distinct digit strings |
| `JsonRead.UnicodeEscapeReadsBack` | backend/app.py:182 | a `\uXXXX` escape reads back as its 16-bit code unit |
| `JsonRead.EscapeCharReadsBack` | backend/app.py:182 | every character, escaped or not, reads back as itself and uses exactly the characters `json.dumps` wrote for it |
| `JsonRead.SurrogatePairReadsBack` | backend/app.py:182 | a character beyond the Basic Multilingual Plane, written as a UTF-16 surrogate pair, reads back as that one character |
| `JsonRead.EscapeAllReadsBack` | backend/app.py:182 | the escaped characters of a string, then a closing quote, read back as the string, leaving the text after the quote |
| `JsonRead.QuoteReadsBack` | backend/app.py:182 | `json.dumps(v)` reads back as `v`, whatever text follows it |
| `JsonRead.QuoteInjective` | backend/app.py:182 | distinct strings are written as distinct literals |
| `MockWebsocket.SegmentForFrame` | backend/mock_websocket.py:51-58 | the segment is at most the table length; every earlier boundary is at or below the frame, and the boundary at the segment (if any) is above it |
| `MockWebsocket.SegmentMonotone` | backend/mock_websocket.py:51-58 | for ANY table, a later frame never falls in an earlier segment |
| `MockWebsocket.SegmentOfInterval` | backend/mock_websocket.py:51-58 | for a strictly increasing table, the frames in `[b[k-1], b[k])` are in segment k |
| `MockWebsocket.SegmentCountsPassedBoundaries` | backend/mock_websocket.py:51-58 | for a strictly increasing table, the segment equals the number of boundaries at or below the frame |
| `MockWebsocket.UnsortedTableDiffers` | backend/mock_websocket.py:51-58 | for the unsorted table `[50, 10]`, frame 20 is in segment 0 though it has passed one boundary, so the sortedness requirement of `SegmentCountsPassedBoundaries` cannot be dropped |
| `MockWebsocket.DefaultSegments` | backend/mock_websocket.py:218-220 | with the default table `[24, 48, 72, 96]`, frames 0 and 23 are in segment 0, 24 in 1, 95 in 3, 96 and 119 in 4 |
| `MockWebsocket.PyPrefix` | backend/mock_websocket.py:169 | Python `s[:stop]`: a prefix; its length is `stop` clamped to the list for `stop >= 0`, and `len + stop` clamped at 0 for negative `stop` |
| `MockWebsocket.FinalPrompts` | backend/mock_websocket.py:167-172 | with k > 0 reprompts the list is `max(len, k)` long, ends with the reprompts and keeps the prompts before them; with none or an empty list it is the prompts |
| `MockWebsocket.FinalPromptsSplice` | backend/mock_websocket.py:167-172 | absent or empty reprompts leave the prompts alone; k reprompts with k <= len keep the length and the first len-k prompts and end with the reprompts; more reprompts than prompts replace the list |
| `MockWebsocket.FinalPromptsEmpty` | backend/mock_websocket.py:167-172 | the final prompt list is empty exactly when the prompts are empty and no non-empty reprompts are given |
| `MockWebsocket.PromptIndex` | backend/mock_websocket.py:186 | `min(seg, count - 1)`: it equals one of the two, is at most both, and is a valid index when the list is non-empty |
| `MockWebsocket.ScheduledFrame` | backend/mock_websocket.py:179-195 | frame i carries index i, the segment of the first frame of its block, and the prompt at that segment, or the last prompt when the segment is past the end of the list |
| `MockWebsocket.ScheduleIndices` | backend/mock_websocket.py:174-195 | the reference schedule has 120 frames, numbered 0 to 119 in order, each drawn from one of the final prompts |
| `MockWebsocket.ScheduleBlocksShareSegment` | backend/mock_websocket.py:179-195 | every frame shares the segment and prompt of the first frame of its block |
| `MockWebsocket.ScheduleSegmentsMonotone` | backend/mock_websocket.py:179-186 | segments never decrease along the schedule |
| `MockWebsocket.ScheduleBlock` | backend/mock_websocket.py:179-195 | block b of the schedule is exactly the 6 frames the inner loop makes for that block |
| `MockWebsocket.GenerateBlock` | backend/mock_websocket.py:189-195 | the inner loop appends the block's frames to the chunk buffer (cut off at frame 120) |
| `MockWebsocket.Flush` | backend/mock_websocket.py:197-201 | a flush hands on whole blocks: exactly `blocks_per_chunk` of them unless it is the final one |
| `MockWebsocket.YieldChunk` | backend/mock_websocket.py:199-201 | the yield appends the buffer as one chunk with its `is_final` flag and empties the buffer, losing or repeating no frame |
| `MockWebsocket.MockChunkInference` | backend/mock_websocket.py:150-201 | raises "list index out of range" before any yield exactly when the final prompt list is empty; otherwise the chunks are well formed (exactly the last is final, none empty, full chunks of `blocks_per_chunk` blocks, one block per chunk when `blocks_per_chunk < 1`), and their frames concatenated are exactly the reference schedule |
| `MockWebsocket.ReadInit` | backend/mock_websocket.py:215-221 | a missing `prompts` fails with KeyError text `'prompts'`; otherwise `blocks_per_chunk` defaults to 5, `switch_frame_indices` to `[24, 48, 72, 96]`, and `reprompts` passes through |
| `MockWebsocket.FrameMessages` | backend/mock_websocket.py:238-245 | one frame message per frame, message i carrying frame index i and frame i |
| `MockWebsocket.SendFrames` | backend/mock_websocket.py:236-245 | the frames of a chunk go out in order, numbered on from the running total, and the total advances by the chunk's size |
| `MockWebsocket.SendChunks` | backend/mock_websocket.py:227-260 | every frame of every chunk goes out in order, numbered from 0; right after the first final chunk comes `done` with the frame count, and nothing after it |
| `MockWebsocket.WsGenerate` | backend/mock_websocket.py:208-271 | a missing `prompts` sends only the `'prompts'` error; an empty final prompt list sends only the IndexError message; otherwise the socket sends the 120 scheduled frames numbered 0..119, then `done` with 120 |
| `MockWebsocket.WsGenerateShape` | backend/mock_websocket.py:236-260 | for any non-empty final prompt list and any table, the frame messages of the schedule followed by `done` with 120 have 121 messages: frame messages numbered 0, 1, 2, ... with no gap or repeat, then exactly one `done` carrying the number of frames before it, and no error |
| `App.ReadRequest` | backend/app.py:132-134 | the script is kept; `num_scenes` defaults to 5 when left out |
| `App.ValidateRequest` | backend/app.py:152-155 | 400 "Script cannot be empty" exactly for an empty or all-whitespace script; otherwise 400 "num_scenes must be between 1 and 20" exactly for a count outside 1..20; no error exactly when both checks pass |
| `App.ParseResponse` | backend/app.py:89-98 | a raw JSON string and an Envelope go through `json.loads`, and an already-decoded value is returned as is |
| `App.ParseResponseShapesAgree` | backend/app.py:89-98 | the three shapes a reply can take normalise to the same value |
| `App.DecomposedScenes` | backend/app.py:103-110 | the scene list is the decomposer's `scenes`, looked up by `result["scenes"]` at backend/app.py:161; a send failure, a decode failure or a missing `scenes` key (KeyError text `'scenes'`) fails with that exception's message |
| `App.SceneStream` | backend/app.py:164-189 | the stream from scene i is never empty, has at most one event per remaining scene plus one, and ends in a non-scene event |
| `App.SceneStreamShape` | backend/app.py:164-185 | scene events come numbered i, i+1, ... in order, each carrying its scene's video; exactly one terminal event follows; it is `done` exactly when every remaining scene succeeds, and otherwise the error of the first failing scene |
| `App.ExpectedEventsTerminal` | backend/app.py:157-189 | the stream is never empty; only its last event is terminal; it ends in `done` exactly when decomposition succeeded and every scene succeeded |
| `App.EventJson` | backend/app.py:176-189 | the `json.dumps` body of each event is printable ASCII, so it holds no newline |
| `App.EventJsonParses` | backend/app.py:176-189 | every event body decodes back to its event: scene index and video, `done`, or the error message |
| `App.EventJsonInjective` | backend/app.py:176-189 | distinct events have distinct bodies |
| `App.Emit` | backend/app.py:182 | one `yield` adds the event and its framed body, keeping the text in step with the events |
| `App.GenerateScenes` | backend/app.py:157-189 | `generate_scenes` yields exactly the reference event sequence, and its text is the framed JSON of those events in order |
| `App.GenerateVideoAndAudio` | backend/app.py:137-198 | a failed check answers 400 with its message before any streaming; otherwise the response streams the framed events for the decomposer's scenes |
| `App.ReadFramedBack` | backend/app.py:182-189 | framed bodies without newlines, concatenated, split back into exactly those bodies |
| `App.ReadStreamBack` | backend/app.py:182-189 | a client that splits the `/generate` text at blank lines and drops `data: ` gets back exactly the JSON bodies of the events, in order |
| `App.ReadEventsBack` | backend/app.py:176-189 | a client that splits the `/generate` text into bodies and decodes each gets back exactly the events, in order |
| `VoiceSelector.Insert` | backend/voice_selector_agent.py:36 | a dict store: a new key goes last, an existing key keeps its place and takes the new value; keys stay distinct and match the entries |
| `VoiceSelector.BuildVoices` | backend/voice_selector_agent.py:36 | the table is a well-formed ordered dict, empty exactly when no voice was fetched, with no more keys than voices |
| `VoiceSelector.BuildVoicesFirstKey` | backend/voice_selector_agent.py:36 | the first key in insertion order is the first fetched voice's lower-cased name |
| `VoiceSelector.BuildVoicesHasKey` | backend/voice_selector_agent.py:36 | every fetched voice's lower-cased name is a key |
| `VoiceSelector.BuildVoicesEntry` | backend/voice_selector_agent.py:36 | every key holds a fetched voice whose lower-cased name is that key |
| `VoiceSelector.BuildVoicesLastWins` | backend/voice_selector_agent.py:36 | among voices sharing a lower-cased name, the table holds the last one |
| `VoiceSelector.SelectedName` | backend/voice_selector_agent.py:119-121 | the stripped `"text"` of the first content item when it is a dict that has one, otherwise the empty string; never starts or ends with whitespace |
| `VoiceSelector.ResolveVoice` | backend/voice_selector_agent.py:124-129 | the entry under the lower-cased name when present; otherwise the entry under the first key; fails with "list index out of range" exactly when the table is empty; a success is always an entry of the table |
| `VoiceSelector.ResolveIgnoresCase` | backend/voice_selector_agent.py:124 | a name and its lower-cased form resolve to the same voice |
| `VoiceSelector.ResolveFetched` | backend/voice_selector_agent.py:124-129 | against the fetched list: fails only when it is empty; the result is a fetched voice; a name matching some voice up to case picks a voice of that name; any other name picks a voice named like the first one |
| `VoiceSelector.FallbackIsFirstName` | backend/voice_selector_agent.py:125-129 | when no voice matches, the fallback is the last fetched voice whose lower-cased name is the first voice's |
| `VoiceSelector.HandleVoiceSelect` | backend/voice_selector_agent.py:104-136 | the reply echoes the voiceover and takes the id and name from the resolved voice, which is a fetched voice; it fails with "list index out of range" exactly when no voice was fetched |

## Left out

- Frame pixels and encoding: `_make_frame` and `_encode_frame` (the PIL drawing, JPEG and base64) are not modelled. A frame is a token carrying its index, segment and prompt, so the `data`/`format` payload fields of a frame message are not modelled.
- `num_segments` and the hue palette only affect frame drawing, so they are not modelled.
- Timing and transport are not modelled: `asyncio.sleep`, the FastAPI and CORS set-up, the WebSocket accept and receive, client disconnects (`WebSocketDisconnect`), the `print` logging and the traceback. A failure while sending an error message is not modelled either.
- The generator's interleaving with the socket is not modelled. The generator's result is computed first and then sent; this is observationally the same, because its only exception comes before the first yield.
- Ill-typed init payloads are not modelled, for example a non-list `prompts` or a non-integer `blocks_per_chunk`. The types rule them out.
- Request-body type checks are not modelled: FastAPI answers 422 before the handler runs when the body has no `script`, or a `script` or `num_scenes` of the wrong type (the `DecomposeHTTPRequest` model at backend/app.py:132-134). `HttpBody` has the right types by construction.
- The reader in `JsonRead` and `App.ParseEvent` is not a full JSON parser. It reads no sign, fraction or exponent; it accepts leading zeros and raw control characters that JSON rejects; and it accepts only `json.dumps`'s default spacing. It exists to state the round trips of the text the backend writes.
- The uAgents messaging is not modelled: `send_sync_message` and its 60-second timeout, the agent set-up and addresses. The decomposer's reply is an input.
- The per-scene work is one input function from (index, scene) to a base64 video or an exception message. That work is `query_audio_agent`, `asyncio.gather`, `generate_blue_video`, `combine_video_and_audio` and `video_file_to_base64`. Its concurrency and file I/O are not modelled. backend/mock_video.py, backend/scene_agent.py and backend/audio_agent.py are not part of this model.
- `json.loads` is an input. Replies whose `scenes` value is not a list of scene objects are not modelled. A scene missing `voiceover` fails inside the per-scene input function.
- The StreamingResponse headers and media type are not modelled.
- `get_all_voices` is not modelled: the ElevenLabs HTTP request, `raise_for_status` and `.get("voices", [])`. The fetched list is an input. Voices without a `name` or `voice_id` are not modelled.
- `VOICE_LIST_TEXT`, the prompt template and the Gemini call are not modelled. The reply content is an input. Content parts with non-string `"text"` values are not modelled.
- The startup logging and `ctx.send` transport are not modelled. `HandleVoiceSelect` returns the reply value instead of sending it.
- `PyText.Lower`: only ASCII letters are lower-cased. Python's `str.lower` also maps non-ASCII letters.
- `PyText.EscapeChar`: lone surrogate code points are not modelled, because Dafny's `char` excludes them.
