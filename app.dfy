/** The `/generate` endpoint of the orchestrator: request validation, the
    normalisation of agent replies, and the Server-Sent Events stream that
    reports one event per scene and then `done`, or an `error`. The agents
    (scene decomposer, audio generator) and the video work per scene are
    inputs: a function from the request to the decomposer's reply, and a
    function from scene index and scene to that scene's base64 video or the
    message of the exception it raised. */
module App {
  import opened Common
  import opened PyText
  import opened JsonRead

  const DEFAULT_NUM_SCENES: int := 5
  const MIN_SCENES: int := 1
  const MAX_SCENES: int := 20

  const EmptyScriptDetail: string := "Script cannot be empty"
  const SceneCountDetail: string := "num_scenes must be between 1 and 20"

  // ---------------------------------------------------------------------------
  // Request validation
  // ---------------------------------------------------------------------------

  /** The JSON body as posted; `numScenes` is `None` when the field is left out. */
  datatype HttpBody = HttpBody(script: string, numScenes: Option<int>)

  /** `DecomposeHTTPRequest` after parsing. */
  datatype DecomposeHttpRequest = DecomposeHttpRequest(script: string, numScenes: int)

  datatype HttpError = HttpError(status: int, detail: string)

  /** Parsing the body: `num_scenes` defaults to 5. */
  function ReadRequest(body: HttpBody): (req: DecomposeHttpRequest)
    ensures req.script == body.script
    ensures body.numScenes.None? ==> req.numScenes == DEFAULT_NUM_SCENES
    ensures body.numScenes.Some? ==> req.numScenes == body.numScenes.value
  {
    DecomposeHttpRequest(body.script, match body.numScenes case Some(n) => n case None => DEFAULT_NUM_SCENES)
  }

  /** The two checks `generate_video_and_audio` makes before streaming, in
      order: a script that is empty after stripping, then a scene count
      outside 1..20; both are answered with status 400. */
  function ValidateRequest(req: DecomposeHttpRequest): (r: Option<HttpError>)
    ensures r.Some? ==> r.value.status == 400
    ensures r == Some(HttpError(400, EmptyScriptDetail)) <==> AllSpace(req.script)
    ensures r == Some(HttpError(400, SceneCountDetail)) <==>
      !AllSpace(req.script) && (req.numScenes < MIN_SCENES || req.numScenes > MAX_SCENES)
    ensures r.None? <==> !AllSpace(req.script) && MIN_SCENES <= req.numScenes <= MAX_SCENES
  {
    StripEmptyIff(req.script);
    if Strip(req.script) == [] then Some(HttpError(400, EmptyScriptDetail))
    else if req.numScenes < MIN_SCENES || req.numScenes > MAX_SCENES then Some(HttpError(400, SceneCountDetail))
    else None
  }

  // ---------------------------------------------------------------------------
  // Agent replies
  // ---------------------------------------------------------------------------

  /** What `send_sync_message` may hand back: a raw JSON string, an Envelope
      (its payload already decoded to text), or an already-decoded value. */
  datatype AgentReply<V> = RawJson(text: string) | Envelope(payload: string) | Decoded(value: V)

  /** `parse_response`, with `json.loads` as the parameter `loads`. */
  function ParseResponse<V>(reply: AgentReply<V>, loads: string -> Result<V, string>): (r: Result<V, string>)
    ensures reply.RawJson? ==> r == loads(reply.text)
    ensures reply.Envelope? ==> r == loads(reply.payload)
    ensures reply.Decoded? ==> r == Success(reply.value)
  {
    match reply
    case RawJson(text) => loads(text)
    case Envelope(payload) => loads(payload)
    case Decoded(v) => Success(v)
  }

  /** The three shapes of one reply normalise to the same value. */
  lemma ParseResponseShapesAgree<V>(v: V, text: string, loads: string -> Result<V, string>)
    requires loads(text) == Success(v)
    ensures ParseResponse(RawJson(text), loads) == Success(v)
    ensures ParseResponse(Envelope(text), loads) == Success(v)
    ensures ParseResponse(Decoded(v), loads) == Success(v)
  {
  }

  /** A scene as the decomposer describes it. */
  datatype Scene = Scene(videoPrompt: string, voiceover: string)

  /** The decomposer's reply once decoded: a JSON object whose `scenes` key
      holds the scene list. */
  type DecomposerReply = map<string, seq<Scene>>

  const MissingScenesMessage: string := "'scenes'"

  /** `query_decomposer` followed by `result["scenes"]`: the scene list, or the
      message of the first exception on the way. */
  function DecomposedScenes(req: DecomposeHttpRequest,
                            send: DecomposeHttpRequest -> Result<AgentReply<DecomposerReply>, string>,
                            loads: string -> Result<DecomposerReply, string>): (r: Result<seq<Scene>, string>)
    ensures send(req).Failure? ==> r == Failure(send(req).error)
    ensures send(req).Success? && ParseResponse(send(req).value, loads).Failure? ==>
      r == Failure(ParseResponse(send(req).value, loads).error)
    ensures send(req).Success? && ParseResponse(send(req).value, loads).Success? ==>
      var reply := ParseResponse(send(req).value, loads).value;
      r == if "scenes" in reply then Success(reply["scenes"]) else Failure(MissingScenesMessage)
  {
    match send(req)
    case Failure(e) => Failure(e)
    case Success(raw) =>
      match ParseResponse(raw, loads)
      case Failure(e) => Failure(e)
      case Success(reply) =>
        if "scenes" in reply then Success(reply["scenes"]) else Failure(MissingScenesMessage)
  }

  // ---------------------------------------------------------------------------
  // The event stream
  // ---------------------------------------------------------------------------

  datatype SseEvent =
    | SceneEvent(sceneIndex: nat, videoBase64: string)
    | DoneEvent
    | ErrorEvent(message: string)

  /** The reference stream from scene `i` on: scene events in index order
      until a scene fails (its error ends the stream) or all are done. */
  function SceneStream(scenes: seq<Scene>, process: (nat, Scene) -> Result<string, string>, i: nat): (r: seq<SseEvent>)
    ensures 1 <= |r| && (i <= |scenes| ==> |r| <= |scenes| - i + 1)
    ensures !r[|r| - 1].SceneEvent?
    decreases |scenes| - i
  {
    if i >= |scenes| then [DoneEvent]
    else match process(i, scenes[i])
      case Failure(e) => [ErrorEvent(e)]
      case Success(video) => [SceneEvent(i, video)] + SceneStream(scenes, process, i + 1)
  }

  /** The events `generate_scenes` yields for a decomposer outcome. */
  function ExpectedEvents(decomposed: Result<seq<Scene>, string>, process: (nat, Scene) -> Result<string, string>): seq<SseEvent>
  {
    match decomposed
    case Failure(e) => [ErrorEvent(e)]
    case Success(scenes) => SceneStream(scenes, process, 0)
  }

  /** Every scene from `i` on succeeds. */
  predicate AllSucceedFrom(scenes: seq<Scene>, process: (nat, Scene) -> Result<string, string>, i: nat)
  {
    forall k :: i <= k < |scenes| ==> process(k, scenes[k]).Success?
  }

  /** The shape of the stream: scene events numbered i, i+1, ... in order,
      each carrying its scene's video; then exactly one terminal event, a
      `done` exactly when every remaining scene succeeded, otherwise the error
      of the first scene that failed. */
  lemma {:induction false} SceneStreamShape(scenes: seq<Scene>, process: (nat, Scene) -> Result<string, string>, i: nat)
    requires i <= |scenes|
    decreases |scenes| - i
    ensures var r := SceneStream(scenes, process, i);
      && 1 <= |r| <= |scenes| - i + 1
      && (forall j :: i <= j < i + |r| - 1 ==>
            process(j, scenes[j]).Success? && r[j - i] == SceneEvent(j, process(j, scenes[j]).value))
      && (r[|r| - 1] == DoneEvent <==> AllSucceedFrom(scenes, process, i))
      && (r[|r| - 1] == DoneEvent ==> |r| == |scenes| - i + 1)
      && (r[|r| - 1] != DoneEvent ==>
            i + |r| - 1 < |scenes| && process(i + |r| - 1, scenes[i + |r| - 1]).Failure?
            && r[|r| - 1] == ErrorEvent(process(i + |r| - 1, scenes[i + |r| - 1]).error))
  {
    if i < |scenes| && process(i, scenes[i]).Success? {
      SceneStreamShape(scenes, process, i + 1);
      var rest := SceneStream(scenes, process, i + 1);
      var r := SceneStream(scenes, process, i);
      assert r == [SceneEvent(i, process(i, scenes[i]).value)] + rest;
      forall j | i <= j < i + |r| - 1
        ensures process(j, scenes[j]).Success? && r[j - i] == SceneEvent(j, process(j, scenes[j]).value)
      {
        if j > i { assert r[j - i] == rest[j - (i + 1)]; }
      }
      assert AllSucceedFrom(scenes, process, i) <==> AllSucceedFrom(scenes, process, i + 1);
    }
  }

  /** No event follows a terminal one: `done` and `error` occur only last,
      and never both. */
  lemma ExpectedEventsTerminal(decomposed: Result<seq<Scene>, string>, process: (nat, Scene) -> Result<string, string>)
    ensures var r := ExpectedEvents(decomposed, process);
      && |r| >= 1
      && (forall k :: 0 <= k < |r| - 1 ==> r[k].SceneEvent?)
      && !r[|r| - 1].SceneEvent?
      && (r[|r| - 1] == DoneEvent <==> decomposed.Success? && AllSucceedFrom(decomposed.value, process, 0))
  {
    if decomposed.Success? {
      var scenes := decomposed.value;
      SceneStreamShape(scenes, process, 0);
      var r := SceneStream(scenes, process, 0);
      forall k | 0 <= k < |r| - 1 ensures r[k].SceneEvent? {
        assert process(k, scenes[k]).Success?;
      }
    }
  }

  // ---------------------------------------------------------------------------
  // Event text
  // ---------------------------------------------------------------------------

  lemma PrintableConcat(a: string, b: string)
    requires AllPrintable(a) && AllPrintable(b)
    ensures AllPrintable(a + b)
  {
    assert forall k :: 0 <= k < |a + b| ==> (a + b)[k] == if k < |a| then a[k] else b[k - |a|];
  }

  const SceneIndexPrefix: string := "{\"scene_index\": "
  const VideoKey: string := ", \"video_base64\": "
  const ErrorPrefix: string := "{\"error\": "
  const DoneBody: string := "{\"done\": true}"

  lemma PrintableKeys()
    ensures AllPrintable(SceneIndexPrefix) && AllPrintable(VideoKey)
    ensures AllPrintable(ErrorPrefix) && AllPrintable(DoneBody) && AllPrintable("}")
  {
  }

  /** `json.dumps` of the event's dict, keys in insertion order and the
      default separators. It is printable ASCII, so it holds no newline. */
  function EventJson(e: SseEvent): (r: string)
    ensures AllPrintable(r)
  {
    PrintableKeys();
    match e
    case SceneEvent(i, video) =>
      var digits := Decimal(i);
      assert AllPrintable(digits);
      PrintableConcat(SceneIndexPrefix, digits);
      PrintableConcat(VideoKey, Quote(video));
      PrintableConcat(VideoKey + Quote(video), "}");
      PrintableConcat(SceneIndexPrefix + digits, VideoKey + Quote(video) + "}");
      SceneIndexPrefix + digits + (VideoKey + Quote(video) + "}")
    case DoneEvent => DoneBody
    case ErrorEvent(msg) =>
      PrintableConcat(ErrorPrefix, Quote(msg));
      PrintableConcat(ErrorPrefix + Quote(msg), "}");
      ErrorPrefix + Quote(msg) + "}"
  }

  predicate StartsWith(s: string, p: string)
  {
    |p| <= |s| && s[..|p|] == p
  }

  /** Decodes the three event body shapes the backend writes, in
      `json.dumps`'s default spacing, with nothing left over; it is not a
      general JSON parser. */
  function ParseEvent(body: string): Option<SseEvent>
  {
    if body == DoneBody then Some(DoneEvent)
    else if StartsWith(body, ErrorPrefix) then
      match ReadString(body[|ErrorPrefix|..])
      case Some((msg, rest)) => if rest == "}" then Some(ErrorEvent(msg)) else None
      case None => None
    else if StartsWith(body, SceneIndexPrefix) then
      match ReadNat(body[|SceneIndexPrefix|..])
      case Some((i, rest)) =>
        if StartsWith(rest, VideoKey) then
          match ReadString(rest[|VideoKey|..])
          case Some((video, rest')) => if rest' == "}" then Some(SceneEvent(i, video)) else None
          case None => None
        else None
      case None => None
    else None
  }

  lemma SplitAt(p: string, rest: string)
    ensures StartsWith(p + rest, p) && (p + rest)[|p|..] == rest
  {
  }

  lemma ErrorBodyParses(body: string, msg: string)
    requires StartsWith(body, ErrorPrefix)
    requires ReadString(body[|ErrorPrefix|..]) == Some((msg, "}"))
    ensures ParseEvent(body) == Some(ErrorEvent(msg))
  {
    assert body[2] == body[..|ErrorPrefix|][2] == 'e';
    assert body != DoneBody by { assert DoneBody[2] == 'd'; }
  }

  lemma SceneBodyParses(body: string, i: nat, rest: string, video: string)
    requires StartsWith(body, SceneIndexPrefix)
    requires ReadNat(body[|SceneIndexPrefix|..]) == Some((i, rest))
    requires StartsWith(rest, VideoKey) && ReadString(rest[|VideoKey|..]) == Some((video, "}"))
    ensures ParseEvent(body) == Some(SceneEvent(i, video))
  {
    assert body[2] == body[..|SceneIndexPrefix|][2] == 's';
    assert body != DoneBody by { assert DoneBody[2] == 'd'; }
    assert body[..|ErrorPrefix|][2] == body[2] != ErrorPrefix[2];
  }

  lemma ErrorEventParses(msg: string)
    ensures ParseEvent(EventJson(ErrorEvent(msg))) == Some(ErrorEvent(msg))
  {
    var body := EventJson(ErrorEvent(msg));
    var tail := Quote(msg) + "}";
    ConcatAssoc(ErrorPrefix, Quote(msg), "}");
    assert body == ErrorPrefix + tail;
    SplitAt(ErrorPrefix, tail);
    QuoteReadsBack(msg, "}");
    ErrorBodyParses(body, msg);
  }

  lemma SceneEventParses(i: nat, video: string)
    ensures ParseEvent(EventJson(SceneEvent(i, video))) == Some(SceneEvent(i, video))
  {
    var body := EventJson(SceneEvent(i, video));
    var rest := VideoKey + (Quote(video) + "}");
    ConcatAssoc(VideoKey, Quote(video), "}");
    ConcatAssoc(SceneIndexPrefix, Decimal(i), rest);
    assert body == SceneIndexPrefix + (Decimal(i) + rest);
    SplitAt(SceneIndexPrefix, Decimal(i) + rest);
    DecimalReadsBack(i, rest);
    SplitAt(VideoKey, Quote(video) + "}");
    QuoteReadsBack(video, "}");
    SceneBodyParses(body, i, rest, video);
  }

  /** Every event body decodes back to its event. */
  lemma EventJsonParses(e: SseEvent)
    ensures ParseEvent(EventJson(e)) == Some(e)
  {
    match e
    case SceneEvent(i, video) => SceneEventParses(i, video);
    case DoneEvent =>
    case ErrorEvent(msg) => ErrorEventParses(msg);
  }

  /** Distinct events have distinct bodies. */
  lemma EventJsonInjective(a: SseEvent, b: SseEvent)
    requires EventJson(a) == EventJson(b)
    ensures a == b
  {
    EventJsonParses(a);
    EventJsonParses(b);
  }

  /** The Server-Sent Events framing of one body. */
  function SseFrame(body: string): string
  {
    "data: " + body + "\n\n"
  }

  /** The JSON bodies of the events, in order. */
  function EventBodies(events: seq<SseEvent>): (r: seq<string>)
    ensures |r| == |events|
  {
    seq(|events|, k requires 0 <= k < |events| => EventJson(events[k]))
  }

  /** Each body framed on its own, one after another. */
  function FrameAll(bodies: seq<string>): (r: seq<string>)
    ensures |r| == |bodies|
  {
    seq(|bodies|, k requires 0 <= k < |bodies| => SseFrame(bodies[k]))
  }

  /** The text of a list of events, one framed event after another. */
  function FormatAll(events: seq<SseEvent>): seq<string>
  {
    FrameAll(EventBodies(events))
  }

  lemma FormatAllSnoc(events: seq<SseEvent>, e: SseEvent)
    ensures FormatAll(events + [e]) == FormatAll(events) + [SseFrame(EventJson(e))]
  {
    var bodies := EventBodies(events + [e]);
    assert bodies == EventBodies(events) + [EventJson(e)];
  }

  /** One `yield` of `generate_scenes`: the event joins the list and its
      framed body joins the text. */
  method Emit(events: seq<SseEvent>, stream: seq<string>, e: SseEvent)
    returns (events': seq<SseEvent>, stream': seq<string>)
    requires stream == FormatAll(events)
    ensures events' == events + [e]
    ensures stream' == FormatAll(events')
  {
    FormatAllSnoc(events, e);
    events' := events + [e];
    stream' := stream + [SseFrame(EventJson(e))];
  }

  /** One step of the reference stream at a scene that exists. */
  lemma SceneStreamUnfold(scenes: seq<Scene>, process: (nat, Scene) -> Result<string, string>, i: nat)
    requires i < |scenes|
    ensures process(i, scenes[i]).Failure? ==>
      SceneStream(scenes, process, i) == [ErrorEvent(process(i, scenes[i]).error)]
    ensures process(i, scenes[i]).Success? ==>
      SceneStream(scenes, process, i) == [SceneEvent(i, process(i, scenes[i]).value)] + SceneStream(scenes, process, i + 1)
  {
  }

  lemma AppendStep(done: seq<SseEvent>, e: SseEvent, rest: seq<SseEvent>)
    ensures done + ([e] + rest) == (done + [e]) + rest
  {
  }

  /** `generate_scenes`: the events it yields, in order, and their text. */
  method GenerateScenes(decomposed: Result<seq<Scene>, string>, process: (nat, Scene) -> Result<string, string>)
    returns (events: seq<SseEvent>, stream: seq<string>)
    ensures events == ExpectedEvents(decomposed, process)
    ensures stream == FormatAll(events)
  {
    events, stream := [], [];
    assert FormatAll([]) == [];
    if decomposed.Failure? {
      events, stream := Emit(events, stream, ErrorEvent(decomposed.error));
      return;
    }
    var scenes := decomposed.value;
    var i := 0;
    while i < |scenes|
      invariant 0 <= i <= |scenes|
      invariant events + SceneStream(scenes, process, i) == SceneStream(scenes, process, 0)
      invariant stream == FormatAll(events)
    {
      var outcome := process(i, scenes[i]);
      SceneStreamUnfold(scenes, process, i);
      if outcome.Failure? {
        events, stream := Emit(events, stream, ErrorEvent(outcome.error));
        return;
      }
      AppendStep(events, SceneEvent(i, outcome.value), SceneStream(scenes, process, i + 1));
      events, stream := Emit(events, stream, SceneEvent(i, outcome.value));
      i := i + 1;
    }
    events, stream := Emit(events, stream, DoneEvent);
  }

  /** `generate_video_and_audio`: a 400 error before any streaming, or the
      stream of `generate_scenes` for the decomposer's answer to the request. */
  method GenerateVideoAndAudio(body: HttpBody,
                               send: DecomposeHttpRequest -> Result<AgentReply<DecomposerReply>, string>,
                               loads: string -> Result<DecomposerReply, string>,
                               process: (nat, Scene) -> Result<string, string>)
    returns (response: Result<seq<string>, HttpError>)
    ensures var req := ReadRequest(body);
      && (ValidateRequest(req).Some? ==> response == Failure(ValidateRequest(req).value))
      && (ValidateRequest(req).None? ==>
            response == Success(FormatAll(ExpectedEvents(DecomposedScenes(req, send, loads), process))))
  {
    var req := ReadRequest(body);
    var rejected := ValidateRequest(req);
    if rejected.Some? {
      return Failure(rejected.value);
    }
    var _, stream := GenerateScenes(DecomposedScenes(req, send, loads), process);
    response := Success(stream);
  }

  // ---------------------------------------------------------------------------
  // Reading the stream back
  // ---------------------------------------------------------------------------

  function Cat(ss: seq<string>): string
  {
    if ss == [] then [] else ss[0] + Cat(ss[1..])
  }

  /** The first position at or after `k` that holds a newline, or `|s|`. */
  function NewlineFrom(s: string, k: nat): (j: nat)
    requires k <= |s|
    ensures k <= j <= |s|
    decreases |s| - k
  {
    if k == |s| then k else if s[k] == '\n' then k else NewlineFrom(s, k + 1)
  }

  /** How an event-stream reader splits the text: each event is `data: `,
      a body without newlines, and a blank line. Reading stops at anything
      else. */
  function ReadBodies(s: string): seq<string>
    decreases |s|
  {
    if |s| < 6 || s[..6] != "data: " then []
    else
      var j := NewlineFrom(s, 6);
      if j + 1 < |s| && s[j + 1] == '\n' then [s[6..j]] + ReadBodies(s[j + 2..]) else []
  }

  lemma {:induction false} NewlineFromSkips(s: string, k: nat, j: nat)
    requires k <= j < |s| && s[j] == '\n'
    requires forall m :: k <= m < j ==> s[m] != '\n'
    ensures NewlineFrom(s, k) == j
    decreases j - k
  {
    if k < j {
      NewlineFromSkips(s, k + 1, j);
    }
  }

  predicate NoNewline(body: string)
  {
    forall m :: 0 <= m < |body| ==> body[m] != '\n'
  }

  /** Framed bodies without newlines read back as those bodies. */
  lemma {:induction false} ReadFramedBack(bodies: seq<string>)
    requires forall k :: 0 <= k < |bodies| ==> NoNewline(bodies[k])
    ensures ReadBodies(Cat(FrameAll(bodies))) == bodies
    decreases |bodies|
  {
    if bodies != [] {
      var body := bodies[0];
      var rest := Cat(FrameAll(bodies[1..]));
      var frames := FrameAll(bodies);
      assert frames[1..] == FrameAll(bodies[1..]);
      var s := Cat(frames);
      assert s == "data: " + body + "\n\n" + rest;
      assert s[..6] == "data: ";
      forall m | 6 <= m < 6 + |body| ensures s[m] != '\n' {
        assert s[m] == body[m - 6];
      }
      NewlineFromSkips(s, 6, 6 + |body|);
      assert s[6..6 + |body|] == body;
      assert s[6 + |body| + 2..] == rest;
      ReadFramedBack(bodies[1..]);
      assert [body] + bodies[1..] == bodies;
    }
  }

  /** The framing is unambiguous: a client that splits the `/generate` text
      at blank lines and drops the `data: ` prefixes gets back exactly the
      JSON bodies of the events, in order, because no body holds a newline. */
  lemma ReadStreamBack(events: seq<SseEvent>)
    ensures ReadBodies(Cat(FormatAll(events))) == EventBodies(events)
  {
    var bodies := EventBodies(events);
    forall k | 0 <= k < |bodies| ensures NoNewline(bodies[k]) {
      assert AllPrintable(EventJson(events[k]));
    }
    ReadFramedBack(bodies);
  }

  /** A client that reads the `/generate` text and decodes each body gets
      back exactly the events, in order. */
  lemma ReadEventsBack(events: seq<SseEvent>)
    ensures var bodies := ReadBodies(Cat(FormatAll(events)));
      |bodies| == |events| && forall k :: 0 <= k < |bodies| ==> ParseEvent(bodies[k]) == Some(events[k])
  {
    ReadStreamBack(events);
    forall k | 0 <= k < |events| ensures ParseEvent(EventBodies(events)[k]) == Some(events[k]) {
      EventJsonParses(events[k]);
    }
  }
}
