/** Replay of a cached response as an event stream (shared/cache/replay.py):
    the frames sent, and what a client that parses the stream and follows
    the endpoint's event sequence puts together again. JSON encoding is a
    parameter. */
module Replay {
  import opened Options
  import opened JsonValues
  import opened Text
  import opened EventStream

  // ---- chunks of text

  const CHUNK_CHARS := 24

  function ChunkText(text: string): seq<string> {
    if text == "" then []
    else if |text| <= CHUNK_CHARS then [text]
    else [text[..CHUNK_CHARS]] + ChunkText(text[CHUNK_CHARS..])
  }

  function Joined(pieces: seq<string>): string {
    if pieces == [] then "" else pieces[0] + Joined(pieces[1..])
  }

  /** Nothing is lost, no chunk is empty, and all but the last are full. */
  lemma {:induction false} ChunksAreTheText(text: string)
    ensures Joined(ChunkText(text)) == text
    ensures forall i :: 0 <= i < |ChunkText(text)| ==> 1 <= |ChunkText(text)[i]| <= 24
    ensures forall i :: 0 <= i < |ChunkText(text)| - 1 ==> |ChunkText(text)[i]| == 24
  {
    if |text| > CHUNK_CHARS {
      ChunksAreTheText(text[CHUNK_CHARS..]);
      assert ([text[..CHUNK_CHARS]] + ChunkText(text[CHUNK_CHARS..]))[1..] == ChunkText(text[CHUNK_CHARS..]);
      assert text[..CHUNK_CHARS] + text[CHUNK_CHARS..] == text;
    } else if text != "" {
      assert [text][1..] == [];
    }
  }

  // ---- Anthropic messages

  datatype MessagesBody = MessagesBody(
    id: Json, model: Option<Json>, stopReason: Json, stopSequence: Json, usage: Fields, content: seq<Fields>)

  datatype Start = ToolStart(id: Json, name: Json) | TextStart

  datatype Piece = JsonPiece(s: string) | TextPiece(s: string)

  datatype Payload =
    | MessageStart(id: Json, model: Json, inputTokens: Json)
    | BlockStart(index: nat, start: Start)
    | BlockDelta(index: nat, piece: Piece)
    | BlockStop(index: nat)
    | MessageDelta(stopReason: Json, stopSequence: Json, usage: Fields)
    | MessageStop

  function EventName(p: Payload): string {
    match p
    case MessageStart(_, _, _) => "message_start"
    case BlockStart(_, _) => "content_block_start"
    case BlockDelta(_, _) => "content_block_delta"
    case BlockStop(_) => "content_block_stop"
    case MessageDelta(_, _, _) => "message_delta"
    case MessageStop => "message_stop"
  }

  function TextBlock(text: string): Fields {
    Fields(["type", "text"], map["type" := Str("text"), "text" := Str(text)])
  }

  function ToolBlock(id: Json, name: Json, input: Json): Fields {
    Fields(["type", "id", "name", "input"],
           map["type" := Str("tool_use"), "id" := id, "name" := name, "input" := input])
  }

  function StartJson(s: Start): Json {
    match s
    case ToolStart(id, name) => Obj(ToolBlock(id, name, Obj(NO_FIELDS)))
    case TextStart => Obj(TextBlock(""))
  }

  function PieceJson(p: Piece): Json {
    match p
    case JsonPiece(s) =>
      Obj(Fields(["type", "partial_json"], map["type" := Str("input_json_delta"), "partial_json" := Str(s)]))
    case TextPiece(s) => Obj(Fields(["type", "text"], map["type" := Str("text_delta"), "text" := Str(s)]))
  }

  function HeadUsage(inputTokens: Json): Json {
    Obj(Fields(["input_tokens", "output_tokens"],
               map["input_tokens" := inputTokens, "output_tokens" := Integer(0)]))
  }

  function HeadJson(id: Json, model: Json, inputTokens: Json): Json {
    Obj(Fields(["id", "type", "role", "content", "model", "stop_reason", "stop_sequence", "usage"],
               map["id" := id, "type" := Str("message"), "role" := Str("assistant"), "content" := Arr([]),
                   "model" := model, "stop_reason" := Null, "stop_sequence" := Null,
                   "usage" := HeadUsage(inputTokens)]))
  }

  function StopJson(stopReason: Json, stopSequence: Json): Json {
    Obj(Fields(["stop_reason", "stop_sequence"],
               map["stop_reason" := stopReason, "stop_sequence" := stopSequence]))
  }

  function PayloadFields(p: Payload): Fields {
    match p
    case MessageStart(id, model, tokens) =>
      Fields(["type", "message"], map["type" := Str("message_start"), "message" := HeadJson(id, model, tokens)])
    case BlockStart(i, start) =>
      Fields(["type", "index", "content_block"],
             map["type" := Str("content_block_start"), "index" := Integer(i), "content_block" := StartJson(start)])
    case BlockDelta(i, piece) =>
      Fields(["type", "index", "delta"],
             map["type" := Str("content_block_delta"), "index" := Integer(i), "delta" := PieceJson(piece)])
    case BlockStop(i) =>
      Fields(["type", "index"], map["type" := Str("content_block_stop"), "index" := Integer(i)])
    case MessageDelta(reason, sequence, usage) =>
      Fields(["type", "delta", "usage"],
             map["type" := Str("message_delta"), "delta" := StopJson(reason, sequence), "usage" := Obj(usage)])
    case MessageStop => Fields(["type"], map["type" := Str("message_stop")])
  }

  predicate ProperPayload(p: Payload) {
    match p
    case MessageStart(id, model, tokens) => Proper(id) && Proper(model) && Proper(tokens)
    case BlockStart(_, ToolStart(id, name)) => Proper(id) && Proper(name)
    case MessageDelta(reason, sequence, usage) => Proper(reason) && Proper(sequence) && ProperFields(usage)
    case _ => true
  }

  predicate IsTool(block: Fields) { Get(block, "type") == Str("tool_use") }

  /** The text of a block of any other type; a null text has no chunks. */
  function BlockText(block: Fields): string {
    if Get(block, "text").Str? then Get(block, "text").s else ""
  }

  /** Slicing the text asks for a string, or for nothing at all. */
  predicate Readable(block: Fields) {
    IsTool(block) || Get(block, "text").Str? || !Truthy(Get(block, "text"))
  }

  function ToolInput(block: Fields): Json { OrElse(Get(block, "input"), Obj(NO_FIELDS)) }

  function Deltas(index: nat, json: bool, pieces: seq<string>): seq<Payload> {
    if pieces == [] then []
    else
      [BlockDelta(index, if json then JsonPiece(pieces[0]) else TextPiece(pieces[0]))]
      + Deltas(index, json, pieces[1..])
  }

  function BlockStartOf(block: Fields): Start {
    if IsTool(block) then ToolStart(Get(block, "id"), Get(block, "name")) else TextStart
  }

  function SentText(c: Codec, block: Fields): string {
    if IsTool(block) then c.encode(ToolInput(block)) else BlockText(block)
  }

  function BlockEvents(c: Codec, index: nat, block: Fields): seq<Payload> {
    [BlockStart(index, BlockStartOf(block))]
    + Deltas(index, IsTool(block), ChunkText(SentText(c, block)))
    + [BlockStop(index)]
  }

  function ContentEvents(c: Codec, index: nat, content: seq<Fields>): seq<Payload>
    decreases |content|
  {
    if content == [] then [] else BlockEvents(c, index, content[0]) + ContentEvents(c, index + 1, content[1..])
  }

  function MessageId(body: MessagesBody, millis: nat): Json {
    OrElse(body.id, Str("msg_" + Decimal(millis)))
  }

  function ModelOf(body: MessagesBody): Json {
    if body.model.Some? then body.model.value else Str("")
  }

  function InputTokens(usage: Fields): Json {
    if "input_tokens" in usage.at then usage.at["input_tokens"] else Integer(0)
  }

  /** Its values are built of dictionaries, and the texts of its blocks can be
      sliced. */
  ghost predicate Replayable(body: MessagesBody) {
    && Proper(body.id) && (body.model.Some? ==> Proper(body.model.value))
    && Proper(body.stopReason) && Proper(body.stopSequence) && ProperFields(body.usage)
    && forall i :: 0 <= i < |body.content| ==> ProperFields(body.content[i]) && Readable(body.content[i])
  }

  function MessageEvents(c: Codec, body: MessagesBody, millis: nat): seq<Payload> {
    [MessageStart(MessageId(body, millis), ModelOf(body), InputTokens(body.usage))]
    + ContentEvents(c, 0, body.content)
    + [MessageDelta(body.stopReason, body.stopSequence, body.usage), MessageStop]
  }

  function EventFrames(c: Codec, ps: seq<Payload>): (r: seq<Sent>)
    ensures |r| == |ps|
    ensures forall i :: 0 <= i < |ps| ==> r[i] == Named(EventName(ps[i]), c.encode(Obj(PayloadFields(ps[i]))))
  {
    if ps == [] then []
    else [Named(EventName(ps[0]), c.encode(Obj(PayloadFields(ps[0]))))] + EventFrames(c, ps[1..])
  }

  function ReplayMessages(c: Codec, body: MessagesBody, millis: nat): string
    requires Replayable(body)
  {
    Stream(EventFrames(c, MessageEvents(c, body, millis)))
  }

  // ---- a client of the messages endpoint

  function ReadIndex(j: Json): Option<nat> {
    if j.Number? && j.mantissa >= 0 && j.exponent == 0 then Some(j.mantissa) else None
  }

  function ReadStart(o: Fields): Option<Start> {
    if Get(o, "type") == Str("tool_use") && Get(o, "input") == Obj(NO_FIELDS) then
      Some(ToolStart(Get(o, "id"), Get(o, "name")))
    else if Get(o, "type") == Str("text") && Get(o, "text") == Str("") then Some(TextStart)
    else None
  }

  function ReadPiece(o: Fields): Option<Piece> {
    if Get(o, "type") == Str("input_json_delta") && Get(o, "partial_json").Str? then
      Some(JsonPiece(Get(o, "partial_json").s))
    else if Get(o, "type") == Str("text_delta") && Get(o, "text").Str? then
      Some(TextPiece(Get(o, "text").s))
    else None
  }

  /** The message as a stream announces it: of the assistant, with no content, no
      reason to stop and no output yet. */
  predicate AnnouncesMessage(m: Fields) {
    && Get(m, "type") == Str("message") && Get(m, "role") == Str("assistant") && Get(m, "content") == Arr([])
    && "stop_reason" in m.at && m.at["stop_reason"] == Null
    && "stop_sequence" in m.at && m.at["stop_sequence"] == Null
    && Get(Inner(Get(m, "usage")), "output_tokens") == Number(0, 0)
  }

  /** One event as a client reads it: by its name and by the named fields of
      its data, whose `type` has to agree with the name. */
  function ReadPayload(event: string, o: Fields): Option<Payload> {
    if Get(o, "type") != Str(event) then None
    else if event == "message_start" then
      var m := Inner(Get(o, "message"));
      if !AnnouncesMessage(m) then None
      else Some(MessageStart(Get(m, "id"), Get(m, "model"), Get(Inner(Get(m, "usage")), "input_tokens")))
    else if event == "message_delta" then
      var d := Inner(Get(o, "delta"));
      Some(MessageDelta(Get(d, "stop_reason"), Get(d, "stop_sequence"), Inner(Get(o, "usage"))))
    else if event == "message_stop" then Some(MessageStop)
    else
      var index := ReadIndex(Get(o, "index"));
      if index.None? then None
      else if event == "content_block_start" then
        var start := ReadStart(Inner(Get(o, "content_block")));
        if start.Some? then Some(BlockStart(index.value, start.value)) else None
      else if event == "content_block_delta" then
        var piece := ReadPiece(Inner(Get(o, "delta")));
        if piece.Some? then Some(BlockDelta(index.value, piece.value)) else None
      else if event == "content_block_stop" then Some(BlockStop(index.value))
      else None
  }

  datatype Assembled = Assembled(
    id: Json, model: Json, inputTokens: Json, content: seq<Fields>,
    stopReason: Json, stopSequence: Json, usage: Fields)

  /** The protocol as the client follows it: one message start, then blocks
      numbered from zero, each with its deltas between its start and its
      stop, then one message delta and one message stop. Anything else
      breaks it. */
  datatype Reader =
    | Waiting
    | Between(message: Assembled)
    | Within(message: Assembled, start: Start, soFar: string)
    | Closing(message: Assembled)
    | Finished(message: Assembled)
    | Broken

  /** A block once its deltas are complete; a tool's input is its JSON. */
  function Closed(c: Codec, start: Start, soFar: string): Option<Fields> {
    match start
    case TextStart => Some(TextBlock(soFar))
    case ToolStart(id, name) =>
      var input := c.decode(soFar);
      if input.None? then None else Some(ToolBlock(id, name, input.value))
  }

  function Step(c: Codec, r: Reader, p: Payload): Reader {
    match p
    case MessageStart(id, model, tokens) =>
      if r.Waiting? then Between(Assembled(id, model, tokens, [], Null, Null, NO_FIELDS)) else Broken
    case BlockStart(i, start) =>
      if r.Between? && i == |r.message.content| then Within(r.message, start, "") else Broken
    case BlockDelta(i, piece) =>
      if r.Within? && i == |r.message.content| && piece.JsonPiece? == r.start.ToolStart? then
        r.(soFar := r.soFar + piece.s)
      else Broken
    case BlockStop(i) =>
      if r.Within? && i == |r.message.content| && Closed(c, r.start, r.soFar).Some? then
        Between(r.message.(content := r.message.content + [Closed(c, r.start, r.soFar).value]))
      else Broken
    case MessageDelta(reason, sequence, usage) =>
      if r.Between? then
        Closing(r.message.(stopReason := reason, stopSequence := sequence, usage := usage))
      else Broken
    case MessageStop => if r.Closing? then Finished(r.message) else Broken
  }

  function Follow(c: Codec, r: Reader, ps: seq<Payload>): Reader
    decreases |ps|
  {
    if ps == [] then r else Follow(c, Step(c, r, ps[0]), ps[1..])
  }

  function StepMessage(c: Codec, r: Reader, m: Message): Reader {
    var j := c.decode(m.data);
    if j.None? then Broken
    else
      var p := ReadPayload(m.event, Inner(j.value));
      if p.None? then Broken else Step(c, r, p.value)
  }

  function Client(c: Codec, r: Reader, ms: seq<Message>): Reader
    decreases |ms|
  {
    if ms == [] then r else Client(c, StepMessage(c, r, ms[0]), ms[1..])
  }

  /** What the client ends up with for one cached block. */
  function Replayed(block: Fields): Fields {
    if IsTool(block) then ToolBlock(Get(block, "id"), Get(block, "name"), ToolInput(block))
    else TextBlock(BlockText(block))
  }

  function AllReplayed(content: seq<Fields>): (r: seq<Fields>)
    ensures |r| == |content| && forall i :: 0 <= i < |content| ==> r[i] == Replayed(content[i])
  {
    if content == [] then [] else [Replayed(content[0])] + AllReplayed(content[1..])
  }

  // ---- reading a payload back

  lemma {:induction false} HeadIsReadBack(id: Json, model: Json, tokens: Json)
    ensures var m := Inner(HeadJson(id, model, tokens));
            AnnouncesMessage(m) && Get(m, "id") == id && Get(m, "model") == model
            && Get(Inner(Get(m, "usage")), "input_tokens") == tokens
  {}

  lemma {:induction false} StartIsReadBack(s: Start)
    ensures ReadStart(Inner(StartJson(s))) == Some(s)
  {}

  lemma {:induction false} PieceIsReadBack(p: Piece)
    ensures ReadPiece(Inner(PieceJson(p))) == Some(p)
  {}

  /** The JSON of an event is read back as the event sent. */
  lemma {:induction false} PayloadIsReadBack(p: Payload)
    ensures ReadPayload(EventName(p), PayloadFields(p)) == Some(p)
  {
    match p
    case MessageStart(id, model, tokens) => HeadIsReadBack(id, model, tokens);
    case BlockStart(_, start) => StartIsReadBack(start);
    case BlockDelta(_, piece) => PieceIsReadBack(piece);
    case BlockStop(_) =>
    case MessageDelta(_, _, _) =>
    case MessageStop =>
  }

  ghost predicate AllProper(ps: seq<Payload>) {
    forall i :: 0 <= i < |ps| ==> ProperPayload(ps[i])
  }

  lemma {:induction false} HeadIsListed(id: Json, model: Json, tokens: Json)
    ensures Listed(HeadJson(id, model, tokens).fields)
  {}

  lemma {:induction false} HeadIsProper(id: Json, model: Json, tokens: Json)
    requires Proper(id) && Proper(model) && Proper(tokens)
    ensures Proper(HeadJson(id, model, tokens))
  {
    var d := HeadJson(id, model, tokens).fields;
    HeadIsListed(id, model, tokens);
    assert Proper(HeadUsage(tokens)) by {
      ProperByKeys(HeadUsage(tokens).fields);
    }
    forall k | k in d.at ensures Proper(d.at[k]) {
      HeadValues(id, model, tokens, k);
    }
  }

  lemma {:induction false} HeadValues(id: Json, model: Json, tokens: Json, key: string)
    requires var d := HeadJson(id, model, tokens).fields; key in d.at
    ensures var v := HeadJson(id, model, tokens).fields.at[key];
            v in {id, model, Str("message"), Str("assistant"), Arr([]), Null, HeadUsage(tokens)}
  {}

  lemma {:induction false} StartIsProper(s: Start)
    requires s.ToolStart? ==> Proper(s.id) && Proper(s.name)
    ensures Proper(StartJson(s))
  {
    assert Proper(Obj(NO_FIELDS));
    ProperByKeys(StartJson(s).fields);
  }

  lemma {:induction false} PieceIsProper(p: Piece)
    ensures Proper(PieceJson(p))
  {
    ProperByKeys(PieceJson(p).fields);
  }

  lemma {:induction false} StopIsProper(stopReason: Json, stopSequence: Json)
    requires Proper(stopReason) && Proper(stopSequence)
    ensures Proper(StopJson(stopReason, stopSequence))
  {
    ProperByKeys(StopJson(stopReason, stopSequence).fields);
  }

  lemma {:induction false} PayloadIsListed(p: Payload)
    ensures Listed(PayloadFields(p))
  {}

  lemma {:induction false} PayloadIsProper(p: Payload)
    requires ProperPayload(p)
    ensures ProperFields(PayloadFields(p))
  {
    PayloadIsListed(p);
    match p
    case MessageStart(id, model, tokens) =>
      HeadIsProper(id, model, tokens);
      ProperByKeys(PayloadFields(p));
    case BlockStart(_, start) =>
      StartIsProper(start);
      ProperByKeys(PayloadFields(p));
    case BlockDelta(_, piece) =>
      PieceIsProper(piece);
      ProperByKeys(PayloadFields(p));
    case BlockStop(_) => ProperByKeys(PayloadFields(p));
    case MessageDelta(reason, sequence, _) =>
      StopIsProper(reason, sequence);
      ProperByKeys(PayloadFields(p));
    case MessageStop => ProperByKeys(PayloadFields(p));
  }

  /** Messages that carry the events sent drive the client as they should. */
  lemma {:induction false} FramesDriveTheClient(c: Codec, r: Reader, ps: seq<Payload>)
    requires Faithful(c) && AllProper(ps)
    ensures Client(c, r, AllReceived(EventFrames(c, ps))) == Follow(c, r, ps)
    decreases |ps|
  {
    if ps != [] {
      PayloadIsReadBack(ps[0]);
      PayloadIsProper(ps[0]);
      var frames := EventFrames(c, ps);
      assert frames[1..] == EventFrames(c, ps[1..]);
      assert AllReceived(frames)[1..] == AllReceived(frames[1..]);
      FramesDriveTheClient(c, Step(c, r, ps[0]), ps[1..]);
    }
  }

  lemma {:induction false} NameFits(p: Payload)
    ensures EventName(p) != "" && OneLine(EventName(p))
  {}

  lemma {:induction false} FramesFit(c: Codec, ps: seq<Payload>)
    requires Faithful(c) && AllProper(ps)
    ensures NamesFit(EventFrames(c, ps)) && DataFits(EventFrames(c, ps))
  {
    var frames := EventFrames(c, ps);
    forall i | 0 <= i < |frames| ensures Fits(frames[i]) && OneLine(frames[i].data) {
      NameFits(ps[i]);
      PayloadIsProper(ps[i]);
    }
  }

  // ---- following the events of a reply

  lemma {:induction false} FollowInTwo(c: Codec, r: Reader, ps: seq<Payload>, qs: seq<Payload>)
    ensures Follow(c, r, ps + qs) == Follow(c, Follow(c, r, ps), qs)
    decreases |ps|
  {
    if ps == [] {
      assert ps + qs == qs;
    } else {
      assert (ps + qs)[1..] == ps[1..] + qs;
      FollowInTwo(c, Step(c, r, ps[0]), ps[1..], qs);
    }
  }

  lemma {:induction false} FollowOne(c: Codec, r: Reader, p: Payload)
    ensures Follow(c, r, [p]) == Step(c, r, p)
  {
    assert [p][1..] == [];
  }

  lemma {:induction false} DeltasAreJoined(c: Codec, m: Assembled, start: Start, soFar: string, pieces: seq<string>)
    ensures Follow(c, Within(m, start, soFar), Deltas(|m.content|, start.ToolStart?, pieces))
            == Within(m, start, soFar + Joined(pieces))
    decreases |pieces|
  {
    if pieces != [] {
      var ps := Deltas(|m.content|, start.ToolStart?, pieces);
      assert ps[1..] == Deltas(|m.content|, start.ToolStart?, pieces[1..]);
      DeltasAreJoined(c, m, start, soFar + pieces[0], pieces[1..]);
      Assoc(soFar, pieces[0], Joined(pieces[1..]));
    }
  }

  /** A block's events, for any start and text that close to a block. */
  lemma {:induction false} BlockIsFollowed(c: Codec, m: Assembled, start: Start, text: string)
    requires Closed(c, start, text).Some?
    ensures Follow(c, Between(m),
                   [BlockStart(|m.content|, start)]
                   + Deltas(|m.content|, start.ToolStart?, ChunkText(text))
                   + [BlockStop(|m.content|)])
            == Between(m.(content := m.content + [Closed(c, start, text).value]))
  {
    var n := |m.content|;
    var deltas := Deltas(n, start.ToolStart?, ChunkText(text));
    FollowInTwo(c, Between(m), [BlockStart(n, start)] + deltas, [BlockStop(n)]);
    FollowInTwo(c, Between(m), [BlockStart(n, start)], deltas);
    FollowOne(c, Between(m), BlockStart(n, start));
    DeltasAreJoined(c, m, start, "", ChunkText(text));
    ChunksAreTheText(text);
    assert "" + text == text;
    FollowOne(c, Within(m, start, text), BlockStop(n));
  }

  lemma {:induction false} BlockIsRebuilt(c: Codec, m: Assembled, block: Fields)
    requires Faithful(c) && ProperFields(block)
    ensures Follow(c, Between(m), BlockEvents(c, |m.content|, block))
            == Between(m.(content := m.content + [Replayed(block)]))
  {
    BlockIsFollowed(c, m, BlockStartOf(block), SentText(c, block));
  }

  lemma {:induction false} ReplayedStep(content: seq<Fields>, before: seq<Fields>)
    requires content != []
    ensures before + AllReplayed(content) == before + [Replayed(content[0])] + AllReplayed(content[1..])
  {}

  lemma {:induction false} ContentIsRebuilt(c: Codec, m: Assembled, content: seq<Fields>)
    requires Faithful(c) && forall i :: 0 <= i < |content| ==> ProperFields(content[i])
    ensures Follow(c, Between(m), ContentEvents(c, |m.content|, content))
            == Between(m.(content := m.content + AllReplayed(content)))
    decreases |content|
  {
    if content == [] {
      assert m.content + [] == m.content;
    } else {
      var first := BlockEvents(c, |m.content|, content[0]);
      var others := ContentEvents(c, |m.content| + 1, content[1..]);
      assert ContentEvents(c, |m.content|, content) == first + others;
      FollowInTwo(c, Between(m), first, others);
      BlockIsRebuilt(c, m, content[0]);
      ContentIsRebuilt(c, m.(content := m.content + [Replayed(content[0])]), content[1..]);
      ReplayedStep(content, m.content);
    }
  }

  /** The message a client should have after the whole reply. */
  function Reply(body: MessagesBody, millis: nat): Assembled {
    Assembled(MessageId(body, millis), ModelOf(body), InputTokens(body.usage),
              AllReplayed(body.content), body.stopReason, body.stopSequence, body.usage)
  }

  /** What the reply is, from the cached body: its id or one made of the time, its
      model or none, the input tokens of its usage or zero, and block by block
      the tool calls with their input, and the texts of all other blocks. */
  lemma {:induction false} ReplyMeaning(body: MessagesBody, millis: nat)
    ensures var r := Reply(body, millis);
            && r.id == (if Truthy(body.id) then body.id else Str("msg_" + Decimal(millis)))
            && r.model == (if body.model.Some? then body.model.value else Str(""))
            && (r.inputTokens ==
                if "input_tokens" in body.usage.at then body.usage.at["input_tokens"] else Number(0, 0))
            && r.stopReason == body.stopReason && r.stopSequence == body.stopSequence && r.usage == body.usage
            && |r.content| == |body.content|
            && forall i :: 0 <= i < |r.content| ==> r.content[i].at == BlockAsSent(body.content[i])
  {}

  function BlockAsSent(block: Fields): map<string, Json> {
    var input, text := Get(block, "input"), Get(block, "text");
    if Get(block, "type") == Str("tool_use") then
      map["type" := Str("tool_use"), "id" := Get(block, "id"), "name" := Get(block, "name"),
          "input" := if Truthy(input) then input else Obj(NO_FIELDS)]
    else
      map["type" := Str("text"), "text" := if text.Str? then text else Str("")]
  }

  lemma {:induction false} EventsGiveTheReply(c: Codec, body: MessagesBody, millis: nat)
    requires Faithful(c) && Replayable(body)
    ensures Follow(c, Waiting, MessageEvents(c, body, millis)) == Finished(Reply(body, millis))
  {
    var first := MessageStart(MessageId(body, millis), ModelOf(body), InputTokens(body.usage));
    var middle := ContentEvents(c, 0, body.content);
    var delta := MessageDelta(body.stopReason, body.stopSequence, body.usage);
    var m := Assembled(first.id, first.model, first.inputTokens, [], Null, Null, NO_FIELDS);
    var full := m.(content := m.content + AllReplayed(body.content));
    FollowInTwo(c, Waiting, [first] + middle, [delta, MessageStop]);
    FollowInTwo(c, Waiting, [first], middle);
    FollowOne(c, Waiting, first);
    ContentIsRebuilt(c, m, body.content);
    MessageIsClosed(c, full, delta);
    assert full.content == AllReplayed(body.content);
  }

  lemma {:induction false} MessageIsClosed(c: Codec, m: Assembled, delta: Payload)
    requires delta.MessageDelta?
    ensures Follow(c, Between(m), [delta, MessageStop])
            == Finished(m.(stopReason := delta.stopReason, stopSequence := delta.stopSequence, usage := delta.usage))
  {
    assert [delta, MessageStop][1..] == [MessageStop];
    FollowOne(c, Step(c, Between(m), delta), MessageStop);
  }

  lemma {:induction false} DeltasAreProper(index: nat, json: bool, pieces: seq<string>)
    ensures AllProper(Deltas(index, json, pieces))
  {
    if pieces != [] {
      DeltasAreProper(index, json, pieces[1..]);
    }
  }

  lemma {:induction false} ContentIsProper(c: Codec, index: nat, content: seq<Fields>)
    requires forall i :: 0 <= i < |content| ==> ProperFields(content[i])
    ensures AllProper(ContentEvents(c, index, content))
    decreases |content|
  {
    if content != [] {
      DeltasAreProper(index, IsTool(content[0]), ChunkText(SentText(c, content[0])));
      ContentIsProper(c, index + 1, content[1..]);
    }
  }

  lemma {:induction false} EventsAreProper(c: Codec, body: MessagesBody, millis: nat)
    requires Replayable(body)
    ensures AllProper(MessageEvents(c, body, millis))
  {
    ContentIsProper(c, 0, body.content);
  }

  /** Printed, parsed and followed, a replayed message is complete and its
      blocks are the cached ones as `Replayed` keeps them. */
  lemma {:induction false} ReplayedMessageIsReassembled(c: Codec, body: MessagesBody, millis: nat)
    requires Faithful(c) && Replayable(body)
    ensures Client(c, Waiting, Parse(ReplayMessages(c, body, millis))) == Finished(Reply(body, millis))
  {
    var ps := MessageEvents(c, body, millis);
    EventsAreProper(c, body, millis);
    FramesFit(c, ps);
    ParsingUndoesPrinting(EventFrames(c, ps));
    FramesDriveTheClient(c, Waiting, ps);
    EventsGiveTheReply(c, body, millis);
  }

  // ---- a stream says exactly what the reply says

  lemma {:induction false} ContentByReplayed(c: Codec, index: nat, content: seq<Fields>)
    ensures ContentEvents(c, index, content) == ContentEvents(c, index, AllReplayed(content))
    decreases |content|
  {
    if content != [] {
      ContentByReplayed(c, index + 1, content[1..]);
      assert AllReplayed(content)[1..] == AllReplayed(content[1..]);
    }
  }

  /** Two cached messages give the same stream exactly when a client ends up
      with the same reply, the order of keys in what is passed on included: the
      stream tells everything in it and nothing else. */
  lemma {:induction false} SameStreamIff(c: Codec, a: MessagesBody, b: MessagesBody, millis: nat)
    requires Faithful(c) && Replayable(a) && Replayable(b)
    ensures ReplayMessages(c, a, millis) == ReplayMessages(c, b, millis) <==> Reply(a, millis) == Reply(b, millis)
  {
    ReplayedMessageIsReassembled(c, a, millis);
    ReplayedMessageIsReassembled(c, b, millis);
    if Reply(a, millis) == Reply(b, millis) {
      ContentByReplayed(c, 0, a.content);
      ContentByReplayed(c, 0, b.content);
      assert MessageEvents(c, a, millis) == MessageEvents(c, b, millis);
    }
  }

  // ---- which blocks survive

  /** A block of exactly the fields the replay sends. A null or empty tool
      input comes back as an empty object. */
  predicate PlainBlock(block: Fields) {
    if IsTool(block) then
      block.at.Keys == {"type", "id", "name", "input"} &&
      (Truthy(block.at["input"]) || Same(block.at["input"], Obj(NO_FIELDS)))
    else
      block.at.Keys == {"type", "text"} && block.at["type"] == Str("text") && block.at["text"].Str?
  }

  /** A cached block is what the client gets exactly when it is plain. */
  lemma {:induction false} BlockSurvivesIff(block: Fields)
    ensures SameFields(Replayed(block), block) <==> PlainBlock(block)
  {
    var r := Replayed(block);
    if IsTool(block) {
      assert r.at.Keys == {"type", "id", "name", "input"};
      SameSelf(Get(block, "type"));
      SameSelf(Get(block, "id"));
      SameSelf(Get(block, "name"));
      SameSelf(Get(block, "input"));
      SameEmpty(Get(block, "input"));
    } else {
      assert r.at.Keys == {"type", "text"};
      assert r.at["type"] == Str("text") && r.at["text"] == Str(BlockText(block));
    }
  }

  lemma {:induction false} SameEmpty(j: Json)
    ensures Same(j, Obj(NO_FIELDS)) <==> Same(Obj(NO_FIELDS), j)
  {}

  /** The client has the cached content exactly when every block is plain. */
  lemma {:induction false} ContentSurvivesIff(content: seq<Fields>)
    ensures (forall i :: 0 <= i < |content| ==> SameFields(AllReplayed(content)[i], content[i])) <==>
            forall i :: 0 <= i < |content| ==> PlainBlock(content[i])
  {
    forall i | 0 <= i < |content| ensures SameFields(Replayed(content[i]), content[i]) <==> PlainBlock(content[i]) {
      BlockSurvivesIff(content[i]);
    }
  }

  /** A reasoning block is replayed as an empty text. */
  lemma {:induction false} ReasoningIsLost(thought: string)
    ensures var block := Fields(["type", "thinking"], map["type" := Str("thinking"), "thinking" := Str(thought)]);
            Replayed(block) == TextBlock("") && !PlainBlock(block)
  {
    var block := Fields(["type", "thinking"], map["type" := Str("thinking"), "thinking" := Str(thought)]);
    assert Get(block, "type") == Str("thinking");
    assert "thinking"[0] != "text"[0] || "thinking"[1] != "text"[1];
  }

  // ---- OpenAI chat completions

  /** The first choice of a cached completion, its message, and the text of
      that; a missing or null one is as good as empty. */
  function FirstChoice(body: Fields): Fields {
    var choices := Get(body, "choices");
    if choices.Arr? && choices.items != [] then Inner(choices.items[0]) else NO_FIELDS
  }

  function ChatContent(body: Fields): string {
    TextOf(Get(FirstChoice(body), "message"))
  }

  function TextOf(message: Json): string {
    var content := Get(Inner(message), "content");
    if content.Str? then content.s else ""
  }

  /** Each of them is a value of its kind, or nothing at all. */
  predicate ReadableChat(body: Fields) {
    var choices := Get(body, "choices");
    var message := Get(FirstChoice(body), "message");
    var content := Get(Inner(message), "content");
    && (!Truthy(choices) || (choices.Arr? && choices.items[0].Obj?))
    && (!Truthy(message) || message.Obj?) && (!Truthy(content) || content.Str?)
  }

  datatype Delta = Role | Content(s: string) | Nothing

  datatype ChatHead = ChatHead(id: Json, created: Json, model: Json)

  datatype Chunk = Chunk(head: ChatHead, delta: Delta, finishReason: Json, usage: Json)

  function DeltaJson(d: Delta): Json {
    match d
    case Role => Obj(Fields(["role"], map["role" := Str("assistant")]))
    case Content(s) => Obj(Fields(["content"], map["content" := Str(s)]))
    case Nothing => Obj(NO_FIELDS)
  }

  function ChoiceJson(d: Delta, finishReason: Json): Json {
    Obj(Fields(["index", "delta", "finish_reason"],
               map["index" := Integer(0), "delta" := DeltaJson(d), "finish_reason" := finishReason]))
  }

  /** The fields that chunks and completions have in common, and their usage
      unless it is null. */
  function Enveloped(kind: string, head: ChatHead, choice: Json, usage: Json): Fields {
    var keys := ["id", "object", "created", "model", "choices"];
    var at := map["id" := head.id, "object" := Str(kind), "created" := head.created, "model" := head.model,
                  "choices" := Arr([choice])];
    if usage == Null then Fields(keys, at) else Fields(keys + ["usage"], at["usage" := usage])
  }

  function ChunkFields(k: Chunk): Fields {
    Enveloped("chat.completion.chunk", k.head, ChoiceJson(k.delta, k.finishReason), k.usage)
  }

  function ContentChunks(head: ChatHead, pieces: seq<string>): seq<Chunk> {
    if pieces == [] then [] else [Chunk(head, Content(pieces[0]), Null, Null)] + ContentChunks(head, pieces[1..])
  }

  function ValueOr(o: Fields, key: string, default: Json): Json {
    if key in o.at then o.at[key] else default
  }

  function HeadOf(body: Fields, seconds: nat): ChatHead {
    ChatHead(OrElse(Get(body, "id"), Str("chatcmpl-" + Decimal(seconds))),
             ValueOr(body, "created", Integer(seconds)),
             ValueOr(body, "model", Str("")))
  }

  function LastChunk(body: Fields, seconds: nat): Chunk {
    Chunk(HeadOf(body, seconds), Nothing, Get(FirstChoice(body), "finish_reason"), Get(body, "usage"))
  }

  function ChatChunks(body: Fields, seconds: nat): seq<Chunk> {
    var head := HeadOf(body, seconds);
    [Chunk(head, Role, Null, Null)] + ContentChunks(head, ChunkText(ChatContent(body))) + [LastChunk(body, seconds)]
  }

  function ChunkFrames(c: Codec, ks: seq<Chunk>): (r: seq<Sent>)
    ensures |r| == |ks| && forall i :: 0 <= i < |ks| ==> r[i] == Unnamed(c.encode(Obj(ChunkFields(ks[i]))))
  {
    if ks == [] then [] else [Unnamed(c.encode(Obj(ChunkFields(ks[0]))))] + ChunkFrames(c, ks[1..])
  }

  function ReplayChat(c: Codec, body: Fields, seconds: nat): string
    requires ProperFields(body) && ReadableChat(body)
  {
    Stream(ChunkFrames(c, ChatChunks(body, seconds)) + [Unnamed(DONE_MARK)])
  }

  // ---- a client of the chat endpoint

  datatype Completion = Completion(head: ChatHead, content: string, finishReason: Json, usage: Json)

  /** One role chunk, content chunks, one chunk that says how it finished,
      then the end marker, all under the same id. */
  datatype ChatReader =
    | Opening
    | Talking(head: ChatHead, soFar: string)
    | Ending(completion: Completion)
    | Complete(completion: Completion)
    | Garbled

  function ReadDelta(o: Fields): Option<Delta> {
    if Get(o, "role") == Str("assistant") then Some(Role)
    else if Get(o, "content").Str? then Some(Content(Get(o, "content").s))
    else if o == NO_FIELDS then Some(Nothing)
    else None
  }

  function ReadChunk(o: Fields): Option<Chunk> {
    var choices := Get(o, "choices");
    if Get(o, "object") != Str("chat.completion.chunk") || !choices.Arr? || |choices.items| != 1 then None
    else
      var choice := Inner(choices.items[0]);
      var delta := ReadDelta(Inner(Get(choice, "delta")));
      if delta.None? || Get(choice, "index") != Number(0, 0) then None
      else
        Some(Chunk(ChatHead(Get(o, "id"), Get(o, "created"), Get(o, "model")),
                   delta.value, Get(choice, "finish_reason"), Get(o, "usage")))
  }

  function ChatStep(r: ChatReader, k: Chunk): ChatReader {
    match k.delta
    case Role => if r.Opening? then Talking(k.head, "") else Garbled
    case Content(s) => if r.Talking? && r.head == k.head then r.(soFar := r.soFar + s) else Garbled
    case Nothing =>
      if r.Talking? && r.head == k.head then Ending(Completion(k.head, r.soFar, k.finishReason, k.usage))
      else Garbled
  }

  function ChatFollow(r: ChatReader, ks: seq<Chunk>): ChatReader
    decreases |ks|
  {
    if ks == [] then r else ChatFollow(ChatStep(r, ks[0]), ks[1..])
  }

  function ChatMessage(c: Codec, r: ChatReader, m: Message): ChatReader {
    if m.event != "message" then Garbled
    else if m.data == DONE_MARK then (if r.Ending? then Complete(r.completion) else Garbled)
    else
      var j := c.decode(m.data);
      if j.None? then Garbled
      else
        var k := ReadChunk(Inner(j.value));
        if k.None? then Garbled else ChatStep(r, k.value)
  }

  function ChatClient(c: Codec, r: ChatReader, ms: seq<Message>): ChatReader
    decreases |ms|
  {
    if ms == [] then r else ChatClient(c, ChatMessage(c, r, ms[0]), ms[1..])
  }

  lemma {:induction false} DeltaIsReadBack(d: Delta)
    ensures ReadDelta(Inner(DeltaJson(d))) == Some(d)
  {}

  lemma {:induction false} ChoiceIsReadBack(d: Delta, finishReason: Json)
    ensures var o := Inner(ChoiceJson(d, finishReason));
            ReadDelta(Inner(Get(o, "delta"))) == Some(d) && Get(o, "finish_reason") == finishReason
            && Get(o, "index") == Number(0, 0)
  {
    DeltaIsReadBack(d);
  }

  lemma {:induction false} ChunkIsReadBack(k: Chunk)
    ensures ReadChunk(ChunkFields(k)) == Some(k)
  {
    ChoiceIsReadBack(k.delta, k.finishReason);
  }

  predicate ProperChunk(k: Chunk) {
    Proper(k.head.id) && Proper(k.head.created) && Proper(k.head.model) && Proper(k.finishReason) && Proper(k.usage)
  }

  ghost predicate AllProperChunks(ks: seq<Chunk>) {
    forall i :: 0 <= i < |ks| ==> ProperChunk(ks[i])
  }

  lemma {:induction false} ChoiceIsProper(d: Delta, finishReason: Json)
    requires Proper(finishReason)
    ensures Proper(ChoiceJson(d, finishReason))
  {
    DeltaIsProper(d);
    assert Proper(Integer(0));
    ProperByKeys(ChoiceJson(d, finishReason).fields);
  }

  lemma {:induction false} DeltaIsProper(d: Delta)
    ensures Proper(DeltaJson(d))
  {
    ProperByKeys(DeltaJson(d).fields);
  }

  lemma {:induction false} EnvelopeIsListed(kind: string, head: ChatHead, choice: Json, usage: Json)
    ensures Listed(Enveloped(kind, head, choice, usage))
  {}

  lemma {:induction false} EnvelopeIsProper(kind: string, head: ChatHead, choice: Json, usage: Json)
    requires Proper(head.id) && Proper(head.created) && Proper(head.model) && Proper(choice) && Proper(usage)
    ensures ProperFields(Enveloped(kind, head, choice, usage))
  {
    EnvelopeIsListed(kind, head, choice, usage);
    assert Proper(Arr([choice])) && Proper(Str(kind));
    ProperByKeys(Enveloped(kind, head, choice, usage));
  }

  lemma {:induction false} ChunkIsProper(k: Chunk)
    requires ProperChunk(k)
    ensures ProperFields(ChunkFields(k))
  {
    ChoiceIsProper(k.delta, k.finishReason);
    EnvelopeIsProper("chat.completion.chunk", k.head, ChoiceJson(k.delta, k.finishReason), k.usage);
  }

  lemma {:induction false} DecodedDrives(c: Codec, r: ChatReader, data: string, d: Fields, k: Chunk)
    requires data != DONE_MARK && c.decode(data) == Some(Obj(d)) && ReadChunk(d) == Some(k)
    ensures ChatMessage(c, r, Received(Unnamed(data))) == ChatStep(r, k)
  {}

  lemma {:induction false} ChunkDrivesTheClient(c: Codec, r: ChatReader, k: Chunk)
    requires Faithful(c) && ProperChunk(k)
    ensures ChatMessage(c, r, Received(Unnamed(c.encode(Obj(ChunkFields(k)))))) == ChatStep(r, k)
  {
    ChunkIsReadBack(k);
    ChunkIsProper(k);
    var d := ChunkFields(k);
    assert c.decode(c.encode(Obj(d))) == Some(Obj(d)) by {
      assert Proper(Obj(d));
    }
    DecodedDrives(c, r, c.encode(Obj(d)), d, k);
  }

  lemma {:induction false} ChunksDriveTheClient(c: Codec, r: ChatReader, ks: seq<Chunk>)
    requires Faithful(c) && AllProperChunks(ks)
    ensures ChatClient(c, r, AllReceived(ChunkFrames(c, ks) + [Unnamed(DONE_MARK)]))
            == var e := ChatFollow(r, ks); if e.Ending? then Complete(e.completion) else Garbled
    decreases |ks|
  {
    var sent := ChunkFrames(c, ks) + [Unnamed(DONE_MARK)];
    var ms := AllReceived(sent);
    assert ms[1..] == AllReceived(sent[1..]);
    if ks == [] {
      assert sent == [Unnamed(DONE_MARK)];
      assert ms[1..] == [];
    } else {
      assert sent[1..] == ChunkFrames(c, ks[1..]) + [Unnamed(DONE_MARK)];
      ChunkDrivesTheClient(c, r, ks[0]);
      ChunksDriveTheClient(c, ChatStep(r, ks[0]), ks[1..]);
    }
  }

  lemma {:induction false} PiecesAreJoined(head: ChatHead, soFar: string, pieces: seq<string>, last: Chunk)
    requires last.head == head && last.delta == Nothing
    ensures ChatFollow(Talking(head, soFar), ContentChunks(head, pieces) + [last])
            == Ending(Completion(head, soFar + Joined(pieces), last.finishReason, last.usage))
    decreases |pieces|
  {
    var ks := ContentChunks(head, pieces) + [last];
    if pieces == [] {
      assert ks == [last] && ks[1..] == [];
      assert soFar + "" == soFar;
    } else {
      assert ks[1..] == ContentChunks(head, pieces[1..]) + [last];
      PiecesAreJoined(head, soFar + pieces[0], pieces[1..], last);
      Assoc(soFar, pieces[0], Joined(pieces[1..]));
    }
  }

  /** The completion a client should have. */
  function ChatReply(body: Fields, seconds: nat): Completion {
    Completion(HeadOf(body, seconds), ChatContent(body), Get(FirstChoice(body), "finish_reason"), Get(body, "usage"))
  }

  /** What the completion is, from the cached body: its id or one made of the time,
      when it was created or the time, its model or none, and its usage. */
  lemma {:induction false} ChatReplyMeaning(body: Fields, seconds: nat)
    ensures var k := ChatReply(body, seconds);
            && k.head.id == (if Truthy(Get(body, "id")) then Get(body, "id") else Str("chatcmpl-" + Decimal(seconds)))
            && k.head.created == (if "created" in body.at then body.at["created"] else Number(seconds, 0))
            && k.head.model == (if "model" in body.at then body.at["model"] else Str(""))
            && k.usage == Get(body, "usage")
  {}

  /** Its text and finish reason are those of the first choice, however many there
      are; without a choice, a message or a text there is none. */
  lemma {:induction false} FirstChoiceIsSent(body: Fields, seconds: nat, first: Fields, others: seq<Json>)
    ensures Get(body, "choices") == Arr([Obj(first)] + others) ==>
              var k, message := ChatReply(body, seconds), Inner(Get(first, "message"));
              && k.finishReason == Get(first, "finish_reason")
              && k.content == if Get(message, "content").Str? then Get(message, "content").s else ""
    ensures !Truthy(Get(body, "choices")) ==>
              ChatReply(body, seconds).content == "" && ChatReply(body, seconds).finishReason == Null
  {}

  lemma {:induction false} ChunksGiveTheCompletion(body: Fields, seconds: nat)
    ensures ChatFollow(Opening, ChatChunks(body, seconds)) == Ending(ChatReply(body, seconds))
  {
    var head, pieces := HeadOf(body, seconds), ChunkText(ChatContent(body));
    assert ChatChunks(body, seconds)[1..] == ContentChunks(head, pieces) + [LastChunk(body, seconds)];
    PiecesAreJoined(head, "", pieces, LastChunk(body, seconds));
    ChunksAreTheText(ChatContent(body));
    assert "" + ChatContent(body) == ChatContent(body);
  }

  lemma {:induction false} PiecesAreProper(head: ChatHead, pieces: seq<string>)
    requires Proper(head.id) && Proper(head.created) && Proper(head.model)
    ensures AllProperChunks(ContentChunks(head, pieces))
  {
    if pieces != [] {
      PiecesAreProper(head, pieces[1..]);
    }
  }

  lemma {:induction false} FirstChoiceIsProper(body: Fields)
    requires ProperFields(body)
    ensures ProperFields(FirstChoice(body))
  {
    var choices := Get(body, "choices");
    GetIsProper(body, "choices");
    if choices.Arr? && choices.items != [] {
      InnerIsProper(choices.items[0]);
    }
  }

  lemma {:induction false} ChunksAreProper(body: Fields, seconds: nat)
    requires ProperFields(body)
    ensures AllProperChunks(ChatChunks(body, seconds))
  {
    var head := HeadOf(body, seconds);
    GetIsProper(body, "id");
    GetIsProper(body, "usage");
    GetIsProper(body, "choices");
    FirstChoiceIsProper(body);
    GetIsProper(FirstChoice(body), "finish_reason");
    PiecesAreProper(head, ChunkText(ChatContent(body)));
  }

  lemma {:induction false} ChunksFit(c: Codec, ks: seq<Chunk>)
    requires Faithful(c) && AllProperChunks(ks)
    ensures var sent := ChunkFrames(c, ks) + [Unnamed(DONE_MARK)]; NamesFit(sent) && DataFits(sent)
  {
    var sent := ChunkFrames(c, ks) + [Unnamed(DONE_MARK)];
    forall i | 0 <= i < |sent| ensures sent[i].Unnamed? && OneLine(sent[i].data) {
      if i < |ks| {
        ChunkIsProper(ks[i]);
        assert sent[i].data == c.encode(Obj(ChunkFields(ks[i])));
      }
    }
  }

  /** Printed, parsed and followed, a replayed completion has the cached
      content, finish reason and usage. */
  lemma {:induction false} ReplayedChatIsReassembled(c: Codec, body: Fields, seconds: nat)
    requires Faithful(c) && ProperFields(body) && ReadableChat(body)
    ensures ChatClient(c, Opening, Parse(ReplayChat(c, body, seconds))) == Complete(ChatReply(body, seconds))
  {
    var ks := ChatChunks(body, seconds);
    ChunksAreProper(body, seconds);
    ChunksFit(c, ks);
    ParsingUndoesPrinting(ChunkFrames(c, ks) + [Unnamed(DONE_MARK)]);
    ChunksDriveTheClient(c, Opening, ks);
    ChunksGiveTheCompletion(body, seconds);
  }

  /** Two cached completions give the same stream exactly when a client ends up
      with the same completion. */
  lemma {:induction false} SameChatStreamIff(c: Codec, a: Fields, b: Fields, seconds: nat)
    requires Faithful(c) && ProperFields(a) && ReadableChat(a) && ProperFields(b) && ReadableChat(b)
    ensures ReplayChat(c, a, seconds) == ReplayChat(c, b, seconds) <==> ChatReply(a, seconds) == ChatReply(b, seconds)
  {
    ReplayedChatIsReassembled(c, a, seconds);
    ReplayedChatIsReassembled(c, b, seconds);
    if ChatReply(a, seconds) == ChatReply(b, seconds) {
      assert ChatChunks(a, seconds) == ChatChunks(b, seconds);
    }
  }

  // ---- which completions survive

  function MessageJson(content: string): Json {
    Obj(Fields(["role", "content"], map["role" := Str("assistant"), "content" := Str(content)]))
  }

  function WholeChoice(message: Json, finishReason: Json): Json {
    Obj(Fields(["index", "message", "finish_reason"],
               map["index" := Integer(0), "message" := message, "finish_reason" := finishReason]))
  }

  /** A completion as its endpoint gives it without streaming. */
  function CompletionFields(k: Completion): Fields {
    Enveloped("chat.completion", k.head, WholeChoice(MessageJson(k.content), k.finishReason), k.usage)
  }

  predicate PlainMessage(message: Json) {
    && message.Obj? && message.fields.at.Keys == {"role", "content"}
    && message.fields.at["role"] == Str("assistant") && message.fields.at["content"].Str?
  }

  predicate PlainChoice(choice: Json) {
    && choice.Obj? && choice.fields.at.Keys == {"index", "message", "finish_reason"}
    && choice.fields.at["index"] == Integer(0) && PlainMessage(choice.fields.at["message"])
  }

  predicate PlainChoices(choices: Json) {
    choices.Arr? && |choices.items| == 1 && PlainChoice(choices.items[0])
  }

  /** A completion of exactly the fields that the chunks carry: one choice, a
      message with a text and nothing else, and no usage rather than a null. */
  predicate PlainCompletion(body: Fields) {
    && body.at.Keys == EnvelopeKeys(Get(body, "usage")) && Truthy(body.at["id"])
    && body.at["object"] == Str("chat.completion") && PlainChoices(body.at["choices"])
  }

  function EnvelopeKeys(usage: Json): set<string> {
    {"id", "object", "created", "model", "choices"} + if usage == Null then {} else {"usage"}
  }

  /** The text of a message is what the replay sends of it. */
  lemma {:induction false} MessageSurvivesIff(message: Json, content: string)
    requires content == TextOf(message)
    ensures Same(MessageJson(content), message) <==> PlainMessage(message)
  {
    var sent := MessageJson(content).fields;
    assert sent.at.Keys == {"role", "content"};
    assert Same(sent.at["role"], Get(Inner(message), "role")) <==> Get(Inner(message), "role") == Str("assistant");
    assert Same(sent.at["content"], Get(Inner(message), "content")) <==> Get(Inner(message), "content") == Str(content);
    if PlainMessage(message) {
      assert message.fields.at["role"] == Str("assistant") && message.fields.at["content"] == Str(content);
    }
  }

  lemma {:induction false} ChoiceSurvivesIff(choice: Json, message: Json)
    requires Same(message, Get(Inner(choice), "message")) <==> PlainMessage(Get(Inner(choice), "message"))
    ensures Same(WholeChoice(message, Get(Inner(choice), "finish_reason")), choice) <==> PlainChoice(choice)
  {
    var reason := Get(Inner(choice), "finish_reason");
    var sent, given := WholeChoice(message, reason).fields, Inner(choice);
    assert sent.at.Keys == {"index", "message", "finish_reason"};
    assert sent.at["index"] == Integer(0) && sent.at["message"] == message && sent.at["finish_reason"] == reason;
    SameSelf(reason);
    if choice.Obj? && given.at.Keys == sent.at.Keys {
      SameChoiceFields(sent, given);
      assert given.at["message"] == Get(given, "message") && given.at["finish_reason"] == reason;
    }
  }

  lemma {:induction false} SameChoiceFields(d: Fields, e: Fields)
    requires d.at.Keys == e.at.Keys == {"index", "message", "finish_reason"}
    ensures SameFields(d, e) <==>
            Same(d.at["index"], e.at["index"]) && Same(d.at["message"], e.at["message"]) &&
            Same(d.at["finish_reason"], e.at["finish_reason"])
  {}

  lemma {:induction false} EnvelopeHolds(head: ChatHead, choice: Json, usage: Json)
    ensures var d := Enveloped("chat.completion", head, choice, usage).at;
            && d.Keys == EnvelopeKeys(usage) && d["id"] == head.id && d["object"] == Str("chat.completion")
            && d["created"] == head.created && d["model"] == head.model && d["choices"] == Arr([choice])
            && (usage != Null ==> d["usage"] == usage)
  {}

  /** Every key of the envelope, one after another. */
  lemma {:induction false} SameEnvelope(d: Fields, e: Fields, usage: Json)
    requires d.at.Keys == e.at.Keys == EnvelopeKeys(usage)
    ensures SameFields(d, e) <==>
            Same(d.at["id"], e.at["id"]) && Same(d.at["object"], e.at["object"]) &&
            Same(d.at["created"], e.at["created"]) && Same(d.at["model"], e.at["model"]) &&
            Same(d.at["choices"], e.at["choices"]) && (usage != Null ==> Same(d.at["usage"], e.at["usage"]))
  {}

  lemma {:induction false} ChoicesSurviveIff(body: Fields, choice: Json)
    requires choice == WholeChoice(MessageJson(ChatContent(body)), Get(FirstChoice(body), "finish_reason"))
    ensures Same(Arr([choice]), Get(body, "choices")) <==> PlainChoices(Get(body, "choices"))
  {
    var choices := Get(body, "choices");
    if choices.Arr? && |choices.items| == 1 {
      MessageSurvivesIff(Get(Inner(choices.items[0]), "message"), ChatContent(body));
      ChoiceSurvivesIff(choices.items[0], MessageJson(ChatContent(body)));
    }
  }

  /** The client has the cached completion exactly when it is plain; a second
      choice, tool calls, or a null content are lost. */
  lemma {:induction false} CompletionSurvivesIff(body: Fields, seconds: nat)
    ensures SameFields(CompletionFields(ChatReply(body, seconds)), body) <==> PlainCompletion(body)
  {
    var k := ChatReply(body, seconds);
    var choice := WholeChoice(MessageJson(k.content), k.finishReason);
    EnvelopeHolds(k.head, choice, k.usage);
    ChoicesSurviveIff(body, choice);
    if body.at.Keys == EnvelopeKeys(k.usage) {
      SameEnvelope(CompletionFields(k), body, k.usage);
      SameSelf(k.head.created);
      SameSelf(k.head.model);
      SameSelf(k.usage);
      SameSelf(k.head.id);
      IdSurvivesIff(body, seconds);
    }
  }

  /** A message with tool calls comes back without them. */
  lemma {:induction false} ToolCallsAreLost(body: Fields, seconds: nat)
    requires "tool_calls" in Inner(Get(FirstChoice(body), "message")).at
    ensures !SameFields(CompletionFields(ChatReply(body, seconds)), body)
  {
    CompletionSurvivesIff(body, seconds);
    PlainInside(body);
    assert "tool_calls" !in {"role", "content"};
  }

  lemma {:induction false} PlainInside(body: Fields)
    ensures PlainCompletion(body) ==> PlainMessage(Get(FirstChoice(body), "message"))
  {}

  lemma {:induction false} IdSurvivesIff(body: Fields, seconds: nat)
    requires "id" in body.at
    ensures Same(HeadOf(body, seconds).id, body.at["id"]) <==> Truthy(body.at["id"])
  {
    var id, default := body.at["id"], Str("chatcmpl-" + Decimal(seconds));
    SameSelf(id);
    assert HeadOf(body, seconds).id == OrElse(id, default);
    assert default.s[0] == 'c' && Truthy(default);
    assert Same(default, id) ==> default == id;
  }
}
