/**
 `extractEvents` of the transcript watcher: one decoded transcript line
 becomes zero or more live events. Only assistant lines with array content
 and user lines carrying a `toolUseResult` produce any.
 */
module Events {
  import opened Js
  import opened Transcript

  /** `ParsedEvent.type`. `UserMessage` is declared by the source but never
      produced. */
  datatype EventType = Thinking | ToolCall | ToolResult | Response | UserMessage

  /** `ParsedEvent`: the common part copied from the line, then the optional
      payload fields of each event type. */
  datatype ParsedEvent = ParsedEvent(
    id: string,
    kind: EventType,
    timestamp: string,
    sessionId: string,
    model: Option<string>,
    isAgent: bool,
    agentId: Option<string>,
    thinking: Option<string>,
    toolName: Option<string>,
    toolInput: Option<ToolInput>,
    toolResult: Option<string>,
    filePath: Option<string>,
    text: Option<string>,
    inputTokens: Option<nat>,
    outputTokens: Option<nat>,
    cacheRead: Option<nat>,
    cacheWrite: Option<nat>)

  /** Length of the excerpt kept from a tool result's file content. */
  const ResultExcerptLength := 500

  /** The event carries the line's session, timestamp, model and agent. */
  predicate CopiesLine(e: ParsedEvent, line: Line) {
    && e.sessionId == line.sessionId
    && e.timestamp == line.timestamp
    && e.model == ModelOf(line)
    && e.isAgent == Truthy(line.agentId)
    && e.agentId == line.agentId
  }

  /** The event carries none of the four usage counters. */
  predicate NoUsage(e: ParsedEvent) {
    e.inputTokens.None? && e.outputTokens.None? && e.cacheRead.None? && e.cacheWrite.None?
  }

  /** `baseEvent` spread into a new event of the given id and type. */
  function Base(line: Line, id: string, kind: EventType): (e: ParsedEvent)
    ensures CopiesLine(e, line) && NoUsage(e)
  {
    ParsedEvent(id, kind, line.timestamp, line.sessionId, ModelOf(line),
                Truthy(line.agentId), line.agentId,
                None, None, None, None, None, None, None, None, None, None)
  }

  /** The blocks the loop turns into an event: thinking with text, text with
      text, and tool_use with a name. */
  predicate Emits(b: Block) {
    match b
    case ThinkingBlock(t) => t != ""
    case TextBlock(t) => t != ""
    case ToolUseBlock(_, name, _) => name != ""
    case OtherBlock(_) => false
  }

  /** `message.usage`, if the line has one. */
  function UsageOf(line: Line): Option<Usage> {
    match line.message
    case None => None
    case Some(m) => m.usage
  }

  /** The response event copies the four counters from the line's usage,
      or carries none when the line has no usage. */
  predicate UsageCopied(e: ParsedEvent, u: Option<Usage>) {
    && (u.None? ==> NoUsage(e))
    && (u.Some? ==>
          && e.inputTokens == Some(u.value.inputTokens)
          && e.outputTokens == Some(u.value.outputTokens)
          && e.cacheRead == u.value.cacheReadInputTokens
          && e.cacheWrite == u.value.cacheCreationInputTokens)
  }

  /** What every event produced from `line` looks like, per event type: the
      line's common fields; usage counters on responses only; the id suffix
      of its type; a non-empty payload. */
  predicate WellFormed(e: ParsedEvent, line: Line) {
    && CopiesLine(e, line)
    && e.kind != UserMessage
    && (e.kind != Response ==> NoUsage(e))
    && (e.kind == Response ==>
          e.id == line.uuid + "-text" && e.text.Some? && e.text.value != "" && UsageCopied(e, UsageOf(line)))
    && (e.kind == Thinking ==>
          e.id == line.uuid + "-thinking" && e.thinking.Some? && e.thinking.value != "")
    && (e.kind == ToolCall ==> e.toolName.Some? && e.toolName.value != "")
    && (e.kind == ToolResult ==> e.id == line.uuid + "-result")
  }

  /** The event pushed for one emitting block. */
  function BlockEvent(line: Line, b: Block): (e: ParsedEvent)
    requires Emits(b)
    ensures WellFormed(e, line)
    ensures e.kind == Thinking <==> b.ThinkingBlock?
    ensures e.kind == Response <==> b.TextBlock?
    ensures e.kind == ToolCall <==> b.ToolUseBlock?
    ensures b.ToolUseBlock? ==> e.id == (if b.id != "" then b.id else line.uuid + "-tool")
    // the block's own payload
    ensures b.ThinkingBlock? ==> e.thinking == Some(b.thinking)
    ensures b.TextBlock? ==> e.text == Some(b.text)
    ensures b.ToolUseBlock? ==> e.toolName == Some(b.name) && e.toolInput == b.input
  {
    match b
    case ThinkingBlock(t) =>
      Base(line, line.uuid + "-thinking", Thinking).(thinking := Some(t))
    case TextBlock(t) =>
      var u := UsageOf(line);
      Base(line, line.uuid + "-text", Response).(
        text := Some(t),
        inputTokens := if u.Some? then Some(u.value.inputTokens) else None,
        outputTokens := if u.Some? then Some(u.value.outputTokens) else None,
        cacheRead := if u.Some? then u.value.cacheReadInputTokens else None,
        cacheWrite := if u.Some? then u.value.cacheCreationInputTokens else None)
    case ToolUseBlock(id, name, input) =>
      Base(line, if id != "" then id else line.uuid + "-tool", ToolCall).(
        toolName := Some(name), toolInput := input)
  }

  /** The `for (const block of content)` loop: one event per emitting block,
      in block order. */
  function BlockEvents(line: Line, blocks: seq<Block>): (r: seq<ParsedEvent>)
    ensures |r| == |Filter(blocks, Emits)|
    ensures forall k :: 0 <= k < |r| ==> r[k] == BlockEvent(line, Filter(blocks, Emits)[k])
  {
    var emitting := Filter(blocks, Emits);
    seq(|emitting|, k requires 0 <= k < |emitting| => BlockEvent(line, emitting[k]))
  }

  /** `toolUseResult.file?.content?.slice(0, 500)`. */
  function Excerpt(t: ToolUseResult): (r: Option<string>)
    ensures r.Some? <==> t.file.Some? && t.file.value.content.Some?
    ensures r.Some? ==> var c := t.file.value.content.value;
              |r.value| == Min(|c|, ResultExcerptLength) && r.value == c[..|r.value|]
  {
    match t.file
    case None => None
    case Some(f) =>
      match f.content
      case None => None
      case Some(c) => Some(Slice(c, 0, ResultExcerptLength))
  }

  /** The line is an assistant line whose content is an array of blocks. */
  predicate IsAssistantBlocks(line: Line) {
    line.kind == Assistant && line.message.Some? && line.message.value.content.Blocks?
  }

  /** The line takes the `tool_result` branch. */
  predicate IsToolResultLine(line: Line) {
    line.kind == User && line.toolUseResult.Some?
  }

  /** `extractEvents`. */
  function ExtractEvents(line: Line): (r: seq<ParsedEvent>)
    // which lines produce anything, and how much
    ensures !IsAssistantBlocks(line) && !IsToolResultLine(line) ==> r == []
    ensures IsAssistantBlocks(line) ==>
              var blocks := line.message.value.content.blocks;
              |r| == |Filter(blocks, Emits)| && |r| <= |blocks| &&
              forall k :: 0 <= k < |r| ==> r[k] == BlockEvent(line, Filter(blocks, Emits)[k])
    ensures IsToolResultLine(line) ==>
              var t := line.toolUseResult.value;
              && |r| == 1 && r[0].kind == ToolResult
              && r[0].filePath == (if t.file.Some? then Some(t.file.value.filePath) else None)
              && r[0].toolResult == Excerpt(t)
  {
    if line.kind == Assistant && line.message.Some? && ContentTruthy(line.message.value.content) then
      match line.message.value.content
      case Str(_) => []   // iterating a string visits characters, none of which is a block
      case Blocks(blocks) => BlockEvents(line, blocks)
    else if line.kind == User && line.toolUseResult.Some? then
      var t := line.toolUseResult.value;
      [Base(line, line.uuid + "-result", ToolResult).(
         filePath := if t.file.Some? then Some(t.file.value.filePath) else None,
         toolResult := Excerpt(t))]
    else []
  }

  /** What every event of a line carries: the line's common fields, the
      payload of its type, and, for a tool call, the id of one of the
      line's `tool_use` blocks (or the line's `<uuid>-tool`). */
  lemma ExtractEventsWellFormed(line: Line)
    ensures var r := ExtractEvents(line);
            && (forall k :: 0 <= k < |r| ==> WellFormed(r[k], line))
            && (forall k :: 0 <= k < |r| && r[k].kind == ToolCall ==>
                  IsAssistantBlocks(line) &&
                  exists b :: b in line.message.value.content.blocks && b.ToolUseBlock? &&
                              r[k].id == (if b.id != "" then b.id else line.uuid + "-tool"))
  {
    var r := ExtractEvents(line);
    if IsAssistantBlocks(line) {
      var emitting := Filter(line.message.value.content.blocks, Emits);
      forall k | 0 <= k < |r|
        ensures WellFormed(r[k], line)
        ensures r[k].kind == ToolCall ==>
                  exists b :: b in line.message.value.content.blocks && b.ToolUseBlock? &&
                              r[k].id == (if b.id != "" then b.id else line.uuid + "-tool")
      {
        assert r[k] == BlockEvent(line, emitting[k]);
        assert emitting[k] in line.message.value.content.blocks;
      }
    }
  }

  /** Two non-empty text blocks on one assistant line give two response
      events with the same id `<uuid>-text`; nothing tells them apart by id. */
  lemma TextEventsShareId(line: Line, a: string, b: string)
    requires line.kind == Assistant && line.message.Some?
    requires line.message.value.content == Blocks([TextBlock(a), TextBlock(b)])
    requires a != "" && b != ""
    ensures var r := ExtractEvents(line);
            |r| == 2 && r[0].id == r[1].id == line.uuid + "-text" &&
            r[0].text == Some(a) && r[1].text == Some(b)
  {
    var blocks := [TextBlock(a), TextBlock(b)];
    FilterKeepsAll(blocks, Emits);
    var r := ExtractEvents(line);
    assert r[0] == BlockEvent(line, blocks[0]);
    assert r[1] == BlockEvent(line, blocks[1]);
  }

  /** A thinking block, a text block and a named tool_use block give, in
      that order, a thinking event, a response carrying the text, and a tool
      call whose id is the block's own. */
  lemma ThreeBlocksInOrder(line: Line, t: string, text: string, id: string, name: string, input: Option<ToolInput>)
    requires line.kind == Assistant && line.message.Some?
    requires line.message.value.content ==
             Blocks([ThinkingBlock(t), TextBlock(text), ToolUseBlock(id, name, input)])
    requires t != "" && text != "" && id != "" && name != ""
    ensures var r := ExtractEvents(line);
            && |r| == 3
            && r[0].kind == Thinking && r[0].thinking == Some(t)
            && r[1].kind == Response && r[1].text == Some(text)
            && r[2].kind == ToolCall && r[2].id == id && r[2].toolName == Some(name) && r[2].toolInput == input
  {
    var blocks := [ThinkingBlock(t), TextBlock(text), ToolUseBlock(id, name, input)];
    FilterKeepsAll(blocks, Emits);
    var r := ExtractEvents(line);
    assert r[0] == BlockEvent(line, blocks[0]);
    assert r[1] == BlockEvent(line, blocks[1]);
    assert r[2] == BlockEvent(line, blocks[2]);
  }

  /** A user line whose `toolUseResult` has no `file` still yields one
      `tool_result` event, with neither a file path nor a result excerpt. */
  lemma ResultEventWithoutFile(line: Line)
    requires line.kind == User && line.toolUseResult == Some(ToolUseResult(None))
    ensures var r := ExtractEvents(line);
            |r| == 1 && r[0].kind == ToolResult && r[0].id == line.uuid + "-result" &&
            r[0].filePath.None? && r[0].toolResult.None?
  {
  }

  /** An assistant line whose content is a plain string yields nothing. */
  lemma StringContentYieldsNothing(line: Line)
    requires line.kind == Assistant && line.message.Some? && line.message.value.content.Str?
    ensures ExtractEvents(line) == []
  {
  }
}
