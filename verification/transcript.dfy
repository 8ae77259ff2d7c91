/**
 One decoded row of a transcript (`.jsonl`) file, as both the live-event
 watcher and the agent summariser read it. Decoding (`JSON.parse`) is not
 modelled: a file arrives as its non-empty lines, each either a decoded
 `Line` or `None` for a line that failed to parse.

 Fields whose only use is a truthiness test, and whose value is copied only
 when truthy (block text, thinking, tool name and id), are plain strings with
 "" standing for both "absent" and "empty". Of the fields copied verbatim,
 agentId, slug, model and usage are `Option`s, so that `undefined` is
 observable; uuid, timestamp and sessionId are plain strings, so a missing
 one reads as "".
 */
module Transcript {
  import opened Js

  /** The `type` of a line. */
  datatype LineKind = Assistant | User | OtherKind(name: string)

  /** The tool input record, kept as each value's JSON text. */
  type ToolInput = map<string, string>

  /** One content block of a message, by its `type`. A number, string or
      boolean entry has no `type` and is an `OtherBlock`; a `null` entry,
      on which the source's `block.type` throws, has no decoded form. */
  datatype Block =
    | TextBlock(text: string)
    | ThinkingBlock(thinking: string)
    | ToolUseBlock(id: string, name: string, input: Option<ToolInput>)
    | OtherBlock(kind: string)

  /** `message.content`: a plain string or an array of blocks. A missing
      content is decoded as the empty string, which both readers treat the
      same way as `undefined`. */
  datatype Content = Str(s: string) | Blocks(blocks: seq<Block>)

  /** `message.usage`. */
  datatype Usage = Usage(
    inputTokens: nat,
    outputTokens: nat,
    cacheCreationInputTokens: Option<nat>,
    cacheReadInputTokens: Option<nat>)

  datatype Message = Message(model: Option<string>, content: Content, usage: Option<Usage>)

  /** `toolUseResult.file`. */
  datatype FileRef = FileRef(filePath: string, content: Option<string>)

  /** A truthy `toolUseResult`; a falsy one is decoded as `None`. */
  datatype ToolUseResult = ToolUseResult(file: Option<FileRef>)

  datatype Line = Line(
    kind: LineKind,
    uuid: string,
    timestamp: string,
    sessionId: string,
    agentId: Option<string>,
    slug: Option<string>,
    message: Option<Message>,
    toolUseResult: Option<ToolUseResult>)

  /** The non-empty lines of one file, each decoded or `None`. */
  type Body = seq<Option<Line>>

  /** `line.message?.model`. */
  function ModelOf(line: Line): Option<string> {
    match line.message
    case None => None
    case Some(m) => m.model
  }

  /** Truthiness of `message.content`: an array always, a string when non-empty. */
  predicate ContentTruthy(c: Content) {
    c.Blocks? || c.s != ""
  }
}
