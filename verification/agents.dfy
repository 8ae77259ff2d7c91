/**
 The agent summariser: every recent `agent-*.jsonl` transcript is folded
 into one `AgentInfo` record (identity, model, status, counts, a name and a
 guessed agent type), and the records are queried by session, by id, or
 counted into statistics.
 */
module Agents {
  import opened Js
  import opened Transcript
  import opened Discovery
  import Sorting
  import Tally

  const DefaultWindowMinutes := 120
  const WideWindowMinutes := 240
  const ActiveWithinMinutes := 5
  const FirstMessageLength := 200
  const ShortIdLength := 8
  const InitialModel := "unknown"

  /** `AgentInfo['type']`. */
  datatype AgentType = Explore | Plan | CodeReview | General | UnknownType

  /** `AgentInfo['status']`; the declared `'unknown'` is never produced. */
  datatype AgentStatus = Active | Completed

  datatype AgentInfo = AgentInfo(
    agentId: string,
    sessionId: string,
    name: string,
    model: string,
    status: AgentStatus,
    messageCount: nat,
    toolCalls: nat,
    startTime: string,
    lastActivity: string,
    projectPath: string,
    filePath: FilePath,
    firstMessage: string,
    agentType: AgentType)

  // ---------------------------------------------------------------------
  // inferAgentType
  // ---------------------------------------------------------------------

  const ExploreWords: seq<string> := ["explore", "search", "find"]
  const PlanWords: seq<string> := ["plan", "architect", "design"]
  const ReviewWords: seq<string> := ["review", "audit", "check"]
  const GeneralWord: string := "warmup"

  /** `words.some(w => s.includes(w))`. */
  predicate IncludesAny(s: string, words: seq<string>) {
    exists i :: 0 <= i < |words| && Includes(s, words[i])
  }

  /** `inferAgentType`: the first keyword group, in the order explore, plan,
      review, warm-up, that the lower-cased message mentions. */
  function InferAgentType(firstMessage: string): (r: AgentType)
    ensures var lower := Lower(firstMessage);
            && (r == Explore <==> IncludesAny(lower, ExploreWords))
            && (r == Plan <==> !IncludesAny(lower, ExploreWords) && IncludesAny(lower, PlanWords))
            && (r == CodeReview <==>
                  !IncludesAny(lower, ExploreWords) && !IncludesAny(lower, PlanWords) && IncludesAny(lower, ReviewWords))
            && (r == General <==>
                  !IncludesAny(lower, ExploreWords) && !IncludesAny(lower, PlanWords) &&
                  !IncludesAny(lower, ReviewWords) && Includes(lower, GeneralWord))
  {
    var lower := Lower(firstMessage);
    IncludesOneOfThree(lower, "explore", "search", "find");
    IncludesOneOfThree(lower, "plan", "architect", "design");
    IncludesOneOfThree(lower, "review", "audit", "check");
    IncludesSelf(lower);
    if Includes(lower, "explore") || Includes(lower, "search") || Includes(lower, "find") then Explore
    else if Includes(lower, "plan") || Includes(lower, "architect") || Includes(lower, "design") then Plan
    else if Includes(lower, "review") || Includes(lower, "audit") || Includes(lower, "check") then CodeReview
    else if Includes(lower, "warmup") || lower == "warmup" then General
    else UnknownType
  }

  /** The case of the message does not matter. */
  lemma InferAgentTypeIgnoresCase(m: string)
    ensures InferAgentType(Lower(m)) == InferAgentType(m)
  {
    LowerIdempotent(m);
  }

  /** A keyword written in any case anywhere in the message decides its
      group over every later group: a message mentioning an explore word is
      an explore agent whatever else it says. */
  lemma MentionDecides(before: string, w: string, after: string)
    requires Lower(w) in ExploreWords
    ensures InferAgentType(before + w + after) == Explore
  {
    LowerAppend(before + w, after);
    LowerAppend(before, w);
    IncludesMiddle(Lower(before), Lower(w), Lower(after));
    var i :| 0 <= i < |ExploreWords| && ExploreWords[i] == Lower(w);
  }

  /** A plan word, in any case, makes a plan agent unless an explore word
      is also there. */
  lemma PlanMentionDecides(before: string, w: string, after: string)
    requires Lower(w) in PlanWords
    requires !IncludesAny(Lower(before + w + after), ExploreWords)
    ensures InferAgentType(before + w + after) == Plan
  {
    LowerAppend(before + w, after);
    LowerAppend(before, w);
    IncludesMiddle(Lower(before), Lower(w), Lower(after));
    var i :| 0 <= i < |PlanWords| && PlanWords[i] == Lower(w);
  }

  /** "Let's explore and also review the code" is an explore agent, not a
      code-review agent: the explore group comes first. */
  lemma ExploreBeatsReview()
    ensures InferAgentType("Let's " + "explore" + " and also review the code") == Explore
  {
    assert Lower("explore") == "explore";
    MentionDecides("Let's ", "explore", " and also review the code");
  }

  // ---------------------------------------------------------------------
  // normalizeModelName
  // ---------------------------------------------------------------------

  /** `normalizeModelName`: the family name when the model id mentions one,
      looked for in the order opus, sonnet, haiku; otherwise the id itself. */
  function NormalizeModelName(model: string): (r: string)
    ensures Includes(model, r)
    ensures r == "opus" <==> Includes(model, "opus")
    ensures r == "sonnet" <==> !Includes(model, "opus") && Includes(model, "sonnet")
    ensures r == "haiku" <==> !Includes(model, "opus") && !Includes(model, "sonnet") && Includes(model, "haiku")
    ensures !Includes(model, "opus") && !Includes(model, "sonnet") && !Includes(model, "haiku") ==> r == model
  {
    IncludesSelf(model);
    if Includes(model, "opus") then "opus"
    else if Includes(model, "sonnet") then "sonnet"
    else if Includes(model, "haiku") then "haiku"
    else model
  }

  /** Normalizing a normalized name changes nothing. */
  lemma NormalizeIdempotent(model: string)
    ensures NormalizeModelName(NormalizeModelName(model)) == NormalizeModelName(model)
  {
    var r := NormalizeModelName(model);
    if r == "sonnet" || r == "haiku" {
      MissingCharExcludes(r, "opus", 1);
    }
    if r == "haiku" {
      MissingCharExcludes(r, "sonnet", 0);
    }
  }

  // ---------------------------------------------------------------------
  // extractMessageContent
  // ---------------------------------------------------------------------

  /** The position of the first `text` block. */
  function FirstTextIndex(blocks: seq<Block>): (r: Option<nat>)
    ensures r.Some? ==> r.value < |blocks| && blocks[r.value].TextBlock?
    ensures forall j :: 0 <= j < |blocks| && (r.None? || j < r.value) ==> !blocks[j].TextBlock?
  {
    if blocks == [] then None
    else if blocks[0].TextBlock? then Some(0)
    else
      match FirstTextIndex(blocks[1..])
      case None => None
      case Some(i) => Some(i + 1)
  }

  /** `extractMessageContent`: a string content as it is; for blocks, the
      text of the first `text` block, or "" when there is none. */
  function ExtractMessageContent(c: Content): (r: string)
    ensures c.Str? ==> r == c.s
    ensures c.Blocks? && r != "" ==>
              exists i :: 0 <= i < |c.blocks| && c.blocks[i] == TextBlock(r) &&
                          forall j :: 0 <= j < i ==> !c.blocks[j].TextBlock?
    ensures c.Blocks? && (forall j :: 0 <= j < |c.blocks| ==> !c.blocks[j].TextBlock?) ==> r == ""
    // the first text block decides, even when its text is empty
    ensures c.Blocks? ==>
              forall i :: 0 <= i < |c.blocks| && c.blocks[i].TextBlock? &&
                          (forall j :: 0 <= j < i ==> !c.blocks[j].TextBlock?)
                          ==> r == c.blocks[i].text
  {
    match c
    case Str(s) => s
    case Blocks(blocks) =>
      match FirstTextIndex(blocks)
      case None => ""
      case Some(i) => blocks[i].text
  }

  // ---------------------------------------------------------------------
  // formatSlugAsName
  // ---------------------------------------------------------------------

  /** `word.charAt(0).toUpperCase() + word.slice(1)`. */
  function Capitalize(word: string): string {
    if word == "" then "" else [UpperChar(word[0])] + word[1..]
  }

  function CapitalizeAll(words: seq<string>): (r: seq<string>)
    ensures |r| == |words|
    ensures forall i :: 0 <= i < |words| ==> r[i] == Capitalize(words[i])
  {
    seq(|words|, i requires 0 <= i < |words| => Capitalize(words[i]))
  }

  /** `formatSlugAsName`: "greedy-juggling-valley" becomes
      "Greedy Juggling Valley". */
  function FormatSlugAsName(slug: string): string {
    Join(CapitalizeAll(Split(slug, '-')), " ")
  }

  /** A character-by-character reading of the same transformation: each
      hyphen becomes a space, and each character that starts a word (at the
      start, or after a hyphen) is upper-cased. `atStart` says whether the
      first character starts a word. */
  function Titled(s: string, atStart: bool): string {
    if s == "" then ""
    else if s[0] == '-' then " " + Titled(s[1..], true)
    else [if atStart then UpperChar(s[0]) else s[0]] + Titled(s[1..], false)
  }

  /** The character-by-character reading agrees with split-map-join; when the
      first character continues a word, the first piece is left as it is. */
  lemma {:induction false} TitledIsSplitMapJoin(s: string)
    ensures Titled(s, true) == Join(CapitalizeAll(Split(s, '-')), " ")
    ensures var w := Split(s, '-');
            Titled(s, false) == Join([w[0]] + CapitalizeAll(w[1..]), " ")
    decreases |s|
  {
    var w := Split(s, '-');
    if s == "" {
      assert w == [""];
    } else {
      TitledIsSplitMapJoin(s[1..]);
      var rest := Split(s[1..], '-');
      var caps := CapitalizeAll(rest);
      if s[0] == '-' {
        assert w == [""] + rest;
        assert CapitalizeAll(w) == [""] + caps;
        assert Join([""] + caps, " ") == "" + " " + Join(caps, " ");
        assert ([w[0]] + CapitalizeAll(w[1..])) == [""] + caps;
      } else {
        assert w == [[s[0]] + rest[0]] + rest[1..];
        assert CapitalizeAll(w[1..]) == CapitalizeAll(rest[1..]);
        JoinConsFirst([s[0]], [rest[0]] + CapitalizeAll(rest[1..]), " ");
        assert ([rest[0]] + CapitalizeAll(rest[1..]))[1..] == CapitalizeAll(rest[1..]);
        assert CapitalizeAll(w) == [[UpperChar(s[0])] + rest[0]] + CapitalizeAll(rest[1..]);
        JoinConsFirst([UpperChar(s[0])], [rest[0]] + CapitalizeAll(rest[1..]), " ");
      }
    }
  }

  /** The character at position `i` of a slug's display name: a hyphen
      becomes a space, a character that starts a word is upper-cased, any
      other is kept. */
  function TitleChar(s: string, i: nat, atStart: bool): char
    requires i < |s|
  {
    if s[i] == '-' then ' '
    else if (i == 0 && atStart) || (i > 0 && s[i - 1] == '-') then UpperChar(s[i])
    else s[i]
  }

  /** Each character of the reading is determined by the slug alone. */
  lemma {:induction false} TitledPointwise(s: string, atStart: bool)
    ensures |Titled(s, atStart)| == |s|
    ensures forall i :: 0 <= i < |s| ==> Titled(s, atStart)[i] == TitleChar(s, i, atStart)
    decreases |s|
  {
    if s != "" {
      TitledPointwise(s[1..], s[0] == '-');
      var t := Titled(s, atStart);
      var rest := Titled(s[1..], s[0] == '-');
      assert t == (if s[0] == '-' then " " else [if atStart then UpperChar(s[0]) else s[0]]) + rest;
      assert t[1..] == rest;
      forall i | 0 <= i < |s|
        ensures t[i] == TitleChar(s, i, atStart)
      {
        if i > 0 {
          assert t[i] == rest[i - 1] == TitleChar(s[1..], i - 1, s[0] == '-');
          assert s[1..][i - 1] == s[i];
          if i - 1 > 0 { assert s[1..][i - 2] == s[i - 1]; }
        }
      }
    }
  }

  /** The display name of a slug has the slug's length; hyphens become
      spaces and the first letter of every word is capitalised, nothing else
      changes. */
  lemma FormatSlugAsNamePointwise(slug: string)
    ensures |FormatSlugAsName(slug)| == |slug|
    ensures forall i :: 0 <= i < |slug| ==> FormatSlugAsName(slug)[i] == TitleChar(slug, i, true)
  {
    TitledIsSplitMapJoin(slug);
    TitledPointwise(slug, true);
  }

  // ---------------------------------------------------------------------
  // parseAgentFile: the loop over the lines
  // ---------------------------------------------------------------------

  /** The loop variables of `parseAgentFile`. */
  datatype Acc = Acc(
    agentId: string,
    sessionId: string,
    slug: string,
    model: string,
    startTime: string,
    lastActivity: string,
    messageCount: nat,
    toolCalls: nat,
    firstUserMessage: string)

  const Init := Acc("", "", "", InitialModel, "", "", 0, 0, "")

  /** The number of `tool_use` blocks of an assistant line with block content. */
  function ToolUses(blocks: seq<Block>): nat {
    if blocks == [] then 0
    else (if blocks[0].ToolUseBlock? then 1 else 0) + ToolUses(blocks[1..])
  }

  function LineToolUses(e: Line): nat {
    if e.kind == Assistant && e.message.Some? && e.message.value.content.Blocks?
    then ToolUses(e.message.value.content.blocks) else 0
  }

  /** One iteration of the loop, for a line that parses. */
  function Step(a: Acc, e: Line): Acc {
    var a1 := a.(
      agentId := if a.agentId == "" && Truthy(e.agentId) then e.agentId.value else a.agentId,
      sessionId := if a.sessionId == "" && e.sessionId != "" then e.sessionId else a.sessionId,
      slug := if a.slug == "" && Truthy(e.slug) then e.slug.value else a.slug,
      startTime := if a.startTime == "" && e.timestamp != "" then e.timestamp else a.startTime,
      lastActivity := if e.timestamp != "" then e.timestamp else a.lastActivity);
    var a2 :=
      if e.kind != User then a1
      else a1.(
        messageCount := a1.messageCount + 1,
        firstUserMessage :=
          if a1.firstUserMessage == "" && e.message.Some? && ContentTruthy(e.message.value.content)
          then ExtractMessageContent(e.message.value.content)
          else a1.firstUserMessage);
    if e.kind != Assistant then a2
    else a2.(
      messageCount := a2.messageCount + 1,
      model := if Truthy(ModelOf(e)) then ModelOf(e).value else a2.model,
      toolCalls := a2.toolCalls + LineToolUses(e))
  }

  /** `for (const line of lines)`; a line that does not parse is skipped. */
  function Fold(a: Acc, lines: Body): Acc
    decreases |lines|
  {
    if lines == [] then a
    else Fold(if lines[0].Some? then Step(a, lines[0].value) else a, lines[1..])
  }

  /** The loop variables that keep the first truthy value they are offered. */
  datatype FirstField = AgentIdField | SessionIdField | SlugField | StartTimeField | FirstUserMessageField

  /** The loop variables that keep the last truthy value they are offered. */
  datatype LastField = LastActivityField | ModelField

  /** The value a line offers a first-wins variable ("" for none). */
  function FirstValue(e: Line, f: FirstField): string {
    match f
    case AgentIdField => if Truthy(e.agentId) then e.agentId.value else ""
    case SessionIdField => e.sessionId
    case SlugField => if Truthy(e.slug) then e.slug.value else ""
    case StartTimeField => e.timestamp
    case FirstUserMessageField =>
      if e.kind == User && e.message.Some? && ContentTruthy(e.message.value.content)
      then ExtractMessageContent(e.message.value.content) else ""
  }

  /** The value a line offers a last-wins variable ("" for none). */
  function LastValue(e: Line, f: LastField): string {
    match f
    case LastActivityField => e.timestamp
    case ModelField => if e.kind == Assistant && Truthy(ModelOf(e)) then ModelOf(e).value else ""
  }

  function FirstSlot(a: Acc, f: FirstField): string {
    match f
    case AgentIdField => a.agentId
    case SessionIdField => a.sessionId
    case SlugField => a.slug
    case StartTimeField => a.startTime
    case FirstUserMessageField => a.firstUserMessage
  }

  function LastSlot(a: Acc, f: LastField): string {
    match f
    case LastActivityField => a.lastActivity
    case ModelField => a.model
  }

  /** The first non-empty value the parsed lines offer, or "". */
  function FirstNonEmpty(lines: Body, f: FirstField): string {
    if lines == [] then ""
    else if lines[0].Some? && FirstValue(lines[0].value, f) != "" then FirstValue(lines[0].value, f)
    else FirstNonEmpty(lines[1..], f)
  }

  /** The last non-empty value the parsed lines offer, or "". */
  function LastNonEmpty(lines: Body, f: LastField): string {
    if lines == [] then ""
    else
      var later := LastNonEmpty(lines[1..], f);
      if later != "" then later
      else if lines[0].Some? then LastValue(lines[0].value, f)
      else ""
  }

  /** The number of parsed user and assistant lines. */
  function MessageLines(lines: Body): nat {
    if lines == [] then 0
    else (if lines[0].Some? && lines[0].value.kind in {User, Assistant} then 1 else 0) + MessageLines(lines[1..])
  }

  /** The number of `tool_use` blocks on parsed assistant lines. */
  function ToolCallCount(lines: Body): nat {
    if lines == [] then 0
    else (if lines[0].Some? then LineToolUses(lines[0].value) else 0) + ToolCallCount(lines[1..])
  }

  /** One step keeps a first-wins variable once it is set and otherwise
      takes the line's value. */
  lemma StepFirst(a: Acc, e: Line, f: FirstField)
    ensures FirstSlot(Step(a, e), f) == if FirstSlot(a, f) != "" then FirstSlot(a, f) else FirstValue(e, f)
  {
  }

  /** One step takes a last-wins variable from the line when it offers one. */
  lemma StepLast(a: Acc, e: Line, f: LastField)
    ensures LastSlot(Step(a, e), f) == if LastValue(e, f) != "" then LastValue(e, f) else LastSlot(a, f)
  {
  }

  /** After the loop, a first-wins variable holds its starting value if that
      was set, else the first value any parsed line offered. */
  lemma {:induction false} FoldFirstWins(a: Acc, lines: Body, f: FirstField)
    ensures FirstSlot(Fold(a, lines), f) == if FirstSlot(a, f) != "" then FirstSlot(a, f) else FirstNonEmpty(lines, f)
    decreases |lines|
  {
    if lines != [] {
      var next := if lines[0].Some? then Step(a, lines[0].value) else a;
      if lines[0].Some? { StepFirst(a, lines[0].value, f); }
      FoldFirstWins(next, lines[1..], f);
    }
  }

  /** After the loop, a last-wins variable holds the last value any parsed
      line offered, else its starting value. */
  lemma {:induction false} FoldLastWins(a: Acc, lines: Body, f: LastField)
    ensures LastSlot(Fold(a, lines), f) == if LastNonEmpty(lines, f) != "" then LastNonEmpty(lines, f) else LastSlot(a, f)
    decreases |lines|
  {
    if lines != [] {
      var next := if lines[0].Some? then Step(a, lines[0].value) else a;
      if lines[0].Some? { StepLast(a, lines[0].value, f); }
      FoldLastWins(next, lines[1..], f);
    }
  }

  /** After the loop, the counters have grown by the number of parsed user
      and assistant lines and by the number of their `tool_use` blocks. */
  lemma {:induction false} FoldCounters(a: Acc, lines: Body)
    ensures Fold(a, lines).messageCount == a.messageCount + MessageLines(lines)
    ensures Fold(a, lines).toolCalls == a.toolCalls + ToolCallCount(lines)
    decreases |lines|
  {
    if lines != [] {
      var next := if lines[0].Some? then Step(a, lines[0].value) else a;
      FoldCounters(next, lines[1..]);
    }
  }

  // ---------------------------------------------------------------------
  // parseAgentFile
  // ---------------------------------------------------------------------

  /** `parseAgentFile`: `None` for an unreadable or empty file and for a
      file no line of which names an agent id. An agent is active when its
      file was modified in the last five minutes. */
  function ParseAgentFile(f: Found, now: int): Option<AgentInfo> {
    match f.body
    case None => None
    case Some(lines) =>
      if |lines| == 0 then None
      else
        var acc := Fold(Init, lines);
        if acc.agentId == "" then None
        else
          Some(AgentInfo(
            acc.agentId,
            acc.sessionId,
            if acc.slug != "" then FormatSlugAsName(acc.slug)
            else "Agent " + Slice(acc.agentId, 0, ShortIdLength),
            NormalizeModelName(acc.model),
            if f.mtime > now - ActiveWithinMinutes * MinuteMs then Active else Completed,
            acc.messageCount,
            acc.toolCalls,
            acc.startTime,
            acc.lastActivity,
            f.path.project,
            f.path,
            Slice(acc.firstUserMessage, 0, FirstMessageLength),
            InferAgentType(acc.firstUserMessage)))
  }

  /** An agent has an id, belongs to its file, keeps at most 200 characters
      of its first message, and is active exactly when its file was
      modified in the last five minutes. */
  lemma ParseAgentFileBasics(f: Found, now: int)
    ensures var r := ParseAgentFile(f, now);
            r.Some? ==>
              && r.value.agentId != ""
              && r.value.filePath == f.path
              && r.value.projectPath == f.path.project
              && |r.value.firstMessage| <= FirstMessageLength
              && (r.value.status == Active <==> f.mtime > now - ActiveWithinMinutes * MinuteMs)
  {
  }

  /** What `parseAgentFile` makes of a file, in terms of its lines alone:
      the agent id, session id, slug and start time are the first values the
      lines offer, the last activity and model the last ones; the counters
      count messages and `tool_use` blocks; the type is guessed from the
      whole first user message, of which only 200 characters are kept. */
  lemma ParseAgentFileSummary(f: Found, now: int)
    ensures var r := ParseAgentFile(f, now);
            && (r.None? <==> f.body.None? || FirstNonEmpty(f.body.value, AgentIdField) == "")
            && (r.Some? ==>
                  var lines := f.body.value;
                  var slug := FirstNonEmpty(lines, SlugField);
                  var model := LastNonEmpty(lines, ModelField);
                  var first := FirstNonEmpty(lines, FirstUserMessageField);
                  && r.value.agentId == FirstNonEmpty(lines, AgentIdField)
                  && r.value.sessionId == FirstNonEmpty(lines, SessionIdField)
                  && r.value.startTime == FirstNonEmpty(lines, StartTimeField)
                  && r.value.lastActivity == LastNonEmpty(lines, LastActivityField)
                  && r.value.model == NormalizeModelName(if model != "" then model else InitialModel)
                  && r.value.messageCount == MessageLines(lines)
                  && r.value.toolCalls == ToolCallCount(lines)
                  && r.value.name == (if slug != "" then FormatSlugAsName(slug)
                                      else "Agent " + Slice(r.value.agentId, 0, ShortIdLength))
                  && r.value.firstMessage == Slice(first, 0, FirstMessageLength)
                  && r.value.agentType == InferAgentType(first))
  {
    if f.body.Some? {
      var lines := f.body.value;
      FoldFirstWins(Init, lines, AgentIdField);
      FoldFirstWins(Init, lines, SessionIdField);
      FoldFirstWins(Init, lines, SlugField);
      FoldFirstWins(Init, lines, StartTimeField);
      FoldFirstWins(Init, lines, FirstUserMessageField);
      FoldLastWins(Init, lines, LastActivityField);
      FoldLastWins(Init, lines, ModelField);
      FoldCounters(Init, lines);
    }
  }

  // ---------------------------------------------------------------------
  // getActiveAgents, getAgentsBySession, getAgentDetails
  // ---------------------------------------------------------------------

  /** The loop of `getActiveAgents`: the files that parse, in order. */
  function ParseAll(fs: seq<Found>, now: int): (r: seq<AgentInfo>)
    ensures |r| <= |fs|
  {
    if fs == [] then []
    else
      match ParseAgentFile(fs[0], now)
      case None => ParseAll(fs[1..], now)
      case Some(a) => [a] + ParseAll(fs[1..], now)
  }

  /** Every agent comes from one of the files, and every file that parses
      gives its agent. */
  lemma ParseAllMembers(fs: seq<Found>, now: int)
    ensures forall k :: 0 <= k < |ParseAll(fs, now)| ==>
              exists i :: 0 <= i < |fs| && ParseAgentFile(fs[i], now) == Some(ParseAll(fs, now)[k])
    ensures forall i :: 0 <= i < |fs| && ParseAgentFile(fs[i], now).Some? ==>
              ParseAgentFile(fs[i], now).value in ParseAll(fs, now)
  {
    ParseAllInOrder(fs, now);
    var r, idx := ParseAll(fs, now), KeptIndices(fs, Parser(now));
    forall k | 0 <= k < |r| ensures exists i :: 0 <= i < |fs| && ParseAgentFile(fs[i], now) == Some(r[k]) {
      assert ParseAgentFile(fs[idx[k]], now) == Some(r[k]);
    }
    forall i | 0 <= i < |fs| && ParseAgentFile(fs[i], now).Some? ensures ParseAgentFile(fs[i], now).value in r {
      var k :| 0 <= k < |idx| && idx[k] == i;
      assert ParseAgentFile(fs[i], now) == Some(r[k]);
    }
  }


  /** An active agent parsed from most-recent-first files means the most
      recent file was itself modified in the last five minutes. */
  lemma {:induction false} ActiveMeansHeadRecent(fs: seq<Found>, now: int)
    requires Sorting.Sorted(fs, NewerOrSame)
    ensures forall k :: 0 <= k < |ParseAll(fs, now)| && ParseAll(fs, now)[k].status == Active ==>
              |fs| > 0 && fs[0].mtime > now - ActiveWithinMinutes * MinuteMs
  {
    if fs != [] {
      var rest := ParseAll(fs[1..], now);
      var r := ParseAll(fs, now);
      ActiveMeansHeadRecent(fs[1..], now);
      ParseAgentFileBasics(fs[0], now);
      forall k | 0 <= k < |r| && r[k].status == Active
        ensures fs[0].mtime > now - ActiveWithinMinutes * MinuteMs
      {
        if ParseAgentFile(fs[0], now).Some? {
          assert r == [ParseAgentFile(fs[0], now).value] + rest;
          if k > 0 {
            assert r[k] == rest[k - 1];
            assert fs[1..][0] == fs[1];
          }
        } else {
          assert r == rest;
          assert r[k] == rest[k];
          assert fs[1..][0] == fs[1];
        }
      }
    } else {
      assert ParseAll(fs, now) == [];
    }
  }

  /** Statuses run active first, then completed: no completed agent is
      followed by an active one. */
  predicate ActiveFirst(r: seq<AgentInfo>) {
    forall i, j :: 0 <= i < j < |r| && r[j].status == Active ==> r[i].status == Active
  }

  /** Parsing files in most-recent-first order lists every active agent
      before every completed one. */
  lemma {:induction false} ParseAllActiveFirst(fs: seq<Found>, now: int)
    requires Sorting.Sorted(fs, NewerOrSame)
    ensures ActiveFirst(ParseAll(fs, now))
  {
    if fs != [] {
      ParseAllActiveFirst(fs[1..], now);
      var rest := ParseAll(fs[1..], now);
      var r := ParseAll(fs, now);
      match ParseAgentFile(fs[0], now)
      case None =>
        assert r == rest;
      case Some(a) =>
        assert r == [a] + rest;
        ParseAgentFileBasics(fs[0], now);
        ActiveMeansHeadRecent(fs[1..], now);
        ConsActiveFirst(a, rest, fs[0].mtime > now - ActiveWithinMinutes * MinuteMs);
    }
  }

  /** Putting an agent in front keeps statuses active-first when it is
      active, or when nothing after it is. */
  lemma ConsActiveFirst(a: AgentInfo, rest: seq<AgentInfo>, headActive: bool)
    requires ActiveFirst(rest)
    requires a.status == Active <==> headActive
    requires !headActive ==> forall k :: 0 <= k < |rest| ==> rest[k].status != Active
    ensures ActiveFirst([a] + rest)
  {
    var r := [a] + rest;
    forall i, j | 0 <= i < j < |r| && r[j].status == Active
      ensures r[i].status == Active
    {
      assert r[j] == rest[j - 1];
      if i > 0 { assert r[i] == rest[i - 1]; }
    }
  }

  /** `parseAgentFile` at one moment, as a partial map over files. */
  function Parser(now: int): Found -> Option<AgentInfo> {
    f => ParseAgentFile(f, now)
  }

  lemma {:induction false} ParseAllIsFilterMap(fs: seq<Found>, now: int)
    ensures ParseAll(fs, now) == FilterMap(fs, Parser(now))
  {
    if fs != [] {
      ParseAllIsFilterMap(fs[1..], now);
    }
  }

  /** The loop keeps one agent for each file that parses, each once, in
      file order. */
  lemma ParseAllInOrder(fs: seq<Found>, now: int)
    ensures OrderedSelection(fs, Parser(now), ParseAll(fs, now), KeptIndices(fs, Parser(now)))
  {
    ParseAllIsFilterMap(fs, now);
    FilterMapSelects(fs, Parser(now));
  }

  /** `getActiveAgents`: the agents of the `agent-*.jsonl` files modified in
      the last `minutes` minutes, most recently modified first. */
  function GetActiveAgents(root: seq<ProjectEntry>, now: int, minutes: int): seq<AgentInfo> {
    ParseAll(FindRecent(root, now, minutes, AgentFiles), now)
  }

  /** `getActiveAgents` keeps exactly the recent agent files that parse, and
      lists the active agents first. */
  lemma ActiveAgentsFacts(root: seq<ProjectEntry>, now: int, minutes: int)
    ensures var r := GetActiveAgents(root, now, minutes);
            var fs := FindRecent(root, now, minutes, AgentFiles);
            && (forall k :: 0 <= k < |r| ==> exists i :: 0 <= i < |fs| && ParseAgentFile(fs[i], now) == Some(r[k]))
            && (forall i :: 0 <= i < |fs| && ParseAgentFile(fs[i], now).Some? ==> ParseAgentFile(fs[i], now).value in r)
            && ActiveFirst(r)
  {
    var fs := FindRecent(root, now, minutes, AgentFiles);
    FindRecentFacts(root, now, minutes, AgentFiles);
    ParseAllMembers(fs, now);
    ParseAllActiveFirst(fs, now);
  }

  /** `getActiveAgents` has one agent for each recent agent file that
      parses, each once, in the order of the files (most recent first). */
  lemma ActiveAgentsInOrder(root: seq<ProjectEntry>, now: int, minutes: int)
    ensures var fs := FindRecent(root, now, minutes, AgentFiles);
            && Sorting.Sorted(fs, NewerOrSame)
            && OrderedSelection(fs, Parser(now), GetActiveAgents(root, now, minutes), KeptIndices(fs, Parser(now)))
  {
    FindRecentFacts(root, now, minutes, AgentFiles);
    ParseAllInOrder(FindRecent(root, now, minutes, AgentFiles), now);
  }

  /** Every agent comes from an `agent-*.jsonl` file modified in the window
      and has an id. */
  lemma ActiveAgentsFromAgentFiles(root: seq<ProjectEntry>, now: int, minutes: int)
    ensures var r := GetActiveAgents(root, now, minutes);
            forall k :: 0 <= k < |r| ==> Accepts(AgentFiles, r[k].filePath.name) && r[k].agentId != ""
  {
    var fs := FindRecent(root, now, minutes, AgentFiles);
    FindRecentFacts(root, now, minutes, AgentFiles);
    ParseAllMembers(fs, now);
    var r := GetActiveAgents(root, now, minutes);
    forall k | 0 <= k < |r|
      ensures Accepts(AgentFiles, r[k].filePath.name) && r[k].agentId != ""
    {
      var i :| 0 <= i < |fs| && ParseAgentFile(fs[i], now) == Some(r[k]);
      ParseAgentFileBasics(fs[i], now);
    }
  }

  /** `getAgentsBySession`: the agents of the last four hours that belong to
      the session, in the same order. */
  function GetAgentsBySession(root: seq<ProjectEntry>, now: int, sessionId: string): (r: seq<AgentInfo>)
    ensures var all := GetActiveAgents(root, now, WideWindowMinutes);
            && (forall k :: 0 <= k < |r| ==> r[k] in all && r[k].sessionId == sessionId)
            && (forall i :: 0 <= i < |all| && all[i].sessionId == sessionId ==> all[i] in r)
  {
    Filter(GetActiveAgents(root, now, WideWindowMinutes), InSession(sessionId))
  }

  function InSession(sessionId: string): AgentInfo -> bool {
    (a: AgentInfo) => a.sessionId == sessionId
  }

  /** Each agent of the session is listed exactly once, at the place it
      has among all recent agents. */
  lemma AgentsBySessionInOrder(root: seq<ProjectEntry>, now: int, sessionId: string)
    ensures var all := GetActiveAgents(root, now, WideWindowMinutes);
            OrderedSelection(all, Keep(InSession(sessionId)), GetAgentsBySession(root, now, sessionId),
                             KeptIndices(all, Keep(InSession(sessionId))))
  {
    FilterSelects(GetActiveAgents(root, now, WideWindowMinutes), InSession(sessionId));
  }

  /** `getAgentDetails`: the first agent of the last four hours with the id. */
  function GetAgentDetails(root: seq<ProjectEntry>, now: int, agentId: string): (r: Option<AgentInfo>)
    ensures var all := GetActiveAgents(root, now, WideWindowMinutes);
            && (r.None? <==> forall i :: 0 <= i < |all| ==> all[i].agentId != agentId)
            && (r.Some? ==> exists i :: 0 <= i < |all| && all[i] == r.value && r.value.agentId == agentId &&
                                       forall j :: 0 <= j < i ==> all[j].agentId != agentId)
  {
    Find(GetActiveAgents(root, now, WideWindowMinutes), (a: AgentInfo) => a.agentId == agentId)
  }

  // ---------------------------------------------------------------------
  // getAgentStats
  // ---------------------------------------------------------------------

  datatype AgentStats = AgentStats(
    total: nat,
    active: nat,
    completed: nat,
    byModel: Tally.Counts<string>,
    byType: Tally.Counts<AgentType>)

  function Models(agents: seq<AgentInfo>): (r: seq<string>)
    ensures |r| == |agents| && forall i :: 0 <= i < |agents| ==> r[i] == agents[i].model
  {
    seq(|agents|, i requires 0 <= i < |agents| => agents[i].model)
  }

  function Types(agents: seq<AgentInfo>): (r: seq<AgentType>)
    ensures |r| == |agents| && forall i :: 0 <= i < |agents| ==> r[i] == agents[i].agentType
  {
    seq(|agents|, i requires 0 <= i < |agents| => agents[i].agentType)
  }

  /** The number of agents with the status. */
  function CountStatus(agents: seq<AgentInfo>, st: AgentStatus): nat {
    if agents == [] then 0
    else (if agents[0].status == st then 1 else 0) + CountStatus(agents[1..], st)
  }

  /** `getAgentStats` over the agents of the last two hours. */
  function GetAgentStats(root: seq<ProjectEntry>, now: int): (r: AgentStats)
    ensures r.total == |GetActiveAgents(root, now, DefaultWindowMinutes)|
  {
    StatsOf(GetActiveAgents(root, now, DefaultWindowMinutes))
  }

  /** The loop of `getAgentStats` over a list of agents. Its four updates do
      not depend on one another, so each counter is the count of its status
      and each record is the tally of its key over the agents. */
  function StatsOf(agents: seq<AgentInfo>): (r: AgentStats)
    ensures r.total == |agents|
  {
    AgentStats(
      |agents|,
      CountStatus(agents, Active),
      CountStatus(agents, Completed),
      Tally.Tally(Models(agents)),
      Tally.Tally(Types(agents)))
  }

  /** The statistics add up: every agent is either active or completed, and
      the two counters count the agents `filter` keeps for their status; every
      agent is counted once under its model and once under its type; the
      records have no repeated key. */
  lemma AgentStatsAddUp(root: seq<ProjectEntry>, now: int)
    ensures var r := GetAgentStats(root, now);
            var agents := GetActiveAgents(root, now, DefaultWindowMinutes);
            && r.total == r.active + r.completed
            && r.active == |Filter(agents, HasStatus(Active))|
            && r.completed == |Filter(agents, HasStatus(Completed))|
            && Tally.Total(r.byModel) == r.total
            && Tally.Total(r.byType) == r.total
            && Tally.DistinctKeys(r.byModel) && Tally.DistinctKeys(r.byType)
            && (forall m :: Tally.Lookup(r.byModel, m) == multiset(Models(agents))[m])
            && (forall t :: Tally.Lookup(r.byType, t) == multiset(Types(agents))[t])
  {
    StatsOfAddUp(GetActiveAgents(root, now, DefaultWindowMinutes));
  }

  /** `AgentStatsAddUp` for any list of agents. */
  lemma StatsOfAddUp(agents: seq<AgentInfo>)
    ensures var r := StatsOf(agents);
            && r.total == r.active + r.completed
            && r.active == |Filter(agents, HasStatus(Active))|
            && r.completed == |Filter(agents, HasStatus(Completed))|
            && Tally.Total(r.byModel) == r.total
            && Tally.Total(r.byType) == r.total
            && Tally.DistinctKeys(r.byModel) && Tally.DistinctKeys(r.byType)
            && (forall m :: Tally.Lookup(r.byModel, m) == multiset(Models(agents))[m])
            && (forall t :: Tally.Lookup(r.byType, t) == multiset(Types(agents))[t])
  {
    Tally.TallyCounts(Models(agents));
    Tally.TallyCounts(Types(agents));
    StatusesPartition(agents);
    CountStatusIsFilter(agents, Active);
    CountStatusIsFilter(agents, Completed);
  }

  function HasStatus(st: AgentStatus): AgentInfo -> bool {
    (a: AgentInfo) => a.status == st
  }

  /** The counter of a status is the number of agents `filter` keeps for it. */
  lemma {:induction false} CountStatusIsFilter(agents: seq<AgentInfo>, st: AgentStatus)
    ensures CountStatus(agents, st) == |Filter(agents, HasStatus(st))|
  {
    if agents != [] {
      CountStatusIsFilter(agents[1..], st);
    }
  }

  /** Every agent is active or completed. */
  lemma {:induction false} StatusesPartition(agents: seq<AgentInfo>)
    ensures CountStatus(agents, Active) + CountStatus(agents, Completed) == |agents|
  {
    if agents != [] {
      StatusesPartition(agents[1..]);
    }
  }
}
