# Observatory sync core, modelled in Dafny

This project models the back-end "sync" layer of a dashboard for coding-agent
sessions, together with the web client's store. The sync layer reads the
agent's own files under the user's home directory:

- the `.jsonl` transcripts under `~/.claude/projects/<project>/`;
- the `agent-*.jsonl` sub-agent transcripts next to them;
- the MCP server configuration file `mcp.json`.

From those files it answers queries: the active sessions, a session's events,
the live event feed, the sub-agents and their statistics, and the configured
MCP servers. The store holds the client's selected session, its feed of
recent executions, and a few UI flags.

The file system is a value passed in: a snapshot of the projects directory
(entries, file times, decoded lines) or a map from paths to decoded
configuration files. The clock is an integer `now` in milliseconds.
Everything else is pure functions over datatypes, with lemmas relating them.

Modules:

- `Js`: the JavaScript built-ins the code leans on: `slice` with negative
  indices, `filter`, `find`, `reverse`, `includes`, `startsWith`,
  `toLowerCase`, `split` and `join`.
- `Sorting`: a stable sort under a comparator.
- `Tally`: a counting record such as `byModel`.
- `Transcript`: one decoded transcript line.
- `Discovery`: the recent-file scan shared by transcripts and agent files.
- `Events`: `extractEvents`.
- `Live`: the four live queries.
- `Agents`: the sub-agent summariser.
- `Mcp`: the MCP configuration reader.
- `Store`: the client store.

## Model

| member | source | states |
|---|---|---|
| Discovery.ScanDir | apps/api/src/sync/transcript-watcher.ts:106-121 | a kept file has the directory's project, a `.jsonl` (or `agent-*.jsonl`) name and a time after the cutoff; when no stat fails, every such file is kept |
| Discovery.StatLimit | apps/api/src/sync/transcript-watcher.ts:109-118 | the inner loop reaches the first accepted entry whose `statSync` fails, or the end of the listing: no accepted entry before that point fails, and the entry at that point is accepted and fails |
| Discovery.ScanDirIsFilterMap | apps/api/src/sync/transcript-watcher.ts:106-121 | the inner loop is the accepted entries modified after the cut-off, among those before the first failing `statSync`, each made a file with the directory's project and the entry's own name, time and contents, in listing order |
| Discovery.ScanDirSelects | apps/api/src/sync/transcript-watcher.ts:106-121 | each entry reached that passes is kept exactly once, at increasing positions, with its own name, time and contents; no entry at or after the first failing `statSync` is kept |
| Discovery.CollectProvenance | apps/api/src/sync/transcript-watcher.ts:100-121 | every collected file is one that some project directory contributes |
| Discovery.FindRecentFacts | apps/api/src/sync/transcript-watcher.ts:100-127 | the result is a permutation of the files collected from every readable directory, newest first, each accepted by the name filter and modified after `now - minutes` |
| Discovery.UnreadableDirContributesNothing | apps/api/src/sync/transcript-watcher.ts:106-120 | a project directory whose listing throws changes nothing: the files collected over the root with it are those collected without it |
| Discovery.CollectAppend | apps/api/src/sync/agents.ts:69-87 | the directories are scanned independently: scanning two runs of directories is scanning each and concatenating |
| Events.BlockEvent | apps/api/src/sync/transcript-watcher.ts:144-176 | thinking, text and tool_use blocks become thinking, response and tool_call events carrying the block's thinking text, text, or tool name and input; the response carries the line's usage; a tool_use event takes the block's id, else `<uuid>-tool` |
| Events.ExtractEvents | apps/api/src/sync/transcript-watcher.ts:137-188 | only assistant lines with block content and user lines with a `toolUseResult` yield events; one event per emitting block, in block order; one `tool_result` event with the file path and a 500-character excerpt |
| Events.ExtractEventsWellFormed | apps/api/src/sync/transcript-watcher.ts:137-188 | every event copies the line's session, timestamp, model and agent; only responses carry usage; each type has its id suffix and a non-empty payload; a tool call's id is one of the line's `tool_use` block ids, or `<uuid>-tool` |
| Events.Excerpt | apps/api/src/sync/transcript-watcher.ts:183 | the excerpt exists iff the result has a file with content, and is that content's first `min(500, length)` characters |
| Events.TextEventsShareId | apps/api/src/sync/transcript-watcher.ts:160-172 | two text blocks on one line give two response events that share the id `<uuid>-text` |
| Events.ThreeBlocksInOrder | apps/api/src/sync/transcript-watcher.ts:144-176 | a thinking, a text and a tool_use block give three events in that order, carrying their payloads |
| Events.ResultEventWithoutFile | apps/api/src/sync/transcript-watcher.ts:178-186 | a tool result without a file still yields one `tool_result` event, with no path and no excerpt |
| Events.StringContentYieldsNothing | apps/api/src/sync/transcript-watcher.ts:147-148 | an assistant line whose content is a string yields no event, since the characters `for..of` meets have no `type` |
| Live.SessionOf | apps/api/src/sync/transcript-watcher.ts:195-219 | a file yields a session iff it is readable, has a line and its first line parses; the session has the first line's id, the last line's model, the line count, and agent-ness from the file name |
| Live.SessionsOfMembers | apps/api/src/sync/transcript-watcher.ts:194-222 | each kept session comes from a file, and no file that yields a session is dropped |
| Live.SessionsOfIsFilterMap | apps/api/src/sync/transcript-watcher.ts:194-222 | the loop is a filter-map of the files through `SessionOf` |
| Live.SessionsOfInOrder | apps/api/src/sync/transcript-watcher.ts:194-222 | one session per file that yields one, each exactly once, in file order |
| Live.SessionsOfSorted | apps/api/src/sync/transcript-watcher.ts:194-222 | files newest first give sessions newest first |
| Live.GetActiveSessions | apps/api/src/sync/transcript-watcher.ts:190-225 | at most ten sessions |
| Live.ActiveSessionsInOrder | apps/api/src/sync/transcript-watcher.ts:190-225 | the sessions are those of the ten newest transcripts of the last hour that yield one, each exactly once, in the files' order |
| Live.ActiveSessionsFacts | apps/api/src/sync/transcript-watcher.ts:190-225 | the sessions are newest first; each describes one of the ten newest transcripts of the last hour, with at least one line; every such file that yields a session is represented |
| Live.FileEventsAppend | apps/api/src/sync/transcript-watcher.ts:240-248 | the events of a file are those of its lines, line after line |
| Live.FileEventsSound | apps/api/src/sync/transcript-watcher.ts:240-248 | every event of a file comes from one of its parsed lines and is well formed for that line |
| Live.SessionFileIndex | apps/api/src/sync/transcript-watcher.ts:228-238 | the file chosen is the first of the recent transcripts whose first line carries the session id |
| Live.LastReversed | apps/api/src/sync/transcript-watcher.ts:251 | `slice(-limit).reverse()`: the last `limit` items (all when `limit` is 0), the last item first |
| Live.SessionEventsNewestFirst | apps/api/src/sync/transcript-watcher.ts:227-258 | no events when no recent transcript starts with the session; otherwise, from the first that does, `min(limit, number of events)` events for a positive limit and all of them for 0, being the file's last events with the last one first (`LastNewestFirst`) |
| Live.GetLiveEvents | apps/api/src/sync/transcript-watcher.ts:260-288 | `min(limit, candidates)` events, sorted latest first by timestamp, drawn from the last 20 lines of the five newest transcripts of the last half hour |
| Live.LiveEventsAreMostRecent | apps/api/src/sync/transcript-watcher.ts:285-287 | every candidate left out is no later than every event returned |
| Live.MainSessionIndex | apps/api/src/sync/transcript-watcher.ts:301 | the first session that is not an agent's, or the first session when all are agents' |
| Live.GetCurrentSessionEvents | apps/api/src/sync/transcript-watcher.ts:290-305 | no session and no events iff there is no active session; otherwise the main session and that session's events |
| Agents.InferAgentType | apps/api/src/sync/agents.ts:94-111 | explore iff the lower-cased message mentions an explore word; plan iff a plan word and no explore word; code review, general and unknown likewise, in that priority |
| Agents.InferAgentTypeIgnoresCase | apps/api/src/sync/agents.ts:95 | the guess does not depend on letter case |
| Agents.MentionDecides | apps/api/src/sync/agents.ts:97-99 | a message that mentions an explore word in any case is an explore agent, whatever else it says |
| Agents.PlanMentionDecides | apps/api/src/sync/agents.ts:100-102 | a message that mentions a plan word and no explore word is a plan agent |
| Agents.ExploreBeatsReview | apps/api/src/sync/agents.ts:97-105 | a message that mentions both exploring and reviewing is an explore agent |
| Agents.NormalizeModelName | apps/api/src/sync/agents.ts:226-231 | the short name is `opus`, `sonnet` or `haiku` by first match in that order, else the name unchanged; it always occurs in the full name |
| Agents.NormalizeIdempotent | apps/api/src/sync/agents.ts:226-231 | normalising twice is normalising once |
| Agents.FirstTextIndex | apps/api/src/sync/agents.ts:118 | the position of the first text block, and none when there is no text block |
| Agents.ExtractMessageContent | apps/api/src/sync/agents.ts:113-122 | a string is returned as is; an array with a text block gives the text of the first one, and an array without one gives "" |
| Agents.TitledIsSplitMapJoin | apps/api/src/sync/agents.ts:124-130 | the character-wise title-casing equals the split, capitalise, join pipeline |
| Agents.FormatSlugAsNamePointwise | apps/api/src/sync/agents.ts:124-130 | the name has the slug's length; each dash becomes a space, and each character upper-cased iff it starts a word |
| Agents.FoldFirstWins | apps/api/src/sync/agents.ts:149-192 | agent id, session id, slug, start time and first user message take the first non-empty value the lines offer |
| Agents.FoldLastWins | apps/api/src/sync/agents.ts:149-192 | the last activity and the model take the last non-empty value the lines offer |
| Agents.FoldCounters | apps/api/src/sync/agents.ts:149-192 | the message count counts the user and assistant lines, and the tool count counts the `tool_use` blocks of assistant lines |
| Agents.ParseAgentFileBasics | apps/api/src/sync/agents.ts:132-224 | an agent has a non-empty id, its file's path and project, a first message of at most 200 characters, and is active iff its file changed in the last five minutes |
| Agents.ParseAgentFileSummary | apps/api/src/sync/agents.ts:132-224 | no agent iff the file is unreadable or no line names an agent; otherwise every field in terms of the lines alone: first or last values, counts, the name from the slug or `Agent <first 8 of id>`, the normalised model, the type guessed from the whole first message |
| Agents.ParseAllMembers | apps/api/src/sync/agents.ts:237-242 | each kept agent comes from a file that parses, and no file that parses is dropped |
| Agents.ParseAllIsFilterMap | apps/api/src/sync/agents.ts:237-242 | the loop is a filter-map of the files through `parseAgentFile` |
| Agents.ParseAllInOrder | apps/api/src/sync/agents.ts:237-242 | one agent per file that parses, each exactly once, in file order |
| Agents.ParseAllActiveFirst | apps/api/src/sync/agents.ts:233-245 | with the files newest first, no completed agent precedes an active one |
| Agents.ActiveAgentsFromAgentFiles | apps/api/src/sync/agents.ts:233-245 | every agent comes from an `agent-*.jsonl` file and has an id |
| Agents.ActiveAgentsFacts | apps/api/src/sync/agents.ts:233-245 | each agent comes from a recent agent file that parses, every such file's agent is present, and active agents come first |
| Agents.ActiveAgentsInOrder | apps/api/src/sync/agents.ts:233-245 | the recent agent files are newest first, and the agents are those of the files that parse, each exactly once, in the files' order |
| Agents.GetAgentsBySession | apps/api/src/sync/agents.ts:247-250 | every agent returned is one of the last four hours and is in the session, and every such agent is returned |
| Agents.AgentsBySessionInOrder | apps/api/src/sync/agents.ts:247-250 | the session's agents, each exactly once, in the order they have among all agents of the last four hours |
| Agents.GetAgentDetails | apps/api/src/sync/agents.ts:284-287 | none iff no agent of the last four hours has the id; otherwise the first agent that has it |
| Agents.AgentStatsAddUp | apps/api/src/sync/agents.ts:252-282 | the active and completed counters are the numbers of agents with that status, and add up to the total; each model and type record counts each agent once, has no repeated key, and gives each key its number of agents |
| Agents.StatsOfAddUp | apps/api/src/sync/agents.ts:258-280 | for any list of agents, the loop's counters are the numbers of active and of completed agents, adding up to the list's length, and each record gives each key its number of agents with no repeated key |
| Sorting.Sort | apps/api/src/sync/transcript-watcher.ts:124 | the result is sorted under the comparator and is a permutation of the input |
| Sorting.SortStable | apps/api/src/sync/transcript-watcher.ts:124 | for any class of elements the comparator ties together, such as files with the same modification time, sorting keeps their input order |
| Sorting.SortKeepsTieOrder | apps/api/src/sync/transcript-watcher.ts:285 | elements that compare equal to a given one keep their input order |
| Js.FilterSelects | apps/api/src/sync/agents.ts:249 | `filter` keeps every passing element exactly once, in order, and nothing else |
| Tally.TallyCounts | apps/api/src/sync/agents.ts:267-271 | counting into a record gives each key its multiplicity, no repeated key, and a total equal to the number of items |
| Tally.LookupBump | apps/api/src/sync/agents.ts:268 | counting one more item raises its key's count by one and leaves every other key alone |
| Mcp.FindConfigPath | apps/api/src/sync/mcp-servers.ts:34-41 | `~/.claude/mcp.json` if it exists, else `~/.config/claude/mcp.json` if that exists, else none |
| Mcp.MaskEnvValue | apps/api/src/sync/mcp-servers.ts:43-49 | a value of eight characters or fewer becomes `****`; a longer one becomes `****` and its last four characters |
| Mcp.MaskLength | apps/api/src/sync/mcp-servers.ts:43-49 | a masked value is four or eight characters long, and eight exactly when the value is longer than eight |
| Mcp.MaskRevealsOnlyLastFour | apps/api/src/sync/mcp-servers.ts:43-49 | long values with the same last four characters mask alike, and so do all short values |
| Mcp.GetMcpServers | apps/api/src/sync/mcp-servers.ts:51-107 | no config file: no servers, no path and an error; a read or decode failure, or a `null` entry: the path, an error and no servers; otherwise a permutation of the described entries (a falsy entry as a local server with nothing set), local ones first and each group in name order |
| Mcp.ListingOrder | apps/api/src/sync/mcp-servers.ts:89-94 | no remote server precedes a local one, and servers of one type are in name order |
| Mcp.GetMcpServerDetails | apps/api/src/sync/mcp-servers.ts:109-160 | with no config file, not found; when found, the name has an object entry whose environment values are all strings, described as in the listing, with every environment value masked; not found for the name alone exactly when the entry is missing or falsy; any other failure is the read error |
| Mcp.DetailsOfEntry | apps/api/src/sync/mcp-servers.ts:109-160 | with distinct names: an object entry whose environment values are strings is found, described as in the listing and with its environment masked; an object entry with another environment value gives the read error; a falsy or `null` entry is not found |
| Mcp.ListedServerHasDetails | apps/api/src/sync/mcp-servers.ts:51-160 | every listed server has an entry that is not `null`; its details are found exactly when that entry is an object whose environment values are strings, and then describe it as the listing does; a falsy entry is not found, and an object with another environment value gives the read error |
| Mcp.FalsyEntryListedNotFound | apps/api/src/sync/mcp-servers.ts:72-127 | with `{"a": false}`, the listing shows `a` as a local server with nothing set, and its details are not found |
| Mcp.NumberEnvValueFails | apps/api/src/sync/mcp-servers.ts:45-158 | with `{"a": {"env": {"PORT": 8080}}}`, the listing shows `a` with an environment, and its details give the read error |
| Mcp.GetMcpStats | apps/api/src/sync/mcp-servers.ts:162-178 | all zero when the listing fails; otherwise the total is the number of configured entries, remote counts the entries with a `url`, local those without (falsy entries included), and with-env the objects with a non-empty `env`; local plus remote is the total |
| Store.AddExecution | apps/web/lib/store.ts:37-40 | the new execution is first, the rest is a prefix of the old feed, the length is `min(old + 1, 100)`, and nothing else changes |
| Store.ClearExecutions | apps/web/lib/store.ts:41 | the feed is empty and nothing else changes |
| Store.Apply | apps/web/lib/store.ts:30-57 | each setter sets its own field to the given value and changes nothing else; adding an execution is `AddExecution`; clearing empties the feed and changes nothing else |
| Store.RunPreservesValid | apps/web/lib/store.ts:37-41 | whatever the sequence of setter calls, the feed never holds more than 100 executions |
| Store.RunFromInitialValid | apps/web/lib/store.ts:30-57 | from the initial state, the feed stays within 100 executions |
| Store.AddAllNewestFirst | apps/web/lib/store.ts:37-40 | after a run of additions the feed is the run reversed in front of the old feed, cut to 100: the newest 100, newest first |

## Left out

- Reading files, `statSync`, `readdirSync`, `os.homedir()` and `JSON.parse`: these are inputs. A directory snapshot holds decoded lines (a line that fails to parse is `None`), and the configuration is a map from paths to decoded files or failures.
- `Date.now()`: it is the parameter `now`, and every query works on one snapshot of the file system. The source reads the clock and lists the directories anew for each call it makes: `parseAgentFile` reads the clock again for its five-minute test (apps/api/src/sync/agents.ts:197), and `getCurrentSessionEvents` calls `getActiveSessions` and then `getSessionEvents`, each of which reads the clock and lists the directories (apps/api/src/sync/transcript-watcher.ts:290-305). Files that change between those reads are not modelled.
- `new Date(timestamp).getTime()` in the live sort: it is a parameter `instant` from timestamps to milliseconds. Date parsing and `NaN` comparisons are not modelled.
- `localeCompare` in the MCP sort: modelled as order by character, that is by Unicode code point (`Js.LexLe`). Locale collation is not modelled.
- Mcp.MaskEnvValue: Dafny strings are sequences of code points, while JavaScript's `length` and `slice` count UTF-16 code units. A value with characters outside the Basic Multilingual Plane is measured and cut differently: five emoji have `length` 10 in the source, so they are masked as `****` and two emoji, while the model masks them as `****`.
- Events.Excerpt: the 500-character cut counts code points, not UTF-16 code units, for the same reason.
- Agents.ParseAgentFileSummary: the 200-character first message and the 8-character id prefix count code points, not UTF-16 code units, for the same reason.
- Mcp.GetMcpServerDetails: `config.mcpServers?.[name]` (apps/api/src/sync/mcp-servers.ts:124) also finds properties inherited from `Object.prototype`. For a name such as `constructor`, `toString` or `__proto__` that the file does not configure, the source reports a local server with no environment; the model reports it as not found.
- A content-array entry that is `null` or `undefined`: decoded lines cannot hold one. In the source, `block.type` throws on it. `getSessionEvents` then skips that file and tries the next matching transcript (apps/api/src/sync/transcript-watcher.ts:229-253). `getLiveEvents` keeps the events already taken from that file (apps/api/src/sync/transcript-watcher.ts:264-282). `parseAgentFile` keeps the updates that line made before the throw, such as the message count and the model (apps/api/src/sync/agents.ts:149-192).
- `toLowerCase` and `toUpperCase`: modelled on ASCII letters only; other characters are unchanged.
- The throw when the projects directory itself cannot be listed: a missing root is an empty listing, and an unreadable root is not distinguished from an empty one.
- JavaScript object key order and duplicate keys in `mcp.json`: entries are a sequence in file order, and the details lemma assumes distinct names, as a decoded object has.
- A `null` server entry: `getMcpServers` throws on it and reports the read error, while `getMcpServerDetails` treats it as not found. Both behaviours are modelled, as are a `false`, `0` or `""` entry (listed, not found) and an environment value that is not a string (listed, details fail).
- An environment value that is an array: `maskEnvValue` accepts it and masks its joined text, while the model treats every non-string value as one on which masking throws.
- An `env` or `mcpServers` value that is a non-empty string: `Object.keys` and `Object.entries` list its characters under index keys. The model decodes each record as an object or as absent.
- Fields `command`, `args` and `url` of other JSON types than the declared ones: they are copied verbatim by the source and are not modelled.
- The error message texts of the MCP functions: errors are constructors.
- The HTTP routes, the database schema and client, the WebSocket server, the statistics reader, and the web pages: these are outside the sync core.
- The store is generic in its session, execution and summary types; those types' fields are not part of the store's behaviour.
- Live.GetActiveSessions: its own contract gives only the bound of ten; `Live.ActiveSessionsFacts` and `Live.ActiveSessionsInOrder` state the rest.
- A content-array entry that is a number, string or boolean: reading its `type` gives `undefined` and nothing throws, so the source skips it like any block of another type. The model decodes such an entry as an `OtherBlock`.
- A `message.content` that is neither a string nor an array, such as a number or a plain object: decoded lines cannot hold one. In `extractEvents`, `for..of` over it throws (apps/api/src/sync/transcript-watcher.ts:147-148), with the same consequences for the three callers as a `null` entry. `extractMessageContent` returns "" for it, and the tool-call count skips it (apps/api/src/sync/agents.ts:113-122, 180).
- A `toolUseResult.file.content` that is not a string: decoded lines cannot hold one. In the source, `slice` throws on a number or a plain object (apps/api/src/sync/transcript-watcher.ts:183).
- Live.SessionEventsNewestFirst: it models the code, which returns the last events in reverse file order. The documented behaviour is a sort by timestamp. A `limit` of 0 returns every event, because `slice(-0)` is `slice(0)`.
- Agents.InferAgentType: the body keeps the test `lower === 'warmup'`, but no clause of the contract states it apart, since `lower.includes('warmup')` already covers it.
- Agents.GetAgentStats: it models the `byModel` and `byType` records as counts in first-seen key order. A model named like an `Object.prototype` property (`__proto__`) is not treated specially.
