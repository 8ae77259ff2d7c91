/**
 The live query functions of the transcript watcher: `getActiveSessions`,
 `getSessionEvents`, `getLiveEvents` and `getCurrentSessionEvents`. Each
 re-scans the file-system snapshot `root` at the instant `now`
 (milliseconds); nothing is cached between calls.
 */
module Live {
  import opened Js
  import opened Transcript
  import opened Discovery
  import opened Events
  import Sorting

  const ActiveWindowMinutes := 60
  const MaxActiveSessions := 10
  const SessionWindowMinutes := 120
  const LiveWindowMinutes := 30
  const MaxLiveFiles := 5
  const LiveTailLines := 20

  /** `ActiveSession`. `isAgent` comes from the file name here, not from the
      lines' `agentId` as in `extractEvents`. */
  datatype ActiveSession = ActiveSession(
    sessionId: string,
    filePath: FilePath,
    lastModified: int,
    projectPath: string,
    eventCount: nat,
    model: Option<string>,
    isAgent: bool)

  // ---------------------------------------------------------------------
  // getActiveSessions
  // ---------------------------------------------------------------------

  /** One iteration of the loop in `getActiveSessions`: `None` for a file
      that cannot be read, has no non-empty line, or whose first line does
      not parse. */
  function SessionOf(f: Found): (r: Option<ActiveSession>)
    ensures r.Some? <==> f.body.Some? && |f.body.value| > 0 && f.body.value[0].Some?
    ensures r.Some? ==> DescribesFile(r.value, f)
  {
    match f.body
    case None => None
    case Some(lines) =>
      if |lines| == 0 || lines[0].None? then None
      else
        var last := lines[|lines| - 1];
        Some(ActiveSession(
          lines[0].value.sessionId, f.path, f.mtime, f.path.project, |lines|,
          if last.Some? then ModelOf(last.value) else None,
          StartsWith(f.path.name, "agent-")))
  }

  /** The session describes file `f`: its path, time, project, line count,
      first line's session id, last line's model, and agent-ness by name. */
  predicate DescribesFile(s: ActiveSession, f: Found) {
    && f.body.Some? && |f.body.value| > 0 && f.body.value[0].Some?
    && var lines := f.body.value;
    && s.filePath == f.path
    && s.lastModified == f.mtime
    && s.projectPath == f.path.project
    && s.eventCount == |lines|
    && s.sessionId == lines[0].value.sessionId
    && s.model == (if lines[|lines| - 1].Some? then ModelOf(lines[|lines| - 1].value) else None)
    && s.isAgent == StartsWith(f.path.name, "agent-")
  }

  predicate LaterModified(a: ActiveSession, b: ActiveSession) {
    a.lastModified >= b.lastModified
  }

  /** The loop of `getActiveSessions` over the files it looks at. */
  function SessionsOf(fs: seq<Found>): (r: seq<ActiveSession>)
    ensures |r| <= |fs|
  {
    if fs == [] then []
    else
      match SessionOf(fs[0])
      case None => SessionsOf(fs[1..])
      case Some(s) => [s] + SessionsOf(fs[1..])
  }

  /** Every session the loop keeps describes one of the files, and every
      file that yields a session has it kept. */
  lemma SessionsOfMembers(fs: seq<Found>)
    ensures forall k :: 0 <= k < |SessionsOf(fs)| ==>
              exists i :: 0 <= i < |fs| && SessionOf(fs[i]) == Some(SessionsOf(fs)[k])
    ensures forall i :: 0 <= i < |fs| && SessionOf(fs[i]).Some? ==> SessionOf(fs[i]).value in SessionsOf(fs)
  {
    SessionsOfInOrder(fs);
    var r, idx := SessionsOf(fs), KeptIndices(fs, SessionOf);
    forall k | 0 <= k < |r| ensures exists i :: 0 <= i < |fs| && SessionOf(fs[i]) == Some(r[k]) {
      assert SessionOf(fs[idx[k]]) == Some(r[k]);
    }
    forall i | 0 <= i < |fs| && SessionOf(fs[i]).Some? ensures SessionOf(fs[i]).value in r {
      var k :| 0 <= k < |idx| && idx[k] == i;
      assert SessionOf(fs[i]) == Some(r[k]);
    }
  }


  /** Files in most-recent-first order give sessions in most-recent-first order. */
  lemma {:induction false} SessionsOfSorted(fs: seq<Found>)
    requires Sorting.Sorted(fs, NewerOrSame)
    ensures Sorting.Sorted(SessionsOf(fs), LaterModified)
  {
    if fs != [] {
      SessionsOfSorted(fs[1..]);
      SessionsOfMembers(fs[1..]);
      var rest := SessionsOf(fs[1..]);
      forall k | 0 <= k < |rest|
        ensures fs[0].mtime >= rest[k].lastModified
      {
        var i :| 0 <= i < |fs[1..]| && SessionOf(fs[1..][i]) == Some(rest[k]);
        assert fs[1..][i] == fs[i + 1];
      }
    }
  }

  lemma {:induction false} SessionsOfIsFilterMap(fs: seq<Found>)
    ensures SessionsOf(fs) == FilterMap(fs, SessionOf)
  {
    if fs != [] {
      SessionsOfIsFilterMap(fs[1..]);
    }
  }

  /** The loop keeps one session for each file that yields one, each once,
      in file order. */
  lemma SessionsOfInOrder(fs: seq<Found>)
    ensures OrderedSelection(fs, SessionOf, SessionsOf(fs), KeptIndices(fs, SessionOf))
  {
    SessionsOfIsFilterMap(fs);
    FilterMapSelects(fs, SessionOf);
  }

  /** `getActiveSessions`: the sessions of the ten most recently modified
      transcripts of the last hour. */
  function GetActiveSessions(root: seq<ProjectEntry>, now: int): (r: seq<ActiveSession>)
    ensures |r| <= MaxActiveSessions
  {
    SessionsOf(Slice(FindRecent(root, now, ActiveWindowMinutes, Transcripts), 0, MaxActiveSessions))
  }

  /** What `getActiveSessions` returns: most recent first; each session
      describes one of the ten most recent transcripts of the last hour, has
      at least one line and was modified within the hour; every one of those
      ten files that yields a session is represented. */
  lemma ActiveSessionsFacts(root: seq<ProjectEntry>, now: int)
    ensures var r := GetActiveSessions(root, now);
            var fs := FindRecent(root, now, ActiveWindowMinutes, Transcripts);
            && Sorting.Sorted(r, LaterModified)
            && (forall k :: 0 <= k < |r| ==>
                  && (exists i :: 0 <= i < Min(|fs|, MaxActiveSessions) && DescribesFile(r[k], fs[i]))
                  && r[k].eventCount >= 1
                  && r[k].lastModified > now - ActiveWindowMinutes * MinuteMs)
            && (forall i :: 0 <= i < Min(|fs|, MaxActiveSessions) && SessionOf(fs[i]).Some? ==>
                  SessionOf(fs[i]).value in r)
  {
    var fs := FindRecent(root, now, ActiveWindowMinutes, Transcripts);
    var top := Slice(fs, 0, MaxActiveSessions);
    ActiveCandidates(root, now);
    SessionsOfSorted(top);
    SessionsOfMembers(top);
    var r := SessionsOf(top);
    forall k | 0 <= k < |r|
      ensures exists i :: 0 <= i < Min(|fs|, MaxActiveSessions) && DescribesFile(r[k], fs[i])
      ensures r[k].lastModified > now - ActiveWindowMinutes * MinuteMs
    {
      var i :| 0 <= i < |top| && SessionOf(top[i]) == Some(r[k]);
      assert top[i] == fs[i];
    }
  }

  /** `getActiveSessions` has one session for each of the ten most recent
      transcripts that yields one, each once, in the order of the files. */
  lemma ActiveSessionsInOrder(root: seq<ProjectEntry>, now: int)
    ensures var fs := FindRecent(root, now, ActiveWindowMinutes, Transcripts);
            var top := fs[..Min(|fs|, MaxActiveSessions)];
            OrderedSelection(top, SessionOf, GetActiveSessions(root, now), KeptIndices(top, SessionOf))
  {
    ActiveCandidates(root, now);
    var fs := FindRecent(root, now, ActiveWindowMinutes, Transcripts);
    SessionsOfInOrder(fs[..Min(|fs|, MaxActiveSessions)]);
  }

  /** The files `getActiveSessions` looks at: the first ten of the recent
      transcripts, most recent first, all modified within the hour. */
  lemma ActiveCandidates(root: seq<ProjectEntry>, now: int)
    ensures var fs := FindRecent(root, now, ActiveWindowMinutes, Transcripts);
            var top := Slice(fs, 0, MaxActiveSessions);
            && top == fs[..Min(|fs|, MaxActiveSessions)]
            && Sorting.Sorted(top, NewerOrSame)
            && forall i :: 0 <= i < |top| ==> top[i].mtime > now - ActiveWindowMinutes * MinuteMs
  {
    var fs := FindRecent(root, now, ActiveWindowMinutes, Transcripts);
    FindRecentFacts(root, now, ActiveWindowMinutes, Transcripts);
    var top := Slice(fs, 0, MaxActiveSessions);
    assert top == fs[..Min(|fs|, MaxActiveSessions)];
    Sorting.SortedPrefix(fs, |top|, NewerOrSame);
  }

  // ---------------------------------------------------------------------
  // getSessionEvents
  // ---------------------------------------------------------------------

  /** All events of a file's lines, in file order; a line that does not
      parse gives none. */
  function FileEvents(lines: Body): seq<ParsedEvent> {
    if lines == [] then []
    else (if lines[0].Some? then ExtractEvents(lines[0].value) else []) + FileEvents(lines[1..])
  }

  /** The events of two runs of lines are those of the first, then those of
      the second: `allEvents.push(...events)` line by line. */
  lemma {:induction false} FileEventsAppend(a: Body, b: Body)
    ensures FileEvents(a + b) == FileEvents(a) + FileEvents(b)
  {
    if a == [] {
      assert a + b == b;
    } else {
      assert (a + b)[1..] == a[1..] + b;
      FileEventsAppend(a[1..], b);
    }
  }

  /** Every event of a file was extracted from one of its parsed lines and
      is well formed with respect to that line. */
  lemma {:induction false} FileEventsSound(lines: Body)
    ensures forall k :: 0 <= k < |FileEvents(lines)| ==>
              exists i :: 0 <= i < |lines| && lines[i].Some? && WellFormed(FileEvents(lines)[k], lines[i].value)
  {
    if lines != [] {
      FileEventsSound(lines[1..]);
      var head := if lines[0].Some? then ExtractEvents(lines[0].value) else [];
      var rest := FileEvents(lines[1..]);
      var r := FileEvents(lines);
      assert r == head + rest;
      if lines[0].Some? {
        ExtractEventsWellFormed(lines[0].value);
      }
      forall k | 0 <= k < |r|
        ensures exists i :: 0 <= i < |lines| && lines[i].Some? && WellFormed(r[k], lines[i].value)
      {
        if k < |head| {
          assert r[k] == head[k];
          assert lines[0].Some? && WellFormed(r[k], lines[0].value);
        } else {
          assert r[k] == rest[k - |head|];
          var i :| 0 <= i < |lines[1..]| && lines[1..][i].Some? && WellFormed(rest[k - |head|], lines[1..][i].value);
          assert lines[1..][i] == lines[i + 1];
        }
      }
      assert forall k :: 0 <= k < |FileEvents(lines)| ==>
              exists i :: 0 <= i < |lines| && lines[i].Some? && WellFormed(FileEvents(lines)[k], lines[i].value);
    } else {
      assert FileEvents(lines) == [];
    }
  }

  /** The file can be read, has a line, and its first line parses with the
      requested session id. */
  predicate HoldsSession(f: Found, sessionId: string) {
    f.body.Some? && |f.body.value| > 0 && f.body.value[0].Some? && f.body.value[0].value.sessionId == sessionId
  }

  /** The position of the first file that holds the session. */
  function SessionFileIndex(fs: seq<Found>, sessionId: string): (r: Option<nat>)
    ensures r.Some? ==> r.value < |fs| && HoldsSession(fs[r.value], sessionId)
    ensures forall j :: 0 <= j < |fs| && (r.None? || j < r.value) ==> !HoldsSession(fs[j], sessionId)
  {
    if fs == [] then None
    else if HoldsSession(fs[0], sessionId) then Some(0)
    else
      match SessionFileIndex(fs[1..], sessionId)
      case None => None
      case Some(i) => Some(i + 1)
  }

  /** `all.slice(-limit).reverse()`. */
  function LastReversed<T>(all: seq<T>, limit: int): (r: seq<T>)
    ensures |r| == if 1 <= limit then Min(limit, |all|) else |all| - Min(-limit, |all|)
    ensures forall k :: 0 <= k < |r| ==> r[k] == all[|all| - 1 - k]
  {
    var kept := SliceFrom(all, -limit);
    var n := if 1 <= limit then Min(limit, |all|) else |all| - Min(-limit, |all|);
    assert kept == all[|all| - n..];
    Reverse(kept)
  }

  /** The loop of `getSessionEvents` over the files it looks at: nothing
      when no file starts with `sessionId`; otherwise the last events of the
      first one that does, newest first in file order (the reverse of file
      order, not a sort by timestamp). A `limit` of zero keeps them all. */
  function SessionEvents(fs: seq<Found>, sessionId: string, limit: int): seq<ParsedEvent> {
    match SessionFileIndex(fs, sessionId)
    case None => []
    case Some(i) => LastReversed(SessionFileEvents(fs[i]), limit)
  }

  /** `getSessionEvents`: the transcripts of the last two hours, most
      recently modified first. */
  function GetSessionEvents(root: seq<ProjectEntry>, now: int, sessionId: string, limit: int): seq<ParsedEvent> {
    SessionEvents(FindRecent(root, now, SessionWindowMinutes, Transcripts), sessionId, limit)
  }

  /** What `getSessionEvents` returns, spelled out: with no matching file,
      nothing; otherwise the last `limit` events of the first transcript that
      starts with the session (all of them when there are fewer, or when
      `limit` is zero), newest first. */
  lemma SessionEventsNewestFirst(fs: seq<Found>, sessionId: string, limit: int)
    ensures SessionFileIndex(fs, sessionId).None? ==> SessionEvents(fs, sessionId, limit) == []
    ensures SessionFileIndex(fs, sessionId).Some? ==>
              LastNewestFirst(SessionEvents(fs, sessionId, limit),
                              SessionFileEvents(fs[SessionFileIndex(fs, sessionId).value]), limit)
  {
    if SessionFileIndex(fs, sessionId).Some? {
      var i := SessionFileIndex(fs, sessionId).value;
      MatchedSessionEvents(fs, sessionId, limit, i);
      LastReversedCount(SessionFileEvents(fs[i]), limit, SessionEvents(fs, sessionId, limit));
    }
  }

  /** The matched case of `getSessionEvents`. */
  lemma MatchedSessionEvents(fs: seq<Found>, sessionId: string, limit: int, i: nat)
    requires SessionFileIndex(fs, sessionId) == Some(i)
    ensures i < |fs| && SessionEvents(fs, sessionId, limit) == LastReversed(SessionFileEvents(fs[i]), limit)
  {
  }

  /** `r` is the last `limit` items of `all` (all of them when there are
      fewer, or when `limit` is zero), newest first. */
  ghost predicate LastNewestFirst<T>(r: seq<T>, all: seq<T>, limit: int) {
    && |r| <= |all|
    && (1 <= limit ==> |r| == Min(limit, |all|))
    && (limit == 0 ==> |r| == |all|)
    && r == Reverse(all[|all| - |r|..])
  }

  /** How many items `slice(-limit).reverse()` keeps, and that they are
      the last ones, reversed. */
  lemma LastReversedCount<T>(all: seq<T>, limit: int, r: seq<T>)
    requires r == LastReversed(all, limit)
    ensures LastNewestFirst(r, all, limit)
  {
  }

  /** All events of a readable file. */
  function SessionFileEvents(f: Found): seq<ParsedEvent> {
    if f.body.Some? then FileEvents(f.body.value) else []
  }

  // ---------------------------------------------------------------------
  // getLiveEvents
  // ---------------------------------------------------------------------

  /** The events of the last twenty lines of each readable file, file after file. */
  function TailEvents(fs: seq<Found>): seq<ParsedEvent> {
    if fs == [] then []
    else
      (match fs[0].body
       case None => []
       case Some(lines) => FileEvents(SliceFrom(lines, -LiveTailLines)))
      + TailEvents(fs[1..])
  }

  /** The events `getLiveEvents` chooses from: those of the last twenty lines
      of the five most recently modified transcripts of the last thirty minutes. */
  function LiveCandidates(root: seq<ProjectEntry>, now: int): seq<ParsedEvent> {
    TailEvents(Slice(FindRecent(root, now, LiveWindowMinutes, Transcripts), 0, MaxLiveFiles))
  }

  /** The comparator of `getLiveEvents`, with `instant` standing for
      `new Date(timestamp).getTime()`: most recent first. */
  function LaterOrSame(instant: string -> int): (ParsedEvent, ParsedEvent) -> bool {
    (a: ParsedEvent, b: ParsedEvent) => instant(a.timestamp) >= instant(b.timestamp)
  }

  lemma LaterOrSameIsTotalPreorder(instant: string -> int)
    ensures Sorting.TotalPreorder(LaterOrSame(instant))
  {
  }

  /** `getLiveEvents`: candidate events, most recent first by timestamp,
      cut by `slice(0, limit)`. */
  function GetLiveEvents(root: seq<ProjectEntry>, now: int, limit: int, instant: string -> int): (r: seq<ParsedEvent>)
    ensures 0 <= limit ==> |r| == Min(limit, |LiveCandidates(root, now)|)
    ensures Sorting.Sorted(r, LaterOrSame(instant))
    ensures multiset(r) <= multiset(LiveCandidates(root, now))
  {
    var all := LiveCandidates(root, now);
    LaterOrSameIsTotalPreorder(instant);
    var sorted := Sorting.Sort(all, LaterOrSame(instant));
    SlicePrefix(sorted, limit, LaterOrSame(instant));
    Slice(sorted, 0, limit)
  }

  /** `s.slice(0, limit)` of a sorted sequence is a sorted prefix of it. */
  lemma SlicePrefix<T>(s: seq<T>, limit: int, le: (T, T) -> bool)
    requires Sorting.Sorted(s, le)
    ensures Slice(s, 0, limit) == s[..|Slice(s, 0, limit)|]
    ensures 0 <= limit ==> |Slice(s, 0, limit)| == Min(limit, |s|)
    ensures Sorting.Sorted(Slice(s, 0, limit), le)
    ensures multiset(Slice(s, 0, limit)) <= multiset(s)
  {
    var r := Slice(s, 0, limit);
    assert s == s[..|r|] + s[|r|..];
  }

  /** Whatever a sorted sequence's first `n` elements leave out comes no
      earlier than any of them. */
  lemma PrefixPrecedesRest<T>(s: seq<T>, n: nat, le: (T, T) -> bool)
    requires Sorting.Sorted(s, le)
    requires n <= |s|
    ensures forall x :: x in multiset(s) - multiset(s[..n]) ==> forall k :: 0 <= k < n ==> le(s[k], x)
  {
    assert s == s[..n] + s[n..];
    forall x | x in multiset(s) - multiset(s[..n])
      ensures forall k :: 0 <= k < n ==> le(s[k], x)
    {
      assert x in multiset(s[n..]);
      var j :| 0 <= j < |s[n..]| && s[n..][j] == x;
      assert s[n + j] == x;
    }
  }

  /** `getLiveEvents` keeps the most recent candidates: every candidate left
      out is no later than every event returned. */
  lemma LiveEventsAreMostRecent(root: seq<ProjectEntry>, now: int, limit: int, instant: string -> int)
    ensures var r := GetLiveEvents(root, now, limit, instant);
            forall x :: x in multiset(LiveCandidates(root, now)) - multiset(r) ==>
              forall k :: 0 <= k < |r| ==> instant(r[k].timestamp) >= instant(x.timestamp)
  {
    var all := LiveCandidates(root, now);
    LaterOrSameIsTotalPreorder(instant);
    var sorted := Sorting.Sort(all, LaterOrSame(instant));
    SlicePrefix(sorted, limit, LaterOrSame(instant));
    var r := Slice(sorted, 0, limit);
    assert r == GetLiveEvents(root, now, limit, instant);
    PrefixPrecedesRest(sorted, |r|, LaterOrSame(instant));
    forall x | x in multiset(all) - multiset(r)
      ensures forall k :: 0 <= k < |r| ==> instant(r[k].timestamp) >= instant(x.timestamp)
    {
      forall k | 0 <= k < |r|
        ensures instant(r[k].timestamp) >= instant(x.timestamp)
      {
        assert r[k] == sorted[k];
        assert LaterOrSame(instant)(sorted[k], x);
      }
    }
  }

  // ---------------------------------------------------------------------
  // getCurrentSessionEvents
  // ---------------------------------------------------------------------

  datatype Current = Current(session: Option<ActiveSession>, events: seq<ParsedEvent>)

  /** `sessions.find(s => !s.isAgent) || sessions[0]`, as a position. */
  function MainSessionIndex(sessions: seq<ActiveSession>): (i: nat)
    requires |sessions| > 0
    ensures i < |sessions|
    ensures forall j :: 0 <= j < i ==> sessions[j].isAgent
    ensures sessions[i].isAgent ==> i == 0 && forall j :: 0 <= j < |sessions| ==> sessions[j].isAgent
  {
    if !sessions[0].isAgent || |sessions| == 1 then 0
    else
      var i := MainSessionIndex(sessions[1..]);
      if sessions[1..][i].isAgent then 0 else i + 1
  }

  /** `getCurrentSessionEvents`: no session and no events when nothing is
      active; otherwise the most recently modified active session that is
      not an agent transcript (the most recent one when all are), with
      `getSessionEvents` of its id. */
  function GetCurrentSessionEvents(root: seq<ProjectEntry>, now: int, limit: int): (r: Current)
    ensures var sessions := GetActiveSessions(root, now);
            && (r.session.None? <==> |sessions| == 0)
            && (r.session.None? ==> r.events == [])
            && (r.session.Some? ==>
                  exists i :: 0 <= i < |sessions| && sessions[i] == r.session.value &&
                    (forall j :: 0 <= j < i ==> sessions[j].isAgent) &&
                    (sessions[i].isAgent ==> i == 0 && forall j :: 0 <= j < |sessions| ==> sessions[j].isAgent))
    ensures r.session.Some? ==> r.events == GetSessionEvents(root, now, r.session.value.sessionId, limit)
  {
    var sessions := GetActiveSessions(root, now);
    if |sessions| == 0 then Current(None, [])
    else
      var main := sessions[MainSessionIndex(sessions)];
      Current(Some(main), GetSessionEvents(root, now, main.sessionId, limit))
  }
}
