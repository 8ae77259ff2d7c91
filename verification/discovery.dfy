/**
 Recent-file discovery under the projects directory (`~/.claude/projects`):
 `findRecentTranscripts` in the transcript watcher and `findAgentFiles` in
 the agent summariser are the same scan with different name filters.

 The file system is one snapshot passed in as a value: the root's entries,
 each directory's file entries with their modification times (milliseconds)
 and contents. A missing root is an empty listing.
 */
module Discovery {
  import opened Js
  import opened Transcript
  import Sorting

  const MinuteMs: int := 60 * 1000

  /** A file in a project directory. `mtime` is `None` when `statSync`
      throws, `body` is `None` when `readFileSync` throws. */
  datatype FileEntry = FileEntry(name: string, mtime: Option<int>, body: Option<Body>)

  /** An entry of the projects directory; `files` is `None` when
      `readdirSync` throws on it. */
  datatype ProjectEntry = ProjectEntry(name: string, isDirectory: bool, files: Option<seq<FileEntry>>)

  /** `join(PROJECTS_DIR, project, name)`. */
  datatype FilePath = FilePath(project: string, name: string)

  /** One discovered file: `{ path, mtime }`, with its contents for later reads. */
  datatype Found = Found(path: FilePath, mtime: int, body: Option<Body>)

  /** The two name filters: `findRecentTranscripts` keeps every `.jsonl`
      file, `findAgentFiles` only those named `agent-*.jsonl`. */
  datatype NameFilter = Transcripts | AgentFiles

  predicate Accepts(filter: NameFilter, name: string) {
    match filter
    case Transcripts => EndsWith(name, ".jsonl")
    case AgentFiles => StartsWith(name, "agent-") && EndsWith(name, ".jsonl")
  }

  predicate IsDirectory(e: ProjectEntry) {
    e.isDirectory
  }

  /** The comparator `b.mtime - a.mtime`: most recent first. */
  predicate NewerOrSame(a: Found, b: Found) {
    a.mtime >= b.mtime
  }

  lemma NewerOrSameIsTotalPreorder()
    ensures Sorting.TotalPreorder(NewerOrSame)
  {
  }

  /** The inner loop over one directory's files. A `statSync` failure throws
      out of the loop, so the rest of that directory is skipped; the files
      kept before it stay. */
  function ScanDir(project: string, files: seq<FileEntry>, filter: NameFilter, cutoff: int): (r: seq<Found>)
    ensures |r| <= |files|
    ensures forall k :: 0 <= k < |r| ==>
              r[k].path.project == project && Accepts(filter, r[k].path.name) && r[k].mtime > cutoff
    ensures (forall i :: 0 <= i < |files| && Accepts(filter, files[i].name) ==> files[i].mtime.Some?) ==>
              forall i :: 0 <= i < |files| && Accepts(filter, files[i].name) && files[i].mtime.value > cutoff ==>
                Found(FilePath(project, files[i].name), files[i].mtime.value, files[i].body) in r
  {
    if files == [] then []
    else
      var f := files[0];
      if !Accepts(filter, f.name) then ScanDir(project, files[1..], filter, cutoff)
      else match f.mtime
        case None => []
        case Some(t) =>
          (if t > cutoff then [Found(FilePath(project, f.name), t, f.body)] else [])
          + ScanDir(project, files[1..], filter, cutoff)
  }

  /** How far the inner loop gets: the position of the first accepted file
      whose `statSync` throws, or the end of the listing. */
  function StatLimit(files: seq<FileEntry>, filter: NameFilter): (n: nat)
    ensures n <= |files|
    ensures forall i :: 0 <= i < n ==> !(Accepts(filter, files[i].name) && files[i].mtime.None?)
    ensures n < |files| ==> Accepts(filter, files[n].name) && files[n].mtime.None?
  {
    if files == [] then 0
    else if Accepts(filter, files[0].name) && files[0].mtime.None? then 0
    else 1 + StatLimit(files[1..], filter)
  }

  /** What the inner loop makes of one file it reaches: the accepted files
      modified after the cut-off, with their path. */
  function Keeper(project: string, filter: NameFilter, cutoff: int): FileEntry -> Option<Found> {
    (f: FileEntry) => if Accepts(filter, f.name) && f.mtime.Some? && f.mtime.value > cutoff
                      then Some(Found(FilePath(project, f.name), f.mtime.value, f.body))
                      else None
  }

  /** The inner loop, stated as a filter-map over the entries it reaches. */
  lemma {:induction false} ScanDirIsFilterMap(project: string, files: seq<FileEntry>, filter: NameFilter, cutoff: int)
    ensures ScanDir(project, files, filter, cutoff) ==
            FilterMap(files[..StatLimit(files, filter)], Keeper(project, filter, cutoff))
  {
    if files != [] && !(Accepts(filter, files[0].name) && files[0].mtime.None?) {
      ScanDirIsFilterMap(project, files[1..], filter, cutoff);
      ScanDirStep(project, files, filter, cutoff);
      var prefix := files[..StatLimit(files, filter)];
      assert prefix[0] == files[0] && prefix[1..] == files[1..][..StatLimit(files[1..], filter)];
    }
  }

  /** A file the inner loop gets past adds what `Keeper` makes of it. */
  lemma ScanDirStep(project: string, files: seq<FileEntry>, filter: NameFilter, cutoff: int)
    requires files != [] && !(Accepts(filter, files[0].name) && files[0].mtime.None?)
    ensures var kept := Keeper(project, filter, cutoff)(files[0]);
            ScanDir(project, files, filter, cutoff) ==
              (if kept.Some? then [kept.value] else []) + ScanDir(project, files[1..], filter, cutoff)
  {
  }

  /** The inner loop keeps exactly the accepted files modified after the
      cut-off that come before the first failing `statSync`, each once, in
      listing order, with the name, time and contents of its entry; nothing
      at or after that failure is kept. */
  lemma ScanDirSelects(project: string, files: seq<FileEntry>, filter: NameFilter, cutoff: int)
    ensures var reached := files[..StatLimit(files, filter)];
            OrderedSelection(reached, Keeper(project, filter, cutoff), ScanDir(project, files, filter, cutoff),
                             KeptIndices(reached, Keeper(project, filter, cutoff)))
  {
    ScanDirIsFilterMap(project, files, filter, cutoff);
    FilterMapSelects(files[..StatLimit(files, filter)], Keeper(project, filter, cutoff));
  }

  /** What one entry of the projects directory contributes: nothing for a
      non-directory (`findProjectDirs` drops it) or for a directory whose
      listing throws. */
  function DirFiles(e: ProjectEntry, filter: NameFilter, cutoff: int): seq<Found> {
    if !e.isDirectory then []
    else match e.files
      case None => []
      case Some(files) => ScanDir(e.name, files, filter, cutoff)
  }

  /** The outer loop over project directories. */
  function Collect(root: seq<ProjectEntry>, filter: NameFilter, cutoff: int): (r: seq<Found>)
    ensures forall k :: 0 <= k < |r| ==> Accepts(filter, r[k].path.name) && r[k].mtime > cutoff
  {
    if root == [] then []
    else DirFiles(root[0], filter, cutoff) + Collect(root[1..], filter, cutoff)
  }

  /** Every collected file comes from one entry of the projects directory. */
  lemma {:induction false} CollectProvenance(root: seq<ProjectEntry>, filter: NameFilter, cutoff: int)
    ensures forall k :: 0 <= k < |Collect(root, filter, cutoff)| ==>
              exists j :: 0 <= j < |root| && Collect(root, filter, cutoff)[k] in DirFiles(root[j], filter, cutoff)
  {
    if root != [] {
      CollectProvenance(root[1..], filter, cutoff);
      var head, r' := DirFiles(root[0], filter, cutoff), Collect(root[1..], filter, cutoff);
      var r := Collect(root, filter, cutoff);
      assert r == head + r';
      forall k | 0 <= k < |r| ensures exists j :: 0 <= j < |root| && r[k] in DirFiles(root[j], filter, cutoff) {
        if k < |head| {
          assert r[k] in DirFiles(root[0], filter, cutoff);
        } else {
          assert r[k] == r'[k - |head|];
          var j :| 0 <= j < |root[1..]| && r'[k - |head|] in DirFiles(root[1..][j], filter, cutoff);
          assert root[1..][j] == root[j + 1];
          assert r[k] in DirFiles(root[j + 1], filter, cutoff);
        }
      }
    } else {
      assert Collect(root, filter, cutoff) == [];
    }
  }

  lemma {:induction false} CollectAppend(a: seq<ProjectEntry>, b: seq<ProjectEntry>, filter: NameFilter, cutoff: int)
    ensures Collect(a + b, filter, cutoff) == Collect(a, filter, cutoff) + Collect(b, filter, cutoff)
  {
    if a != [] {
      assert (a + b)[1..] == a[1..] + b;
      CollectAppend(a[1..], b, filter, cutoff);
    } else {
      assert a + b == b;
    }
  }

  /** `findRecentTranscripts` / `findAgentFiles`: the collected files, most
      recent first (ties keep discovery order). */
  function FindRecent(root: seq<ProjectEntry>, now: int, minutes: int, filter: NameFilter): seq<Found> {
    NewerOrSameIsTotalPreorder();
    Sorting.Sort(Collect(root, filter, now - minutes * MinuteMs), NewerOrSame)
  }

  /** What discovery returns: the files whose name passes `filter` and whose
      modification time is strictly after `now - minutes` minutes, from every
      readable directory, most recent first across all directories. */
  lemma FindRecentFacts(root: seq<ProjectEntry>, now: int, minutes: int, filter: NameFilter)
    ensures var r := FindRecent(root, now, minutes, filter);
            && Sorting.Sorted(r, NewerOrSame)
            && multiset(r) == multiset(Collect(root, filter, now - minutes * MinuteMs))
            && forall k :: 0 <= k < |r| ==> Accepts(filter, r[k].path.name) && r[k].mtime > now - minutes * MinuteMs
  {
    NewerOrSameIsTotalPreorder();
    var found := Collect(root, filter, now - minutes * MinuteMs);
    var r := FindRecent(root, now, minutes, filter);
    assert forall k :: 0 <= k < |r| ==> r[k] in multiset(found);
  }

  /** A directory that cannot be listed changes nothing: the files
      collected over a root with it are those collected without it, so the
      sorted result is the same too. */
  lemma UnreadableDirContributesNothing(before: seq<ProjectEntry>, d: ProjectEntry, after: seq<ProjectEntry>, filter: NameFilter, cutoff: int)
    requires d.files.None?
    ensures Collect(before + [d] + after, filter, cutoff) == Collect(before + after, filter, cutoff)
  {
    assert Collect([d], filter, cutoff) == [] by {
      assert [d][1..] == [];
    }
    CollectAppend(before + [d], after, filter, cutoff);
    CollectAppend(before, [d], filter, cutoff);
    CollectAppend(before, after, filter, cutoff);
    assert Collect(before + [d], filter, cutoff) == Collect(before, filter, cutoff);
  }
}
