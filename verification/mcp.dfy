/**
 The MCP server catalogue: the first MCP configuration file that exists
 under the home directory is read, each configured server is described
 (local or remote, its environment variable names), the list is ordered
 local first and by name, and environment values are masked for display.

 The file system is a snapshot: the paths that exist, each with what
 reading and decoding it gives.
 */
module Mcp {
  import opened Js
  import Sorting

  const Mask := "****"
  const MaskShowLast := 4
  const MaskAllUpTo := 8

  /** One value of an `env` record. `maskEnvValue` works on strings; on
      `null`, a number, a boolean or an object, reading `length` or calling
      `slice` throws. */
  datatype EnvValue = EnvString(s: string) | EnvOther

  /** `McpServerConfig`; `env` keeps the record's entries in order (a
      decoded JSON object has no repeated key), and is `None` when absent or
      falsy. */
  datatype ServerConfig = ServerConfig(
    command: Option<string>,
    args: Option<seq<string>>,
    env: Option<seq<(string, EnvValue)>>,
    url: Option<string>)

  /** The value of one entry of `mcpServers`. Reading `url` of `null`
      throws, while on `false`, `0` or `""` it gives `undefined`, so those
      three are kept apart. Any other value that is not an object (`true`,
      a non-zero number, a non-empty string, an array) has none of the
      fields, and decodes as the object with no field set. */
  datatype ServerEntry = NullEntry | FalsyEntry | ObjectEntry(config: ServerConfig)

  type Entry = (string, ServerEntry)

  /** `McpConfig`: the entries of the `mcpServers` record, if present. */
  datatype McpConfig = McpConfig(mcpServers: Option<seq<Entry>>)

  /** What reading and decoding an existing path gives: a read error, a
      parse error or a `null` document (reading `mcpServers` of `null`
      throws), or a config. Any other document that is not an object, such
      as a number or an array, has no `mcpServers` and decodes as a config
      without servers. */
  datatype ConfigFile = Unreadable | Malformed | Parsed(config: McpConfig)

  type FileSystem = map<string, ConfigFile>

  datatype ServerType = Local | Remote
  datatype ServerStatus = Configured

  /** `McpServer`. */
  datatype McpServer = McpServer(
    name: string,
    serverType: ServerType,
    command: Option<string>,
    args: Option<seq<string>>,
    url: Option<string>,
    hasEnv: bool,
    envKeys: seq<string>,
    status: ServerStatus)

  /** The `error` strings: no configuration file; the exception thrown while
      reading, decoding or walking the file (its message is not modelled);
      no server of that name. */
  datatype McpError = NoConfigFile | ReadFailure | ServerNotFound(name: string)

  // ---------------------------------------------------------------------
  // findConfigPath
  // ---------------------------------------------------------------------

  /** `MCP_CONFIG_PATHS`, in order of priority. */
  function ConfigPaths(home: string): seq<string> {
    [home + "/.claude/mcp.json", home + "/.config/claude/mcp.json"]
  }

  /** The first path of `paths` that exists. */
  function FirstExisting(paths: seq<string>, fs: FileSystem): (r: Option<string>)
    ensures r.Some? ==> r.value in fs && r.value in paths
    ensures r.None? <==> forall i :: 0 <= i < |paths| ==> paths[i] !in fs
    ensures r.Some? ==> exists i :: 0 <= i < |paths| && paths[i] == r.value &&
                                    forall j :: 0 <= j < i ==> paths[j] !in fs
  {
    if paths == [] then None
    else if paths[0] in fs then Some(paths[0])
    else
      var r := FirstExisting(paths[1..], fs);
      assert r.Some? ==> exists i :: 0 <= i < |paths[1..]| && paths[1..][i] == r.value &&
                                    forall j :: 0 <= j < i ==> paths[1..][j] !in fs;
      r
  }

  /** `findConfigPath`. */
  function FindConfigPath(fs: FileSystem, home: string): (r: Option<string>)
    ensures r.Some? ==> r.value in fs
    ensures ConfigPaths(home)[0] in fs ==> r == Some(ConfigPaths(home)[0])
    ensures ConfigPaths(home)[0] !in fs ==>
              r == (if ConfigPaths(home)[1] in fs then Some(ConfigPaths(home)[1]) else None)
  {
    var paths := ConfigPaths(home);
    assert paths[1..] == [paths[1]] && paths[1..][1..] == [];
    FirstExisting(paths, fs)
  }

  // ---------------------------------------------------------------------
  // maskEnvValue
  // ---------------------------------------------------------------------

  /** `maskEnvValue`: a value of eight characters or fewer is hidden
      entirely; a longer one shows only its last four characters. */
  function MaskEnvValue(value: string): (r: string)
    ensures |value| <= MaskAllUpTo ==> r == Mask
    ensures |value| > MaskAllUpTo ==> |r| == |Mask| + MaskShowLast && r[..|Mask|] == Mask &&
                                      r[|Mask|..] == value[|value| - MaskShowLast..]
  {
    if |value| <= MaskAllUpTo then Mask
    else Mask + Slice(value, -MaskShowLast, |value|)
  }

  /** The mask reveals nothing but the last four characters of a long
      value: values that differ only before those mask alike, and all short
      values mask alike. */
  lemma MaskRevealsOnlyLastFour(v: string, w: string)
    requires |v| > MaskAllUpTo <==> |w| > MaskAllUpTo
    requires |v| > MaskAllUpTo ==> v[|v| - MaskShowLast..] == w[|w| - MaskShowLast..]
    ensures MaskEnvValue(v) == MaskEnvValue(w)
  {
  }

  /** A masked value never shows more than four characters of the value,
      and its length tells only whether the value is longer than eight:
      it is four or eight characters long. */
  lemma MaskLength(v: string)
    ensures |MaskEnvValue(v)| <= |Mask| + MaskShowLast
    ensures |MaskEnvValue(v)| == 4 || |MaskEnvValue(v)| == 8
    ensures |MaskEnvValue(v)| == 8 <==> |v| > MaskAllUpTo
  {
  }

  // ---------------------------------------------------------------------
  // getMcpServers
  // ---------------------------------------------------------------------

  /** `Object.keys(env)`, or none. */
  function EnvKeys(env: Option<seq<(string, EnvValue)>>): (r: seq<string>)
    ensures env.None? ==> r == []
    ensures env.Some? ==> |r| == |env.value|
    ensures env.Some? ==> forall i :: 0 <= i < |r| ==> r[i] == env.value[i].0
  {
    match env
    case None => []
    case Some(entries) => seq(|entries|, i requires 0 <= i < |entries| => entries[i].0)
  }

  /** The description of one configured server. */
  function ToServer(name: string, c: ServerConfig): (s: McpServer)
    ensures s.name == name && s.command == c.command && s.args == c.args && s.url == c.url
    ensures s.serverType == Remote <==> Truthy(c.url)
    ensures s.hasEnv <==> c.env.Some? && |c.env.value| > 0
    ensures s.envKeys == EnvKeys(c.env)
  {
    var keys := EnvKeys(c.env);
    McpServer(name, if Truthy(c.url) then Remote else Local, c.command, c.args, c.url,
              |keys| > 0, keys, Configured)
  }

  /** The fields the source reads from an entry's value: those of the
      object, and none of a falsy value. */
  function ConfigOf(v: ServerEntry): ServerConfig {
    match v
    case ObjectEntry(c) => c
    case _ => ServerConfig(None, None, None, None)
  }

  /** No entry's value is `null` (`serverConfig.url` of `null` throws). */
  predicate NoNullEntry(entries: seq<Entry>) {
    forall i :: 0 <= i < |entries| ==> !entries[i].1.NullEntry?
  }

  /** The loop over `Object.entries(config.mcpServers || {})`. */
  function Describe(entries: seq<Entry>): (r: seq<McpServer>)
    requires NoNullEntry(entries)
    ensures |r| == |entries|
    ensures forall i :: 0 <= i < |r| ==> r[i] == ToServer(entries[i].0, ConfigOf(entries[i].1))
  {
    seq(|entries|, i requires 0 <= i < |entries| => ToServer(entries[i].0, ConfigOf(entries[i].1)))
  }

  /** The comparator: local before remote, by name within a type. */
  predicate LocalFirst(a: McpServer, b: McpServer) {
    if a.serverType != b.serverType then a.serverType == Local else LexLe(a.name, b.name)
  }

  lemma LocalFirstIsTotalPreorder()
    ensures Sorting.TotalPreorder(LocalFirst)
  {
    forall a: McpServer, b: McpServer ensures LocalFirst(a, b) || LocalFirst(b, a) {
      LexLeTotal(a.name, b.name);
    }
    forall a: McpServer, b: McpServer, c: McpServer | LocalFirst(a, b) && LocalFirst(b, c)
      ensures LocalFirst(a, c)
    {
      if a.serverType == b.serverType == c.serverType {
        LexLeTransitive(a.name, b.name, c.name);
      }
    }
  }

  /** `getMcpServers`' result. */
  datatype Listing = Listing(servers: seq<McpServer>, configPath: Option<string>, error: Option<McpError>)

  function EntriesOf(c: McpConfig): seq<Entry> {
    if c.mcpServers.Some? then c.mcpServers.value else []
  }

  /** `getMcpServers`: with no configuration file, no servers and no path;
      when the file cannot be read, decoded or walked, no servers, the path
      and an error; otherwise every configured server, local ones first,
      each group ordered by name. */
  function GetMcpServers(fs: FileSystem, home: string): (r: Listing)
    ensures r.configPath == FindConfigPath(fs, home)
    ensures r.configPath.None? ==> r == Listing([], None, Some(NoConfigFile))
    ensures r.error.Some? ==> r.servers == []
    ensures r.error.None? <==>
              && r.configPath.Some?
              && fs[r.configPath.value].Parsed?
              && NoNullEntry(EntriesOf(fs[r.configPath.value].config))
    ensures r.error.None? ==>
              && multiset(r.servers) == multiset(Describe(EntriesOf(fs[r.configPath.value].config)))
              && Sorting.Sorted(r.servers, LocalFirst)
  {
    match FindConfigPath(fs, home)
    case None => Listing([], None, Some(NoConfigFile))
    case Some(path) =>
      match fs[path]
      case Parsed(config) =>
        var entries := EntriesOf(config);
        if NoNullEntry(entries) then
          LocalFirstIsTotalPreorder();
          Listing(Sorting.Sort(Describe(entries), LocalFirst), Some(path), None)
        else Listing([], Some(path), Some(ReadFailure))
      case _ => Listing([], Some(path), Some(ReadFailure))
  }

  /** In a listing, no remote server comes before a local one, and two
      servers of the same type are in name order. */
  lemma ListingOrder(fs: FileSystem, home: string)
    ensures var s := GetMcpServers(fs, home).servers;
            forall i, j :: 0 <= i < j < |s| ==>
              && (s[i].serverType == Remote ==> s[j].serverType == Remote)
              && (s[i].serverType == s[j].serverType ==> LexLe(s[i].name, s[j].name))
  {
    var s := GetMcpServers(fs, home).servers;
    forall i, j | 0 <= i < j < |s|
      ensures s[i].serverType == Remote ==> s[j].serverType == Remote
      ensures s[i].serverType == s[j].serverType ==> LexLe(s[i].name, s[j].name)
    {
      assert LocalFirst(s[i], s[j]);
    }
  }

  // ---------------------------------------------------------------------
  // getMcpServerDetails
  // ---------------------------------------------------------------------

  /** `config.mcpServers?.[name]`: the value of the entry with that name. */
  function LookupServer(entries: seq<Entry>, name: string): (r: Option<ServerEntry>)
    ensures r.Some? ==> exists i :: 0 <= i < |entries| && entries[i] == (name, r.value)
    ensures (forall i :: 0 <= i < |entries| ==> entries[i].0 != name) ==> r.None?
  {
    if entries == [] then None
    else if entries[0].0 == name then Some(entries[0].1)
    else
      var r := LookupServer(entries[1..], name);
      assert r.Some? ==> exists i :: 0 <= i < |entries[1..]| && entries[1..][i] == (name, r.value);
      r
  }

  /** Every value of the record is a string. */
  predicate StringValues(env: seq<(string, EnvValue)>) {
    forall i :: 0 <= i < |env| ==> env[i].1.EnvString?
  }

  /** `envMasked`: every environment entry with its value masked, or
      nothing when masking one of the values throws. */
  function MaskEnv(env: Option<seq<(string, EnvValue)>>): (r: Option<seq<(string, string)>>)
    ensures r.None? <==> env.Some? && !StringValues(env.value)
    ensures env.None? ==> r == Some([])
    ensures r.Some? && env.Some? ==>
              && |r.value| == |env.value|
              && forall i :: 0 <= i < |r.value| ==>
                   r.value[i] == (env.value[i].0, MaskEnvValue(env.value[i].1.s))
  {
    match env
    case None => Some([])
    case Some(entries) =>
      if StringValues(entries) then
        Some(seq(|entries|, i requires 0 <= i < |entries| => (entries[i].0, MaskEnvValue(entries[i].1.s))))
      else None
  }

  datatype Details =
    | Found(server: McpServer, envMasked: seq<(string, string)>)
    | NotFound(error: McpError)

  /** `getMcpServerDetails`: the description of the named server with its
      environment masked, or why there is none. An entry whose value is
      falsy (`null` included) counts as not found here; masking a value
      that is not a string throws, which reports the failure. */
  function GetMcpServerDetails(fs: FileSystem, home: string, name: string): (r: Details)
    ensures FindConfigPath(fs, home).None? ==> r == NotFound(NoConfigFile)
    ensures r.Found? ==>
              var path := FindConfigPath(fs, home).value;
              && fs[path].Parsed?
              && exists c :: (name, ObjectEntry(c)) in EntriesOf(fs[path].config) &&
                             r.server == ToServer(name, c) && MaskEnv(c.env) == Some(r.envMasked)
    ensures r.NotFound? && FindConfigPath(fs, home).Some? ==>
              var path := FindConfigPath(fs, home).value;
              var v := if fs[path].Parsed? then LookupServer(EntriesOf(fs[path].config), name) else None;
              && (fs[path].Parsed? && !(v.Some? && v.value.ObjectEntry?) <==> r.error == ServerNotFound(name))
              && (r.error != ServerNotFound(name) ==> r.error == ReadFailure)
  {
    match FindConfigPath(fs, home)
    case None => NotFound(NoConfigFile)
    case Some(path) =>
      if !fs[path].Parsed? then NotFound(ReadFailure)
      else
        match LookupServer(EntriesOf(fs[path].config), name)
        case Some(ObjectEntry(c)) =>
          (match MaskEnv(c.env)
           case Some(masked) => Found(ToServer(name, c), masked)
           case None => NotFound(ReadFailure))
        case _ => NotFound(ServerNotFound(name))
  }

  /** No two entries share a name, as in a decoded JSON object. */
  predicate DistinctNames(entries: seq<Entry>) {
    forall i, j :: 0 <= i < j < |entries| ==> entries[i].0 != entries[j].0
  }

  /** Whether `getMcpServerDetails` succeeds for an entry's value: it must
      be an object, and every environment value must be a string. */
  predicate ShowsDetails(v: ServerEntry) {
    v.ObjectEntry? && MaskEnv(v.config.env).Some?
  }

  /** Every listed server's entry is looked up by the details call. Its
      details are found exactly when the entry is an object whose
      environment values are strings, and then they describe the server as
      the listing does. A falsy entry, which the listing shows as a local
      server, is not found; an object with a value that is not a string
      reports the failure. */
  lemma ListedServerHasDetails(fs: FileSystem, home: string, s: McpServer)
    requires var path := FindConfigPath(fs, home);
             path.Some? && fs[path.value].Parsed? && DistinctNames(EntriesOf(fs[path.value].config))
    requires s in GetMcpServers(fs, home).servers
    ensures var v := LookupServer(EntriesOf(fs[FindConfigPath(fs, home).value].config), s.name);
            var d := GetMcpServerDetails(fs, home, s.name);
            && v.Some? && !v.value.NullEntry?
            && (d.Found? <==> ShowsDetails(v.value))
            && (d.Found? ==> d.server == s)
            && (v.value.FalsyEntry? ==> d == NotFound(ServerNotFound(s.name)))
            && (v.value.ObjectEntry? && !ShowsDetails(v.value) ==> d == NotFound(ReadFailure))
  {
    var path := FindConfigPath(fs, home).value;
    var entries := EntriesOf(fs[path].config);
    var all := Describe(entries);
    assert s in multiset(all);
    var i :| 0 <= i < |all| && all[i] == s;
    LookupDistinct(entries, i);
  }

  /** With distinct names, the details of a configured name: an object
      whose environment values are strings is found, described as in the
      listing and with its environment masked; an object with another
      environment value reports the failure; a falsy value is not found. */
  lemma DetailsOfEntry(fs: FileSystem, home: string, i: nat)
    requires var path := FindConfigPath(fs, home);
             path.Some? && fs[path.value].Parsed? && DistinctNames(EntriesOf(fs[path.value].config))
    requires i < |EntriesOf(fs[FindConfigPath(fs, home).value].config)|
    ensures var e := EntriesOf(fs[FindConfigPath(fs, home).value].config)[i];
            var d := GetMcpServerDetails(fs, home, e.0);
            && (ShowsDetails(e.1) ==> d == Found(ToServer(e.0, e.1.config), MaskEnv(e.1.config.env).value))
            && (e.1.ObjectEntry? && !ShowsDetails(e.1) ==> d == NotFound(ReadFailure))
            && (!e.1.ObjectEntry? ==> d == NotFound(ServerNotFound(e.0)))
  {
    LookupDistinct(EntriesOf(fs[FindConfigPath(fs, home).value].config), i);
  }

  /** `{"mcpServers": {"a": false}}`: the listing shows `a` as a local
      server with nothing set, and its details are not found. */
  lemma FalsyEntryListedNotFound(home: string)
    ensures var fs := map[ConfigPaths(home)[0] := Parsed(McpConfig(Some([("a", FalsyEntry)])))];
            && GetMcpServers(fs, home) ==
                 Listing([McpServer("a", Local, None, None, None, false, [], Configured)], Some(ConfigPaths(home)[0]), None)
            && GetMcpServerDetails(fs, home, "a") == NotFound(ServerNotFound("a"))
  {
    var fs := map[ConfigPaths(home)[0] := Parsed(McpConfig(Some([("a", FalsyEntry)])))];
    var d := Describe([("a", FalsyEntry)]);
    assert Sorting.Sort(d, LocalFirst) == d by {
      LocalFirstIsTotalPreorder();
      Sorting.SortSingleton(d, LocalFirst);
    }
  }

  /** `{"mcpServers": {"a": {"env": {"PORT": 8080}}}}`: the listing shows
      `a` with an environment, and its details report the failure. */
  lemma NumberEnvValueFails(home: string)
    ensures var c := ServerConfig(None, None, Some([("PORT", EnvOther)]), None);
            var fs := map[ConfigPaths(home)[0] := Parsed(McpConfig(Some([("a", ObjectEntry(c))])))];
            && GetMcpServers(fs, home).servers == [ToServer("a", c)]
            && ToServer("a", c).hasEnv
            && GetMcpServerDetails(fs, home, "a") == NotFound(ReadFailure)
  {
    var c := ServerConfig(None, None, Some([("PORT", EnvOther)]), None);
    var d := Describe([("a", ObjectEntry(c))]);
    assert Sorting.Sort(d, LocalFirst) == d by {
      LocalFirstIsTotalPreorder();
      Sorting.SortSingleton(d, LocalFirst);
    }
    var env := [("PORT", EnvOther)];
    assert !env[0].1.EnvString?;
  }

  /** With distinct names, looking a name up finds its own entry. */
  lemma {:induction false} LookupDistinct(entries: seq<Entry>, i: nat)
    requires DistinctNames(entries)
    requires i < |entries|
    ensures LookupServer(entries, entries[i].0) == Some(entries[i].1)
  {
    if i > 0 {
      assert entries[0].0 != entries[i].0;
      LookupDistinct(entries[1..], i - 1);
    }
  }

  // ---------------------------------------------------------------------
  // getMcpStats
  // ---------------------------------------------------------------------

  datatype McpStats = McpStats(total: nat, local: nat, remote: nat, withEnv: nat, configPath: Option<string>)

  predicate IsLocal(s: McpServer) { s.serverType == Local }
  predicate IsRemote(s: McpServer) { s.serverType == Remote }
  predicate HasEnv(s: McpServer) { s.hasEnv }

  /** What the counts mean for a configuration entry. */
  predicate LocalEntry(e: Entry) { !e.1.NullEntry? && !Truthy(ConfigOf(e.1).url) }
  predicate RemoteEntry(e: Entry) { !e.1.NullEntry? && Truthy(ConfigOf(e.1).url) }
  predicate EnvEntry(e: Entry) {
    e.1.ObjectEntry? && e.1.config.env.Some? && |e.1.config.env.value| > 0
  }

  /** `getMcpStats`: counts over the listing. Every server is local or
      remote, so those two counts add up to the total. When the listing
      failed, every count is zero; otherwise the counts are those of the
      configuration's entries: remote ones have a `url`, local ones do
      not, and those with a non-empty `env` are counted apart. */
  function GetMcpStats(fs: FileSystem, home: string): (r: McpStats)
    ensures r.total == r.local + r.remote
    ensures r.withEnv <= r.total
    ensures r.configPath == FindConfigPath(fs, home)
    ensures r.total == |GetMcpServers(fs, home).servers|
    ensures GetMcpServers(fs, home).error.Some? ==> r.total == r.local == r.remote == r.withEnv == 0
    ensures GetMcpServers(fs, home).error.None? ==>
              var entries := EntriesOf(fs[r.configPath.value].config);
              && r.total == |entries|
              && r.local == |Filter(entries, LocalEntry)|
              && r.remote == |Filter(entries, RemoteEntry)|
              && r.withEnv == |Filter(entries, EnvEntry)|
  {
    var listing := GetMcpServers(fs, home);
    var s := listing.servers;
    FilterPartition(s, IsLocal, IsRemote);
    var stats := McpStats(|s|, |Filter(s, IsLocal)|, |Filter(s, IsRemote)|, |Filter(s, HasEnv)|, listing.configPath);
    if listing.error.None? then
      ConfigCounts(s, EntriesOf(fs[listing.configPath.value].config));
      stats
    else stats
  }

  /** Sorting the described servers changes none of the counts. */
  lemma ConfigCounts(s: seq<McpServer>, entries: seq<Entry>)
    requires NoNullEntry(entries)
    requires multiset(s) == multiset(Describe(entries))
    ensures |s| == |entries|
    ensures |Filter(s, IsLocal)| == |Filter(entries, LocalEntry)|
    ensures |Filter(s, IsRemote)| == |Filter(entries, RemoteEntry)|
    ensures |Filter(s, HasEnv)| == |Filter(entries, EnvEntry)|
  {
    var d := Describe(entries);
    assert |s| == |multiset(s)| == |multiset(d)| == |d|;
    FilterLengthPerm(s, d, IsLocal);
    FilterLengthPerm(s, d, IsRemote);
    FilterLengthPerm(s, d, HasEnv);
    FilterLengthPointwise(d, entries, IsLocal, LocalEntry);
    FilterLengthPointwise(d, entries, IsRemote, RemoteEntry);
    FilterLengthPointwise(d, entries, HasEnv, EnvEntry);
  }
}
