/**
 The log file between an Ansible run and the console: the callback writes one JSON array piece
 by piece, the log watcher decodes it and decides how the operation ended.
 Log level INFO or DETAIL.
 */
module JsonLog {
  import opened Wrappers
  import opened Tables
  import opened JsonArray

  /** A task's message: its JSON text, and the server it describes if it has that form. */
  datatype Msg = Msg(text: string, server: Option<ServerInfo>)

  datatype ServerInfo = ServerInfo(name: string, location: Option<string>, ip: string)

  datatype HostStats = HostStats(failures: nat, unreachable: nat)

  datatype Entry =
    | TaskResult(task: string, host: string, failed: bool, msg: Msg)
    | Summary(hosts: map<string, HostStats>, status: string)

  /** The log file. */
  type File = seq<Token<Entry>>

  /** The calls Ansible makes: a task result, or the statistics of the play at its end. */
  datatype Event = Result(entry: Entry) | Stats(hosts: seq<(string, HostStats)>)

  predicate TaskEvents(events: seq<Event>) {
    forall i | 0 <= i < |events| && events[i].Result? :: events[i].entry.TaskResult?
  }

  // ---------- The writer ----------

  predicate HostFailed(h: HostStats) {
    h.failures > 0 || h.unreachable > 0
  }

  function SummaryOf(hosts: seq<(string, HostStats)>): Entry
    ensures SummaryOf(hosts).Summary?
  {
    if hosts == [] then Summary(map[], SUCCESS) else
      var (name, h) := hosts[|hosts| - 1];
      var before := SummaryOf(hosts[..|hosts| - 1]);
      Summary(before.hosts[name := h], if HostFailed(h) then FAILED else before.status)
  }

  /** The tokens an event appends; a result is set off from an earlier one, a summary always. */
  function Written(event: Event, started: bool): File {
    match event
    case Result(entry) => (if started then [Separator] else []) + [Document(entry)]
    case Stats(hosts) => [Separator, Document(SummaryOf(hosts)), EndArray]
  }

  predicate Started(events: seq<Event>) {
    exists i :: 0 <= i < |events| && events[i].Result?
  }

  /** The file after the events. */
  function FileOf(events: seq<Event>): File {
    if events == [] then [BeginArray] else
      var front := events[..|events| - 1];
      FileOf(front) + Written(events[|events| - 1], Started(front))
  }

  /** The callback plugin. Without a log path nothing is ever written. */
  class CallbackModule {
    var logFile: Option<File>
    var resultsStarted: bool

    constructor (path: bool)
      ensures !resultsStarted && logFile == if path then Some([BeginArray]) else None
    {
      logFile := if path then Some([BeginArray]) else None;
      resultsStarted := false;
    }

    /** `_record_task_result` and `_write_result_to_file`. */
    method RecordTaskResult(entry: Entry)
      modifies this
      ensures old(logFile).None? ==> logFile.None? && resultsStarted == old(resultsStarted)
      ensures old(logFile).Some? ==>
                resultsStarted && logFile == Some(old(logFile.value) + Written(Result(entry), old(resultsStarted)))
    {
      if logFile.None? {
        return;
      }
      var file := logFile.value;
      if resultsStarted {
        file := file + [Separator];
      }
      file := file + [Document(entry)];
      assert file == logFile.value + Written(Result(entry), resultsStarted);
      resultsStarted := true;
      logFile := Some(file);
    }

    /** `v2_playbook_on_stats`. */
    method OnStats(hosts: seq<(string, HostStats)>)
      modifies this`logFile
      ensures logFile == if old(logFile).Some? then Some(old(logFile.value) + Written(Stats(hosts), resultsStarted))
              else None
    {
      if logFile.None? {
        return;
      }
      var summary, status := map[], SUCCESS;
      for i := 0 to |hosts|
        invariant Summary(summary, status) == SummaryOf(hosts[..i])
      {
        assert hosts[..i + 1][..i] == hosts[..i];
        summary := summary[hosts[i].0 := hosts[i].1];
        if hosts[i].1.failures > 0 || hosts[i].1.unreachable > 0 {
          status := FAILED;
        }
      }
      assert hosts[..|hosts|] == hosts;
      logFile := Some(logFile.value + [Separator, Document(Summary(summary, status)), EndArray]);
    }
  }

  /** The plugin over a whole run. */
  method Log(events: seq<Event>) returns (file: File)
    ensures file == FileOf(events)
  {
    var callback := new CallbackModule(true);
    for i := 0 to |events|
      invariant callback.logFile == Some(FileOf(events[..i])) && callback.resultsStarted == Started(events[..i])
    {
      assert events[..i + 1][..i] == events[..i];
      StartedGrows(events, i);
      match events[i] {
        case Result(entry) => callback.RecordTaskResult(entry);
        case Stats(hosts) => callback.OnStats(hosts);
      }
    }
    assert events[..|events|] == events;
    return callback.logFile.value;
  }

  lemma StartedGrows(events: seq<Event>, i: nat)
    requires i < |events|
    ensures Started(events[..i + 1]) <==> Started(events[..i]) || events[i].Result?
  {
    assert events[..i + 1][i] == events[i];
    if Started(events[..i]) {
      var j :| 0 <= j < i && events[..i][j].Result?;
      assert events[..i + 1][j].Result?;
    }
    if Started(events[..i + 1]) {
      var j :| 0 <= j < i + 1 && events[..i + 1][j].Result?;
      assert j < i ==> events[..i][j].Result?;
    }
  }

  // ---------- What the reader gets ----------

  /** How many results come before the first statistics. */
  function Results(events: seq<Event>): (n: nat)
    ensures n <= |events| && (forall i | 0 <= i < n :: events[i].Result?) && (n < |events| ==> events[n].Stats?)
  {
    if events == [] || events[0].Stats? then 0 else 1 + Results(events[1..])
  }

  function Entries(events: seq<Event>): (entries: seq<Entry>)
    requires forall i | 0 <= i < |events| :: events[i].Result?
    ensures |entries| == |events| && forall i | 0 <= i < |events| :: entries[i] == events[i].entry
  {
    seq(|events|, i requires 0 <= i < |events| => events[i].entry)
  }

  lemma {:induction false} FileOfResults(events: seq<Event>)
    requires forall i | 0 <= i < |events| :: events[i].Result?
    ensures FileOf(events) == [BeginArray] + Listed(Entries(events))
    decreases |events|
  {
    if events == [] {
      assert Entries(events) == [];
    } else {
      var front, last := events[..|events| - 1], events[|events| - 1];
      FileOfResults(front);
      assert Entries(events) == Entries(front) + [last.entry];
      if front == [] {
        assert Entries(front) == [];
      } else {
        assert front[0].Result?;
        ListedGrows(Entries(front), last.entry);
        Concat([BeginArray], Listed(Entries(front)), [Separator, Document(last.entry)]);
      }
    }
  }

  lemma {:induction false} FileOfExtends(events: seq<Event>, n: nat) returns (rest: File)
    requires n <= |events|
    ensures FileOf(events) == FileOf(events[..n]) + rest
    decreases |events|
  {
    if n == |events| {
      assert events[..n] == events;
      rest := [];
    } else {
      var front := events[..|events| - 1];
      assert front[..n] == events[..n];
      var before := FileOfExtends(front, n);
      var last := Written(events[|events| - 1], Started(front));
      rest := before + last;
      Concat(FileOf(events[..n]), before, last);
    }
  }

  /** The file up to the first statistics, and whatever was written after them. */
  lemma FileBegins(events: seq<Event>) returns (rest: File)
    requires Results(events) < |events|
    ensures var n := Results(events);
            FileOf(events) == (([BeginArray] + Listed(Entries(events[..n])))
                                + [Separator, Document(SummaryOf(events[n].hosts)), EndArray]) + rest
  {
    var n := Results(events);
    assert events[..n + 1][..n] == events[..n];
    FileOfResults(events[..n]);
    rest := FileOfExtends(events, n + 1);
  }

  /** With a result before them, the statistics close the array. */
  lemma FileCloses(entries: seq<Entry>, summary: Entry, rest: File)
    requires entries != []
    ensures (([BeginArray] + Listed(entries)) + [Separator, Document(summary), EndArray]) + rest
         == [BeginArray] + (Listed(entries + [summary]) + ([EndArray] + rest))
  {
    ListedGrows(entries, summary);
    var closed := Listed(entries) + [Separator, Document(summary)];
    var end: File := [EndArray];
    assert [Separator, Document(summary), EndArray] == [Separator, Document(summary)] + end;
    Concat(Listed(entries), [Separator, Document(summary)], end);
    Concat([BeginArray], Listed(entries), [Separator, Document(summary), EndArray]);
    Concat([BeginArray], closed + end, rest);
    Concat(closed, end, rest);
  }

  /** For every sequence of events the file decodes exactly when a statistics call comes, with at
      least one result before the first; then it holds those results in order, and one summary. */
  lemma FileDecodes(events: seq<Event>)
    ensures var n := Results(events);
            Decode(FileOf(events))
              == if 0 < n < |events| then Some(Entries(events[..n]) + [SummaryOf(events[n].hosts)]) else None
  {
    var n := Results(events);
    if n == |events| {
      FileWithoutStats(events);
    } else {
      var entries, summary := Entries(events[..n]), SummaryOf(events[n].hosts);
      var rest := FileBegins(events);
      if n == 0 {
        NothingDecodes(summary, rest);
        assert entries == [];
      } else {
        FileClosedDecodes(entries, summary, rest);
      }
    }
  }

  /** Without statistics the array is never closed. */
  lemma {:induction false} FileWithoutStats(events: seq<Event>)
    requires Results(events) == |events|
    ensures Decode(FileOf(events)) == None
  {
    var entries := Entries(events);
    FileOfResults(events);
    DecodeBegun(Listed(entries));
    ValuesUnfinished(entries);
    if entries != [] {
      ListedBegins(entries, []);
      assert Listed(entries) + [] == Listed(entries);
    }
  }

  lemma FileClosedDecodes(entries: seq<Entry>, summary: Entry, rest: File)
    requires entries != []
    ensures Decode((([BeginArray] + Listed(entries)) + [Separator, Document(summary), EndArray]) + rest)
         == Some(entries + [summary])
  {
    FileCloses(entries, summary, rest);
    DecodeBegun(Listed(entries + [summary]) + ([EndArray] + rest));
    ListedBegins(entries + [summary], [EndArray] + rest);
    ValuesOfListed(entries + [summary], rest);
  }

  lemma NothingDecodes(summary: Entry, rest: File)
    ensures Decode((([BeginArray] + []) + [Separator, Document(summary), EndArray]) + rest) == None
  {
    var file: File := (([BeginArray] + []) + [Separator, Document(summary), EndArray]) + rest;
    assert file[1] == Separator;
    assert file[1..][0] == Separator;
  }

  // ---------- The log watcher ----------

  /** A log record as the watcher's struct holds it: what a record does not have is zero. */
  datatype LogEntity = LogEntity(task: string, msg: Msg, summary: bool, status: string)

  function EntityOf(entry: Entry): LogEntity {
    match entry
    case TaskResult(task, _, _, msg) => LogEntity(task, msg, false, "")
    case Summary(_, status) => LogEntity("", Msg("", None), true, status)
  }

  function EntitiesOf(entries: seq<Entry>): (entities: seq<LogEntity>)
    ensures |entities| == |entries| && forall i | 0 <= i < |entries| :: entities[i] == EntityOf(entries[i])
  {
    seq(|entries|, i requires 0 <= i < |entries| => EntityOf(entries[i]))
  }

  const SYSTEM_INFO := "System info"
  const CONNECTION_INFO := "vitabaks.autobase.deploy_finish : Connection info"

  /** What one record does: the tables after it, and whether its summary is looked at. */
  function Stored(db: Db, id: int, e: LogEntity): (Db, bool) {
    if e.task == SYSTEM_INFO then
      if e.msg.server.None? then (db, false) else
        var info := e.msg.server.value;
        var created := CreateServer(db, id, info.ip, info.name, info.location);
        (Coalesce(created, db), created.Some?)
    else if e.task == CONNECTION_INFO then
      var updated := UpdateCluster(db, id, None, None, Some(e.msg.text));
      (Coalesce(updated, db), updated.Some?)
    else (db, true)
  }

  /** The tables and the status after the records, in order. */
  function StoredAll(db: Db, id: int, entities: seq<LogEntity>): (Db, string) {
    if entities == [] then (db, "") else
      var (before, status) := StoredAll(db, id, entities[..|entities| - 1]);
      var e := entities[|entities| - 1];
      var (after, looked) := Stored(before, id, e);
      (after, if looked && e.summary then e.status else status)
  }

  function TryOperation(db: Db, operation: int, status: string): Db {
    Coalesce(UpdateOperation(db, operation, Some(status), None), db)
  }

  function TryCluster(db: Db, id: int, status: string): Db {
    Coalesce(UpdateCluster(db, id, Some(status), None, None), db)
  }

  /** The two writes at the end. */
  function Concluded(db: Db, operation: int, id: int, status: string): Db {
    TryCluster(TryOperation(db, operation, status), id, if status == FAILED then FAILED else READY)
  }

  /** `collectContainerLog`: the tables after the log of an ended container is taken in. */
  function Collected(db: Db, operation: int, id: int, file: Option<File>): Db {
    if id !in db.clusters then db
    else if file.None? || Decode(file.value).None? then Concluded(db, operation, id, FAILED)
    else
      var entries := Decode(file.value).value;
      var (stored, status) := StoredAll(db, id, EntitiesOf(entries));
      Concluded(stored, operation, id, if status == "" then FAILED else status)
  }

  method StoreEntity(db: Storage, id: int, e: LogEntity) returns (looked: bool)
    modifies db
    ensures (db.Contents(), looked) == Stored(old(db.Contents()), id, e)
  {
    if e.task == SYSTEM_INFO {
      if e.msg.server.None? {
        return false;
      }
      var info := e.msg.server.value;
      looked := db.CreateServerRow(id, info.ip, info.name, info.location);
    } else if e.task == CONNECTION_INFO {
      looked := db.UpdateClusterRow(id, None, None, Some(e.msg.text));
    } else {
      looked := true;
    }
  }

  method Conclude(db: Storage, operation: int, id: int, status: string)
    modifies db
    ensures db.Contents() == Concluded(old(db.Contents()), operation, id, status)
  {
    var _ := db.UpdateOperationRow(operation, Some(status), None);
    var clusterStatus := if status == FAILED then FAILED else READY;
    var _ := db.UpdateClusterRow(id, Some(clusterStatus), None, None);
  }

  method CollectContainerLog(db: Storage, operation: int, id: int, file: Option<File>)
    modifies db
    ensures db.Contents() == Collected(old(db.Contents()), operation, id, file)
  {
    if id !in db.clusters {
      return;
    }
    if file.None? || Decode(file.value).None? {
      Conclude(db, operation, id, FAILED);
      return;
    }
    var entries := Decode(file.value).value;
    var entities := EntitiesOf(entries);
    var status := "";
    ghost var start := db.Contents();
    for i := 0 to |entities|
      invariant (db.Contents(), status) == StoredAll(start, id, entities[..i])
    {
      assert entities[..i + 1][..i] == entities[..i];
      var looked := StoreEntity(db, id, entities[i]);
      if looked && entities[i].summary {
        status := entities[i].status;
      }
    }
    assert entities[..|entities|] == entities;
    if status == "" {
      status := FAILED;
    }
    Conclude(db, operation, id, status);
  }

  // ---------- End to end ----------

  /** Storing records leaves the operations, keeps the cluster and its rows, and only adds rows. */
  ghost predicate OnlyAdds(db: Db, db': Db, id: int) {
    && db'.operations == db.operations && id in db'.clusters
    && forall ip | ip in ServersOf(db, id) ::
         ip in ServersOf(db', id) && ServersOf(db', id)[ip] == ServersOf(db, id)[ip]
  }

  predicate Describes(e: LogEntity) {
    e.task == SYSTEM_INFO && e.msg.server.Some?
  }

  lemma StoredAdds(db: Db, id: int, e: LogEntity)
    requires id in db.clusters
    ensures OnlyAdds(db, Stored(db, id, e).0, id)
    ensures Describes(e) ==> e.msg.server.value.ip in ServersOf(Stored(db, id, e).0, id)
  {
  }

  lemma {:induction false} StoredAllAdds(db: Db, id: int, entities: seq<LogEntity>)
    requires id in db.clusters
    ensures OnlyAdds(db, StoredAll(db, id, entities).0, id)
    ensures forall i | 0 <= i < |entities| && Describes(entities[i]) ::
              entities[i].msg.server.value.ip in ServersOf(StoredAll(db, id, entities).0, id)
    decreases |entities|
  {
    if entities != [] {
      var front := entities[..|entities| - 1];
      StoredAllAdds(db, id, front);
      StoredAdds(StoredAll(db, id, front).0, id, entities[|entities| - 1]);
      forall i | 0 <= i < |front| && Describes(entities[i])
        ensures entities[i].msg.server.value.ip in ServersOf(StoredAll(db, id, entities).0, id)
      {
        assert front[i] == entities[i];
      }
    }
  }

  lemma {:induction false} NoSummaryNoStatus(db: Db, id: int, entities: seq<LogEntity>)
    requires forall i | 0 <= i < |entities| :: !entities[i].summary
    ensures StoredAll(db, id, entities).1 == ""
    decreases |entities|
  {
    if entities != [] {
      NoSummaryNoStatus(db, id, entities[..|entities| - 1]);
    }
  }

  /** The records of a decoded log: task results, and the summary last. */
  lemma StatusOfLog(db: Db, id: int, results: seq<Entry>, summary: Entry)
    requires id in db.clusters && summary.Summary? && forall i | 0 <= i < |results| :: results[i].TaskResult?
    ensures StoredAll(db, id, EntitiesOf(results + [summary])).1 == summary.status
  {
    var entities := EntitiesOf(results + [summary]);
    var front := entities[..|results|];
    assert front == EntitiesOf(results);
    NoSummaryNoStatus(db, id, front);
    assert entities[|results|] == EntityOf(summary);
    assert entities[..|entities| - 1] == front;
  }

  lemma ConcludedStatus(db: Db, operation: int, id: int, status: string)
    requires operation in db.operations && id in db.clusters && (status == SUCCESS || status == FAILED)
    ensures var db' := Concluded(db, operation, id, status);
            && operation in db'.operations && db'.operations[operation] == db.operations[operation].(status := status)
            && id in db'.clusters && db'.clusters[id].status == (if status == FAILED then FAILED else READY)
            && db'.servers == db.servers
  {
  }

  lemma {:induction false} SummaryStatus(hosts: seq<(string, HostStats)>)
    ensures SummaryOf(hosts).status
         == if exists i :: 0 <= i < |hosts| && (hosts[i].1.failures > 0 || hosts[i].1.unreachable > 0)
            then FAILED else SUCCESS
    decreases |hosts|
  {
    if hosts != [] {
      var front := hosts[..|hosts| - 1];
      SummaryStatus(front);
      if i :| 0 <= i < |front| && (front[i].1.failures > 0 || front[i].1.unreachable > 0) {
        assert hosts[i] == front[i];
      }
    }
  }

  /** The summary holds the last statistics of every host. */
  lemma {:induction false} SummaryHosts(hosts: seq<(string, HostStats)>, i: nat)
    requires i < |hosts| && forall j | i < j < |hosts| :: hosts[j].0 != hosts[i].0
    ensures hosts[i].0 in SummaryOf(hosts).hosts && SummaryOf(hosts).hosts[hosts[i].0] == hosts[i].1
    decreases |hosts|
  {
    var front := hosts[..|hosts| - 1];
    if i < |front| {
      assert front[i] == hosts[i] && hosts[|front|].0 != hosts[i].0;
      SummaryHosts(front, i);
    }
  }

  /** The status a run ends with. It is a success exactly when statistics were reported after at
      least one result, and in the first of them no host has a failure or was unreachable. */
  function Verdict(events: seq<Event>): string {
    var n := Results(events);
    if 0 < n < |events| && forall i | 0 <= i < |events[n].hosts| ::
         events[n].hosts[i].1.failures == 0 && events[n].hosts[i].1.unreachable == 0
    then SUCCESS else FAILED
  }

  lemma VerdictIsSummary(events: seq<Event>)
    requires 0 < Results(events) < |events|
    ensures SummaryOf(events[Results(events)].hosts).status == Verdict(events)
  {
    SummaryStatus(events[Results(events)].hosts);
  }

  /** From the play to the tables, for every sequence of events: the operation ends with the
      verdict on the run and the cluster with the matching status. */
  lemma EndToEnd(db: Db, operation: int, id: int, events: seq<Event>)
    requires TaskEvents(events) && operation in db.operations && id in db.clusters
    ensures var db' := Collected(db, operation, id, Some(FileOf(events)));
            && operation in db'.operations
            && db'.operations[operation] == db.operations[operation].(status := Verdict(events))
            && id in db'.clusters && db'.clusters[id].status == (if Verdict(events) == FAILED then FAILED else READY)
  {
    var n := Results(events);
    FileDecodes(events);
    if 0 < n < |events| {
      var summary := SummaryOf(events[n].hosts);
      var results := Entries(events[..n]);
      VerdictIsSummary(events);
      StatusOfLog(db, id, results, summary);
      StoredAllAdds(db, id, EntitiesOf(results + [summary]));
      ConcludedStatus(StoredAll(db, id, EntitiesOf(results + [summary])).0, operation, id, summary.status);
    } else {
      ConcludedStatus(db, operation, id, FAILED);
    }
  }

  /** Every server a decoded log describes is in the tables afterwards, and rows already there stay. */
  lemma ServersCollected(db: Db, operation: int, id: int, file: File, i: nat)
    requires id in db.clusters && Decode(file).Some? && i < |Decode(file).value|
    requires Describes(EntityOf(Decode(file).value[i]))
    ensures var rows, rows' := ServersOf(db, id), ServersOf(Collected(db, operation, id, Some(file)), id);
            && EntityOf(Decode(file).value[i]).msg.server.value.ip in rows'
            && (forall ip | ip in rows :: ip in rows' && rows'[ip] == rows[ip])
  {
    var entities := EntitiesOf(Decode(file).value);
    assert entities[i] == EntityOf(Decode(file).value[i]);
    StoredAllAdds(db, id, entities);
    var (stored, status) := StoredAll(db, id, entities);
    ConcludedServers(stored, operation, id, if status == "" then FAILED else status);
  }

  // ---------- What is collected ----------

  predicate HasTask(e: Entry, task: string) {
    e.TaskResult? && e.task == task
  }

  predicate IsServerInfo(e: Entry, ip: string) {
    HasTask(e, "System info") && e.msg.server.Some? && e.msg.server.value.ip == ip
  }

  predicate IsConnectionInfo(e: Entry) {
    HasTask(e, "vitabaks.autobase.deploy_finish : Connection info")
  }

  /** The row of a server that a log describes. */
  function Described(info: ServerInfo): Server {
    Server(info.name, info.location, "N/A", "N/A", None, None, None, false)
  }

  /** One record more at the end of those taken in. */
  lemma StoredOneMore(db: Db, id: int, front: seq<Entry>, e: Entry)
    ensures StoredAll(db, id, EntitiesOf(front + [e])).0
         == Stored(StoredAll(db, id, EntitiesOf(front)).0, id, EntityOf(e)).0
  {
    var entities := EntitiesOf(front + [e]);
    assert entities[..|entities| - 1] == EntitiesOf(front);
  }

  /** What one record does to the connection info and to a row of the cluster's servers. */
  lemma StoredParts(db: Db, id: int, e: Entry, ip: string)
    requires id in db.clusters
    ensures var db' := Stored(db, id, EntityOf(e)).0;
            && id in db'.clusters
            && db'.clusters[id].connectionInfo
               == (if IsConnectionInfo(e) then Some(e.msg.text) else db.clusters[id].connectionInfo)
            && RowAt(ServersOf(db', id), ip)
               == (if ip !in ServersOf(db, id) && IsServerInfo(e, ip)
                   then Some(Described(e.msg.server.value))
                   else RowAt(ServersOf(db, id), ip))
  {
  }

  /** The cluster in the tables after some records. */
  function Stores(db: Db, id: int, entries: seq<Entry>): (db': Db)
    requires id in db.clusters
    ensures id in db'.clusters
  {
    StoredAllAdds(db, id, EntitiesOf(entries));
    StoredAll(db, id, EntitiesOf(entries)).0
  }

  lemma {:induction false} NothingStored(db: Db, id: int, entries: seq<Entry>, ip: string)
    requires id in db.clusters
    ensures (forall e | e in entries :: !IsConnectionInfo(e)) ==>
              Stores(db, id, entries).clusters[id].connectionInfo == db.clusters[id].connectionInfo
    ensures (forall e | e in entries :: !IsServerInfo(e, ip)) ==>
              RowAt(ServersOf(Stores(db, id, entries), id), ip) == RowAt(ServersOf(db, id), ip)
    decreases |entries|
  {
    if entries != [] {
      var front, last := entries[..|entries| - 1], entries[|entries| - 1];
      assert entries == front + [last] && last in entries;
      NothingStored(db, id, front, ip);
      StoredOneMore(db, id, front, last);
      StoredParts(Stores(db, id, front), id, last, ip);
    }
  }

  lemma {:induction false} InfoStored(db: Db, id: int, entries: seq<Entry>, i: nat)
    requires id in db.clusters && i < |entries| && IsConnectionInfo(entries[i])
    requires forall j | i < j < |entries| :: !IsConnectionInfo(entries[j])
    ensures Stores(db, id, entries).clusters[id].connectionInfo == Some(entries[i].msg.text)
    decreases |entries|
  {
    var front, last := entries[..|entries| - 1], entries[|entries| - 1];
    assert entries == front + [last];
    StoredOneMore(db, id, front, last);
    StoredParts(Stores(db, id, front), id, last, "");
    if i < |front| {
      InfoStored(db, id, front, i);
    }
  }

  lemma {:induction false} RowStored(db: Db, id: int, entries: seq<Entry>, i: nat, ip: string)
    requires id in db.clusters && ip !in ServersOf(db, id) && i < |entries| && IsServerInfo(entries[i], ip)
    requires forall j | 0 <= j < i :: !IsServerInfo(entries[j], ip)
    ensures RowAt(ServersOf(Stores(db, id, entries), id), ip) == Some(Described(entries[i].msg.server.value))
    decreases |entries|
  {
    var front, last := entries[..|entries| - 1], entries[|entries| - 1];
    assert entries == front + [last];
    StoredOneMore(db, id, front, last);
    StoredParts(Stores(db, id, front), id, last, ip);
    if i < |front| {
      RowStored(db, id, front, i, ip);
    } else {
      NothingStored(db, id, front, ip);
    }
  }

  /** Taking in a log that decodes leaves what its records stored, but for the two statuses. */
  lemma CollectedIsStored(db: Db, operation: int, id: int, file: File)
    requires id in db.clusters && Decode(file).Some?
    ensures var db', stored := Collected(db, operation, id, Some(file)), Stores(db, id, Decode(file).value);
            && id in db'.clusters && db'.servers == stored.servers
            && db'.clusters[id] == stored.clusters[id].(status := db'.clusters[id].status)
  {
    var entities := EntitiesOf(Decode(file).value);
    StoredAllAdds(db, id, entities);
  }

  /** A log that is missing or does not decode fails the operation and the cluster, and gives nothing. */
  lemma NothingCollected(db: Db, operation: int, id: int, file: Option<File>)
    requires operation in db.operations && id in db.clusters && (file.Some? ==> Decode(file.value).None?)
    ensures var db' := Collected(db, operation, id, file);
            && db'.servers == db.servers
            && db'.clusters == db.clusters[id := db.clusters[id].(status := "failed")]
            && db'.operations == db.operations[operation := db.operations[operation].(status := "failed")]
  {
  }

  lemma {:induction false} LastStatus(db: Db, id: int, entries: seq<Entry>, i: nat)
    requires id in db.clusters && i < |entries| && entries[i].Summary?
    requires forall j | i < j < |entries| :: !entries[j].Summary?
    ensures StoredAll(db, id, EntitiesOf(entries)).1 == entries[i].status
    decreases |entries|
  {
    var front, entities := entries[..|entries| - 1], EntitiesOf(entries);
    assert entities[..|entities| - 1] == EntitiesOf(front);
    if i < |front| {
      assert entities[|front|] == EntityOf(entries[|front|]) && !entities[|front|].summary;
      LastStatus(db, id, front, i);
    } else {
      assert entities[i].task != SYSTEM_INFO && entities[i].task != CONNECTION_INFO;
    }
  }

  predicate Ended(db: Db, operation: int, id: int, status: string) {
    && operation in db.operations && db.operations[operation].status == status
    && id in db.clusters && db.clusters[id].status == if status == "failed" then "failed" else "ready"
  }

  lemma CollectedEnds(db: Db, operation: int, id: int, file: File, status: string)
    requires operation in db.operations && id in db.clusters && Decode(file).Some?
    requires var collected := StoredAll(db, id, EntitiesOf(Decode(file).value)).1;
             status == (if collected == "" then FAILED else collected) && (status == SUCCESS || status == FAILED)
    ensures Ended(Collected(db, operation, id, Some(file)), operation, id, status)
  {
    var entities := EntitiesOf(Decode(file).value);
    StoredAllAdds(db, id, entities);
    ConcludedStatus(StoredAll(db, id, entities).0, operation, id, status);
  }

  /** A log without a summary has failed. */
  lemma WithoutSummary(db: Db, operation: int, id: int, file: File)
    requires operation in db.operations && id in db.clusters && Decode(file).Some?
    requires forall e | e in Decode(file).value :: !e.Summary?
    ensures Ended(Collected(db, operation, id, Some(file)), operation, id, "failed")
  {
    NoSummaryNoStatus(db, id, EntitiesOf(Decode(file).value));
    CollectedEnds(db, operation, id, file, FAILED);
  }

  /** Otherwise the last summary decides. */
  lemma SummaryDecides(db: Db, operation: int, id: int, file: File, i: nat)
    requires operation in db.operations && id in db.clusters && Decode(file).Some?
    requires var entries := Decode(file).value;
             i < |entries| && entries[i].Summary? && forall j | i < j < |entries| :: !entries[j].Summary?
    requires Decode(file).value[i].status in {"success", "failed"}
    ensures Ended(Collected(db, operation, id, Some(file)), operation, id, Decode(file).value[i].status)
  {
    LastStatus(db, id, Decode(file).value, i);
    CollectedEnds(db, operation, id, file, Decode(file).value[i].status);
  }

  /** The cluster's connection info after its log is taken in: the text of the last record of the
      task that gives it, or what it was before where the log has no such record. */
  lemma ConnectionInfoCollected(db: Db, operation: int, id: int, file: File)
    requires id in db.clusters && Decode(file).Some?
    ensures var entries, db' := Decode(file).value, Collected(db, operation, id, Some(file));
            id in db'.clusters &&
            var info := db'.clusters[id].connectionInfo;
            && (forall i | 0 <= i < |entries| && IsConnectionInfo(entries[i])
                           && forall j | i < j < |entries| :: !IsConnectionInfo(entries[j]) ::
                  info == Some(entries[i].msg.text))
            && ((forall e | e in entries :: !IsConnectionInfo(e)) ==> info == db.clusters[id].connectionInfo)
  {
    var entries := Decode(file).value;
    CollectedIsStored(db, operation, id, file);
    NothingStored(db, id, entries, "");
    forall i | 0 <= i < |entries| && IsConnectionInfo(entries[i])
               && forall j | i < j < |entries| :: !IsConnectionInfo(entries[j])
      ensures Stores(db, id, entries).clusters[id].connectionInfo == Some(entries[i].msg.text)
    {
      InfoStored(db, id, entries, i);
    }
  }

  /** The row of an address after the log is taken in: as it was if there was one or if no record
      describes the address; otherwise with the name and the location of the first record that does. */
  lemma RowsCollected(db: Db, operation: int, id: int, file: File, ip: string)
    requires id in db.clusters && Decode(file).Some?
    ensures var entries := Decode(file).value;
            var row, row' := RowAt(ServersOf(db, id), ip),
                             RowAt(ServersOf(Collected(db, operation, id, Some(file)), id), ip);
            && (row.Some? || (forall e | e in entries :: !IsServerInfo(e, ip)) ==> row' == row)
            && forall i | row.None? && 0 <= i < |entries| && IsServerInfo(entries[i], ip)
                          && forall j | 0 <= j < i :: !IsServerInfo(entries[j], ip) ::
                 row' == Some(Described(entries[i].msg.server.value))
  {
    var entries := Decode(file).value;
    CollectedIsStored(db, operation, id, file);
    NothingStored(db, id, entries, ip);
    StoredAllAdds(db, id, EntitiesOf(entries));
    forall i | ip !in ServersOf(db, id) && 0 <= i < |entries| && IsServerInfo(entries[i], ip)
               && forall j | 0 <= j < i :: !IsServerInfo(entries[j], ip)
      ensures RowAt(ServersOf(Stores(db, id, entries), id), ip) == Some(Described(entries[i].msg.server.value))
    {
      RowStored(db, id, entries, i, ip);
    }
  }

  lemma ConcludedServers(db: Db, operation: int, id: int, status: string)
    ensures Concluded(db, operation, id, status).servers == db.servers
  {
  }
}
