/**
 One pass of the cluster watcher over the servers of a cluster: the first server that answers
 gives the topology, reported members are written, the status is judged, and the rows of
 servers that were not reported are reset. Patroni is an oracle: the replies by address.
 The cluster row the pass works with is a snapshot that may be stale; the tables are current.
 */
module Topology {
  import opened Wrappers
  import opened Tables

  /** What Patroni answers at the addresses that can be reached. */
  type Replies = map<string, seq<Member>>

  predicate Running(m: Member) {
    m.state == "running" || m.state == "streaming"
  }

  function RunningCount(members: seq<Member>): nat {
    if members == [] then 0 else
      RunningCount(members[..|members| - 1]) + if Running(members[|members| - 1]) then 1 else 0
  }

  function JudgeStatus(members: seq<Member>, count: int): string {
    if |members| < count then DEGRADED else if RunningCount(members) < count then UNHEALTHY else HEALTHY
  }

  // ---------- The pass on tables ----------

  /** The members written one after the other. */
  function UpsertAll(rows: map<string, Server>, members: seq<Member>, refused: set<string>): map<string, Server> {
    if members == [] then rows else
      var before, m := UpsertAll(rows, members[..|members| - 1], refused), members[|members| - 1];
      if m.host in refused then before else UpsertRow(before, m)
  }

  function Hosts(members: seq<Member>, refused: set<string>): set<string> {
    set m | m in members && m.host !in refused :: m.host
  }

  function ResetAll(rows: map<string, Server>, ips: set<string>): map<string, Server> {
    map ip | ip in rows :: if ip in ips then ResetRow(rows[ip]) else rows[ip]
  }

  /** What the first server that answers reports. */
  function Answer(order: seq<string>, replies: Replies): Option<seq<Member>> {
    if order == [] then None
    else if order[0] in replies then Some(replies[order[0]])
    else Answer(order[1..], replies)
  }

  /** The table of the cluster's servers after the pass. */
  function RowsAfter(rows: map<string, Server>, answer: Option<seq<Member>>,
                     refused: set<string>): map<string, Server> {
    match answer
    case Some(members) => ResetAll(UpsertAll(rows, members, refused), rows.Keys - Hosts(members, refused))
    case None => ResetAll(rows, rows.Keys)
  }

  /** Whether the pass writes any server row, and so whether the trigger recounts. */
  predicate WritesRows(rows: map<string, Server>, answer: Option<seq<Member>>, refused: set<string>) {
    rows != map[] || (answer.Some? && Hosts(answer.value, refused) != {})
  }

  /** The statement on the cluster row: the judged status and the flag, or `unavailable` for a
      cluster that was reached before, or nothing. */
  function Judged(db: Db, id: int, snapshot: Cluster, answer: Option<seq<Member>>): Db
    requires id in db.clusters
  {
    if answer.Some? then
      UpdateCluster(db, id, Some(JudgeStatus(answer.value, snapshot.serverCount)),
                    Some(SetPatroniConnectStatus(snapshot.flags, 1)), None).value
    else if Reached(snapshot.flags) then UpdateCluster(db, id, Some(UNAVAILABLE), None, None).value
    else db
  }

  /** The tables after the pass. */
  function Pass(db: Db, id: int, snapshot: Cluster, answer: Option<seq<Member>>, refused: set<string>): Db
    requires id in db.clusters
  {
    var rows := ServersOf(db, id);
    Judged(if WritesRows(rows, answer, refused) then WriteServers(db, id, RowsAfter(rows, answer, refused)) else db,
           id, snapshot, answer)
  }

  /** The addresses of the rows, in the order the database returns them. */
  predicate Enumerates(order: seq<string>, rows: map<string, Server>) {
    && (forall i | 0 <= i < |order| :: order[i] in rows)
    && (forall ip | ip in rows :: ip in order)
  }

  // ---------- What the pass promises ----------

  lemma {:induction false} RunningCountBound(members: seq<Member>)
    ensures RunningCount(members) <= |members|
  {
    if members != [] {
      RunningCountBound(members[..|members| - 1]);
    }
  }

  /** The status is healthy exactly when enough members run or stream. */
  lemma HealthyIff(members: seq<Member>, count: int)
    ensures JudgeStatus(members, count) == HEALTHY <==> RunningCount(members) >= count
  {
    RunningCountBound(members);
  }

  lemma {:induction false} UpsertAllKeys(rows: map<string, Server>, members: seq<Member>, refused: set<string>)
    ensures UpsertAll(rows, members, refused).Keys == rows.Keys + Hosts(members, refused)
    ensures forall ip | ip in rows && ip !in Hosts(members, refused) ::
              UpsertAll(rows, members, refused)[ip] == rows[ip]
    decreases |members|
  {
    if members != [] {
      var front, m := members[..|members| - 1], members[|members| - 1];
      UpsertAllKeys(rows, front, refused);
      assert Hosts(members, refused) == Hosts(front, refused) + if m.host in refused then {} else {m.host} by {
        assert members == front + [m];
      }
    }
  }

  /** After a pass with an answer, the addresses are the old ones and the reported ones; old rows
      that were not reported are reset, and reported rows hold what the reports left. */
  lemma AddressesAfter(rows: map<string, Server>, members: seq<Member>, refused: set<string>)
    ensures var rows', hosts := RowsAfter(rows, Some(members), refused), Hosts(members, refused);
            && rows'.Keys == rows.Keys + hosts
            && (forall ip | ip in rows && ip !in hosts :: rows'[ip] == ResetRow(rows[ip]))
            && (forall ip | ip in hosts :: rows'[ip] == UpsertAll(rows, members, refused)[ip])
  {
    UpsertAllKeys(rows, members, refused);
  }

  /** Column by column, what a pass makes of a row that no accepted report names, and of every row
      where no server answers: role and status are "N/A", timeline, lag and tags are null, and
      name, location and the pending restart stay. */
  lemma UnreportedRow(db: Db, id: int, snapshot: Cluster, answer: Option<seq<Member>>, refused: set<string>, ip: string)
    requires id in db.clusters && ip in ServersOf(db, id)
    requires answer.Some? ==> ip !in Hosts(answer.value, refused)
    ensures var rows' := ServersOf(Pass(db, id, snapshot, answer, refused), id);
            ip in rows' &&
            var s, s' := ServersOf(db, id)[ip], rows'[ip];
            && s'.role == "N/A" && s'.status == "N/A" && s'.timeline == None && s'.lag == None && s'.tags == None
            && s'.name == s.name && s'.location == s.location && s'.pendingRestart == s.pendingRestart
  {
    var rows := ServersOf(db, id);
    RowsOfPass(db, id, snapshot, answer, refused);
    if answer.Some? {
      AddressesAfter(rows, answer.value, refused);
    }
  }

  /** A pass leaves the rows of its cluster as `RowsAfter` says. */
  lemma RowsOfPass(db: Db, id: int, snapshot: Cluster, answer: Option<seq<Member>>, refused: set<string>)
    requires id in db.clusters
    ensures ServersOf(Pass(db, id, snapshot, answer, refused), id) == RowsAfter(ServersOf(db, id), answer, refused)
  {
    var rows := ServersOf(db, id);
    if !WritesRows(rows, answer, refused) {
      if answer.Some? {
        NoHostsNoRows(rows, answer.value, refused);
      }
      assert RowsAfter(rows, answer, refused) == map[];
    }
  }

  /** The location of a reported row is no matter of reports: it stays, and a new row has none. Its
      name and its tags stay too where no report of the host has any. */
  lemma {:induction false} ReportedRowKeeps(rows: map<string, Server>, members: seq<Member>, refused: set<string>,
                                            ip: string)
    requires ip in Hosts(members, refused)
    ensures var rows', was := UpsertAll(rows, members, refused), RowAt(rows, ip);
            ip in rows' &&
            var s := rows'[ip];
            && s.location == (if was.Some? then was.value.location else None)
            && ((forall m | m in members && m.host == ip :: m.name == "") ==>
                  s.name == if was.Some? then was.value.name else "")
            && ((forall m | m in members && m.host == ip :: m.tags == None) ==>
                  s.tags == if was.Some? then was.value.tags else None)
    decreases |members|
  {
    var front, last := members[..|members| - 1], members[|members| - 1];
    assert members == front + [last];
    UpsertAllKeys(rows, front, refused);
    if ip in Hosts(front, refused) {
      ReportedRowKeeps(rows, front, refused, ip);
    }
  }

  /** The last report of a host decides its row, field by field; only an empty name and absent
      tags leave what was there. */
  predicate Carries(row: Server, m: Member) {
    && row.role == m.role && row.status == m.state && row.timeline == Some(m.timeline) && row.lag == m.lag
    && row.pendingRestart == m.pendingRestart
    && (m.name != "" ==> row.name == m.name) && (m.tags.Some? ==> row.tags == m.tags)
  }

  lemma {:induction false} MembersCarryReports(rows: map<string, Server>, members: seq<Member>, refused: set<string>,
                                               i: nat)
    requires i < |members| && members[i].host !in refused
    requires forall j | i < j < |members| :: members[j].host != members[i].host
    ensures members[i].host in UpsertAll(rows, members, refused)
    ensures Carries(UpsertAll(rows, members, refused)[members[i].host], members[i])
    decreases |members|
  {
    var front := members[..|members| - 1];
    if i < |front| {
      assert front[i] == members[i];
      MembersCarryReports(rows, front, refused, i);
    }
  }

  /** The last report of a host that has a name gives the row its name, and likewise the tags. */
  lemma {:induction false} LastNameAndTags(rows: map<string, Server>, members: seq<Member>, refused: set<string>,
                                           i: nat)
    requires i < |members| && members[i].host !in refused
    ensures var m, rows' := members[i], UpsertAll(rows, members, refused);
            && m.host in rows'
            && (m.name != "" && (forall j | i < j < |members| && members[j].host == m.host :: members[j].name == "") ==>
                  rows'[m.host].name == m.name)
            && (m.tags.Some? && (forall j | i < j < |members| && members[j].host == m.host :: members[j].tags == None)
                ==> rows'[m.host].tags == m.tags)
    decreases |members|
  {
    var front := members[..|members| - 1];
    if i < |front| {
      assert front[i] == members[i] && members[|front|] == members[|members| - 1];
      LastNameAndTags(rows, front, refused, i);
      assert forall j | i < j < |front| :: front[j] == members[j];
    }
  }

  /** The places of the members that run or stream. */
  function RunningPlaces(members: seq<Member>): set<int> {
    set i | 0 <= i < |members| && members[i].state in {"running", "streaming"}
  }

  lemma {:induction false} RunningAreCounted(members: seq<Member>)
    ensures RunningCount(members) == |RunningPlaces(members)|
    decreases |members|
  {
    if members != [] {
      var n := |members| - 1;
      RunningAreCounted(members[..n]);
      assert RunningPlaces(members) == RunningPlaces(members[..n]) + if Running(members[n]) then {n} else {};
    }
  }

  /** The status an answer means: fewer members than servers are counted, or enough but too few of
      them run or stream, or enough do. */
  predicate StatusMeans(status: string, members: seq<Member>, count: int) {
    var running := |RunningPlaces(members)|;
    && (status == "degraded" <==> |members| < count)
    && (status == "unhealthy" <==> running < count <= |members|)
    && (status == "healthy" <==> count <= running)
  }

  lemma JudgedAsMeant(members: seq<Member>, count: int)
    ensures StatusMeans(JudgeStatus(members, count), members, count)
  {
    RunningAreCounted(members);
    RunningCountBound(members);
  }

  /** The cluster row after a pass with an answer: the status means what was counted against the
      snapshot's number of servers, the cluster is marked as reached, and its servers are recounted. */
  lemma ClusterAfterAnswer(db: Db, id: int, snapshot: Cluster, members: seq<Member>, refused: set<string>)
    requires id in db.clusters && ServersOf(db, id) != map[]
    ensures var db' := Pass(db, id, snapshot, Some(members), refused);
            id in db'.clusters &&
            var row, row' := db.clusters[id], db'.clusters[id];
            && StatusMeans(row'.status, members, snapshot.serverCount)
            && row'.flags == SetPatroniConnectStatus(snapshot.flags, 1) && row'.serverCount == |ServersOf(db', id)|
            && row'.deleted == row.deleted && row'.connectionInfo == row.connectionInfo
  {
    PassWithAnswer(db, id, snapshot, members, refused);
    RowsOfPass(db, id, snapshot, Some(members), refused);
    JudgedAsMeant(members, snapshot.serverCount);
  }

  /** The cluster row after a silent pass: "unavailable" if the snapshot was reached, else as it was. */
  lemma ClusterAfterSilence(db: Db, id: int, snapshot: Cluster, refused: set<string>)
    requires id in db.clusters && ServersOf(db, id) != map[]
    ensures var db' := Pass(db, id, snapshot, None, refused);
            id in db'.clusters &&
            var row, row' := db.clusters[id], db'.clusters[id];
            && row'.status == (if snapshot.flags & 0x1 == 1 then "unavailable" else row.status)
            && row' == row.(status := row'.status, serverCount := |ServersOf(db', id)|)
  {
    SilentPass(db, id, snapshot, refused);
    RowsOfPass(db, id, snapshot, None, refused);
  }

  // ---------- Repeating the pass ----------

  /** The row of one host after the reports of that host alone. */
  function RowAfter(row: Option<Server>, ip: string, members: seq<Member>): Option<Server> {
    if members == [] then row else
      var before, m := RowAfter(row, ip, members[..|members| - 1]), members[|members| - 1];
      if m.host == ip then Some(Upserted(before, m)) else before
  }

  lemma {:induction false} UpsertAllByRow(rows: map<string, Server>, members: seq<Member>, refused: set<string>,
                                          ip: string)
    requires ip !in refused
    ensures RowAt(UpsertAll(rows, members, refused), ip) == RowAfter(RowAt(rows, ip), ip, members)
    decreases |members|
  {
    if members != [] {
      UpsertAllByRow(rows, members[..|members| - 1], refused, ip);
    }
  }

  predicate AnyReport(ip: string, members: seq<Member>) {
    members != [] && (members[|members| - 1].host == ip || AnyReport(ip, members[..|members| - 1]))
  }

  predicate AnyName(ip: string, members: seq<Member>) {
    members != []
    && ((members[|members| - 1].host == ip && members[|members| - 1].name != "")
        || AnyName(ip, members[..|members| - 1]))
  }

  predicate AnyTags(ip: string, members: seq<Member>) {
    members != []
    && ((members[|members| - 1].host == ip && members[|members| - 1].tags.Some?)
        || AnyTags(ip, members[..|members| - 1]))
  }

  /** What the same reports make of two rows x and y differs at most in what no report has set. */
  lemma {:induction false} SameReports(x: Option<Server>, y: Server, ip: string, members: seq<Member>)
    ensures var p, q := RowAfter(x, ip, members), RowAfter(Some(y), ip, members);
            if AnyReport(ip, members) then
              && p.Some? && q.Some?
              && q.value == p.value.(
                   location := y.location,
                   name := if AnyName(ip, members) then p.value.name else y.name,
                   tags := if AnyTags(ip, members) then p.value.tags else y.tags)
              && (x.None? ==> p.value.location == None) && (x.Some? ==> p.value.location == x.value.location)
            else p == x && q == Some(y) && !AnyName(ip, members) && !AnyTags(ip, members)
    decreases |members|
  {
    if members != [] {
      SameReports(x, y, ip, members[..|members| - 1]);
    }
  }

  /** The same reports a second time leave the row as the first time did. */
  lemma ReportTwice(x: Option<Server>, ip: string, members: seq<Member>)
    ensures var once := RowAfter(x, ip, members); RowAfter(once, ip, members) == once
  {
    var once := RowAfter(x, ip, members);
    if once.Some? {
      SameReports(x, once.value, ip, members);
    } else if x.Some? {
      SameReports(x, x.value, ip, members);
    }
  }

  lemma {:induction false} UpsertAllSkipsRefused(rows: map<string, Server>, members: seq<Member>,
                                                 refused: set<string>, ip: string)
    requires ip in refused
    ensures RowAt(UpsertAll(rows, members, refused), ip) == RowAt(rows, ip)
    decreases |members|
  {
    if members != [] {
      UpsertAllSkipsRefused(rows, members[..|members| - 1], refused, ip);
    }
  }

  /** The rows of a pass, passed again with the same report, stay the same. */
  lemma RowsSettle(rows: map<string, Server>, members: seq<Member>, refused: set<string>)
    ensures var hosts := Hosts(members, refused);
            var once := ResetAll(UpsertAll(rows, members, refused), rows.Keys - hosts);
            ResetAll(UpsertAll(once, members, refused), once.Keys - hosts) == once
  {
    var hosts := Hosts(members, refused);
    var first := UpsertAll(rows, members, refused);
    var once := ResetAll(first, rows.Keys - hosts);
    var second := UpsertAll(once, members, refused);
    UpsertAllKeys(rows, members, refused);
    UpsertAllKeys(once, members, refused);
    forall ip | ip in once ensures ResetAll(second, once.Keys - hosts)[ip] == once[ip] {
      if ip in hosts {
        UpsertAllByRow(rows, members, refused, ip);
        UpsertAllByRow(once, members, refused, ip);
        ReportTwice(RowAt(rows, ip), ip, members);
        assert RowAt(once, ip) == RowAt(first, ip);
      }
    }
    assert ResetAll(second, once.Keys - hosts).Keys == once.Keys;
  }

  /** Only the rows of the cluster itself change, and its row in the clusters table. */
  lemma OthersUntouched(db: Db, id: int, snapshot: Cluster, answer: Option<seq<Member>>, refused: set<string>,
                        other: int)
    requires id in db.clusters && other != id
    ensures var db' := Pass(db, id, snapshot, answer, refused);
            && db'.operations == db.operations && ServersOf(db', other) == ServersOf(db, other)
            && db'.clusters.Keys == db.clusters.Keys
               && (other in db.clusters ==> db'.clusters[other] == db.clusters[other])
  {
  }

  /** The tables with the cluster's own rows exchanged. */
  function WithRows(db: Db, id: int, rows: map<string, Server>, row: Cluster): Db {
    Db(db.clusters[id := row], db.servers[id := rows], db.operations)
  }

  function JudgedRow(row: Cluster, snapshot: Cluster, members: seq<Member>, count: nat): Cluster {
    row.(status := JudgeStatus(members, snapshot.serverCount),
         flags := SetPatroniConnectStatus(snapshot.flags, 1), serverCount := count)
  }

  /** What a pass with an answer leaves in the cluster's own rows. */
  lemma PassWithAnswer(db: Db, id: int, snapshot: Cluster, members: seq<Member>, refused: set<string>)
    requires id in db.clusters && ServersOf(db, id) != map[]
    ensures var rows' := RowsAfter(ServersOf(db, id), Some(members), refused);
            Pass(db, id, snapshot, Some(members), refused)
              == WithRows(db, id, rows', JudgedRow(db.clusters[id], snapshot, members, |rows'|))
  {
    var row := db.clusters[id];
    var rows' := RowsAfter(ServersOf(db, id), Some(members), refused);
    assert db.clusters[id := row.(serverCount := |rows'|)][id := JudgedRow(row, snapshot, members, |rows'|)]
        == db.clusters[id := JudgedRow(row, snapshot, members, |rows'|)];
  }

  lemma WithRowsTwice(db: Db, id: int, rows: map<string, Server>, row: Cluster, rows': map<string, Server>,
                      row': Cluster)
    ensures WithRows(WithRows(db, id, rows, row), id, rows', row') == WithRows(db, id, rows', row')
    ensures WithRows(db, id, rows, row) == WithRows(db, id, rows', row') <==> rows == rows' && row == row'
  {
    var d, d' := WithRows(db, id, rows, row), WithRows(db, id, rows', row');
    assert d.servers[id] == rows && d'.servers[id] == rows' && d.clusters[id] == row && d'.clusters[id] == row';
    assert d.clusters[id := row'] == d'.clusters && d.servers[id := rows'] == d'.servers;
  }

  /** A pass over rows that have settled changes at most the count and the status. */
  lemma PassOverSettled(db: Db, id: int, rows: map<string, Server>, row: Cluster, members: seq<Member>,
                        refused: set<string>)
    requires rows != map[] && RowsAfter(rows, Some(members), refused) == rows
    ensures var d := WithRows(db, id, rows, row);
            Pass(d, id, row, Some(members), refused) == WithRows(db, id, rows, JudgedRow(row, row, members, |rows|))
  {
    var d := WithRows(db, id, rows, row);
    assert ServersOf(d, id) == rows && d.clusters[id] == row;
    PassWithAnswer(d, id, row, members, refused);
    WithRowsTwice(db, id, rows, row, rows, JudgedRow(row, row, members, |rows|));
  }

  /** Repeating the pass with the same report. The rows and the flag are as the first pass left
      them. The count the trigger has made meanwhile, of old and reported addresses, replaces the
      one the first pass judged by, so the second pass changes the tables exactly when the two
      counts are judged differently; a third pass never does. */
  lemma PassAgain(db: Db, id: int, snapshot: Cluster, members: seq<Member>, refused: set<string>)
    requires id in db.clusters && ServersOf(db, id) != map[]
    ensures var once := Pass(db, id, snapshot, Some(members), refused);
            id in once.clusters &&
            var twice := Pass(once, id, once.clusters[id], Some(members), refused);
            && id in twice.clusters && twice.servers == once.servers
            && (twice == once <==>
                  JudgeStatus(members, snapshot.serverCount)
                  == JudgeStatus(members, |ServersOf(db, id).Keys + Hosts(members, refused)|))
            && Pass(twice, id, twice.clusters[id], Some(members), refused) == twice
  {
    var rows := ServersOf(db, id);
    var rows' := RowsAfter(rows, Some(members), refused);
    var row' := JudgedRow(db.clusters[id], snapshot, members, |rows'|);
    var row'' := JudgedRow(row', row', members, |rows'|);
    UpsertAllKeys(rows, members, refused);
    assert rows'.Keys == rows.Keys + Hosts(members, refused) && |rows'| == |rows'.Keys|;
    RowsSettle(rows, members, refused);
    PassWithAnswer(db, id, snapshot, members, refused);
    PassOverSettled(db, id, rows', row', members, refused);
    PassOverSettled(db, id, rows', row'', members, refused);
    WithRowsTwice(db, id, rows', row', rows', row'');
    SetTwice(snapshot.flags, 1);
  }

  /** The counts are judged differently, for example, where a report brings a second member that does
      not run: by the old count of one the cluster is healthy, by the new count of two it is not. */
  lemma SecondPassChangesStatus(db: Db, id: int, snapshot: Cluster, m: Member, n: Member)
    requires id in db.clusters && ServersOf(db, id).Keys == {m.host} && snapshot.serverCount == 1
    requires Running(m) && !Running(n) && m.host != n.host
    ensures var once := Pass(db, id, snapshot, Some([m, n]), {});
            id in once.clusters && once.clusters[id].status == HEALTHY &&
            var twice := Pass(once, id, once.clusters[id], Some([m, n]), {});
            id in twice.clusters && twice.clusters[id].status == UNHEALTHY
  {
    var members := [m, n];
    var rows' := RowsAfter(ServersOf(db, id), Some(members), {});
    var row' := JudgedRow(db.clusters[id], snapshot, members, |rows'|);
    TwoHosts(m, n);
    UpsertAllKeys(ServersOf(db, id), members, {});
    assert rows'.Keys == {m.host, n.host} && |rows'.Keys| == |rows'|;
    PassWithAnswer(db, id, snapshot, members, {});
    assert ServersOf(WithRows(db, id, rows', row'), id) == rows';
    PassWithAnswer(WithRows(db, id, rows', row'), id, row', members, {});
    RowsSettle(ServersOf(db, id), members, {});
  }

  lemma TwoHosts(m: Member, n: Member)
    requires Running(m) && !Running(n) && m.host != n.host
    ensures Hosts([m, n], {}) == {m.host, n.host} && |{m.host, n.host}| == 2
    ensures RunningCount([m, n]) == 1
  {
    assert RunningCount([m][..0]) == 0;
    assert RunningCount([m]) == 1;
    assert [m, n][..1] == [m];
    assert m in [m, n] && n in [m, n];
  }

  /** Two passes over the rows each finds, with one set of replies that agree: whatever server is
      asked first, both get the one answer, so that the tables are those of the lemma above. The
      rows the second pass finds again hold no address the database refuses. */
  lemma RepliesAgain(db: Db, id: int, snapshot: Cluster, order: seq<string>, order': seq<string>, replies: Replies,
                     members: seq<Member>, refused: set<string>)
    requires id in db.clusters && Enumerates(order, ServersOf(db, id))
    requires forall ip | ip in refused :: ip !in ServersOf(db, id)
    requires forall ip | ip in replies :: replies[ip] == members
    requires exists ip :: ip in ServersOf(db, id) && ip in replies
    requires var once := Pass(db, id, snapshot, Answer(order, replies), refused);
             Enumerates(order', ServersOf(once, id))
    ensures var once := Pass(db, id, snapshot, Answer(order, replies), refused);
            && id in once.clusters && (forall ip | ip in refused :: ip !in ServersOf(once, id))
            && once == Pass(db, id, snapshot, Some(members), refused)
            && Pass(once, id, once.clusters[id], Answer(order', replies), refused)
                 == Pass(once, id, once.clusters[id], Some(members), refused)
  {
    var asked :| asked in ServersOf(db, id) && asked in replies;
    SameAnswer(order, replies, members);
    assert asked in order;
    PassWithAnswer(db, id, snapshot, members, refused);
    UpsertAllKeys(ServersOf(db, id), members, refused);
    var rows' := RowsAfter(ServersOf(db, id), Some(members), refused);
    assert ServersOf(Pass(db, id, snapshot, Some(members), refused), id) == rows';
    SameAnswer(order', replies, members);
    assert asked in rows' && asked in order';
  }

  /** A pass without an answer resets every row and marks a cluster as unavailable that the snapshot
      knew as reached. Repeating it changes something exactly if the table knew better: then the
      second pass writes the status the first did not. */
  lemma SilentPassAgain(db: Db, id: int, snapshot: Cluster, refused: set<string>)
    requires id in db.clusters && ServersOf(db, id) != map[]
    ensures var row, once := db.clusters[id], Pass(db, id, snapshot, None, refused);
            && id in once.clusters
            && ServersOf(once, id) == ResetAll(ServersOf(db, id), ServersOf(db, id).Keys)
            && once.clusters[id].status == (if Reached(snapshot.flags) then UNAVAILABLE else row.status)
            && (Pass(once, id, once.clusters[id], None, refused) == once <==>
                  (Reached(row.flags) && !Reached(snapshot.flags) ==> row.status == UNAVAILABLE))
  {
    var rows := ServersOf(db, id);
    var rows' := ResetAll(rows, rows.Keys);
    SilentPass(db, id, snapshot, refused);
    var row' := SilentRow(db.clusters[id], snapshot, |rows'|);
    var once := WithRows(db, id, rows', row');
    assert rows'.Keys == rows.Keys && ResetAll(rows', rows'.Keys) == rows';
    assert ServersOf(once, id) == rows' && once.clusters[id] == row';
    SilentPass(once, id, row', refused);
    WithRowsTwice(db, id, rows', row', rows', row');
  }

  function SilentRow(row: Cluster, snapshot: Cluster, count: nat): Cluster {
    row.(serverCount := count, status := if Reached(snapshot.flags) then UNAVAILABLE else row.status)
  }

  lemma SilentPass(db: Db, id: int, snapshot: Cluster, refused: set<string>)
    requires id in db.clusters && ServersOf(db, id) != map[]
    ensures var rows' := ResetAll(ServersOf(db, id), ServersOf(db, id).Keys);
            Pass(db, id, snapshot, None, refused)
              == WithRows(db, id, rows', SilentRow(db.clusters[id], snapshot, |rows'|))
  {
    var row := db.clusters[id];
    var rows' := ResetAll(ServersOf(db, id), ServersOf(db, id).Keys);
    assert db.clusters[id := row.(serverCount := |rows'|)][id := SilentRow(row, snapshot, |rows'|)]
        == db.clusters[id := SilentRow(row, snapshot, |rows'|)];
  }

  /** If all servers that answer report the same, the order in which they are asked is no matter. */
  lemma {:induction false} SameAnswer(order: seq<string>, replies: Replies, members: seq<Member>)
    requires forall ip | ip in replies :: replies[ip] == members
    ensures Answer(order, replies) == if exists ip :: ip in order && ip in replies then Some(members) else None
  {
    if order != [] {
      SameAnswer(order[1..], replies, members);
      assert order == [order[0]] + order[1..];
    }
  }

  // ---------- The pass as it runs ----------

  /** The tables with the cluster's servers written, if any write happened. */
  function Written(db: Db, id: int, rows: map<string, Server>, wrote: bool): Db {
    if wrote then WriteServers(db, id, rows) else db
  }

  lemma WriteTwice(db: Db, id: int, rows: map<string, Server>, rows': map<string, Server>)
    ensures WriteServers(WriteServers(db, id, rows), id, rows') == WriteServers(db, id, rows')
    ensures ServersOf(WriteServers(db, id, rows), id) == rows
  {
    var once := WriteServers(db, id, rows);
    assert once.servers[id := rows'] == db.servers[id := rows'];
    if id in db.clusters {
      assert once.clusters[id := db.clusters[id].(serverCount := |rows'|)]
               == db.clusters[id := db.clusters[id].(serverCount := |rows'|)];
    }
  }

  lemma JudgeThenWrite(db: Db, id: int, snapshot: Cluster, answer: Option<seq<Member>>, rows: map<string, Server>)
    requires id in db.clusters
    ensures WriteServers(Judged(db, id, snapshot, answer), id, rows)
              == Judged(WriteServers(db, id, rows), id, snapshot, answer)
    ensures ServersOf(Judged(db, id, snapshot, answer), id) == ServersOf(db, id)
  {
    var left := WriteServers(Judged(db, id, snapshot, answer), id, rows);
    var right := Judged(WriteServers(db, id, rows), id, snapshot, answer);
    assert left.clusters == db.clusters[id := left.clusters[id]];
    assert right.clusters == db.clusters[id := right.clusters[id]];
  }

  /** What the first k members of an answer have brought. */
  function RowsSoFar(rows: map<string, Server>, members: seq<Member>, k: nat, refused: set<string>): map<string, Server>
    requires k <= |members|
  {
    UpsertAll(rows, members[..k], refused)
  }

  function HostsSoFar(members: seq<Member>, k: nat, refused: set<string>): set<string>
    requires k <= |members|
  {
    Hosts(members[..k], refused)
  }

  lemma OneMemberMore(rows: map<string, Server>, members: seq<Member>, k: nat, refused: set<string>)
    requires k < |members|
    ensures var m := members[k];
            && HostsSoFar(members, k + 1, refused)
                 == HostsSoFar(members, k, refused) + (if m.host in refused then {} else {m.host})
            && RunningCount(members[..k + 1]) == RunningCount(members[..k]) + (if Running(m) then 1 else 0)
            && RowsSoFar(rows, members, k + 1, refused)
                 == (if m.host in refused then RowsSoFar(rows, members, k, refused)
                     else UpsertRow(RowsSoFar(rows, members, k, refused), m))
  {
    var before, after, m := members[..k], members[..k + 1], members[k];
    assert after[..|after| - 1] == before && after[|after| - 1] == m;
    assert after == before + [m];
  }

  lemma NoHostsNoRows(rows: map<string, Server>, members: seq<Member>, refused: set<string>)
    requires Hosts(members, refused) == {}
    ensures UpsertAll(rows, members, refused) == rows
  {
    UpsertAllKeys(rows, members, refused);
  }

  function Marked(known: map<string, bool>, hosts: set<string>): map<string, bool> {
    known + map ip | ip in hosts :: true
  }

  /** The tables after the first k members. */
  ghost function DbSoFar(start: Db, id: int, members: seq<Member>, k: nat, refused: set<string>): Db
    requires k <= |members|
  {
    Written(start, id, RowsSoFar(ServersOf(start, id), members, k, refused), HostsSoFar(members, k, refused) != {})
  }

  lemma DbOneMemberMore(start: Db, id: int, members: seq<Member>, k: nat, refused: set<string>)
    requires k < |members| && id in start.clusters
    ensures var m, before := members[k], DbSoFar(start, id, members, k, refused);
            DbSoFar(start, id, members, k + 1, refused)
              == if m.host in refused then before else WriteServers(before, id, UpsertRow(ServersOf(before, id), m))
  {
    var rows := ServersOf(start, id);
    OneMemberMore(rows, members, k, refused);
    var before, after := RowsSoFar(rows, members, k, refused), RowsSoFar(rows, members, k + 1, refused);
    if HostsSoFar(members, k, refused) == {} {
      NoHostsNoRows(rows, members[..k], refused);
    }
    WriteTwice(start, id, before, after);
  }

  lemma MarkedOneMore(known: map<string, bool>, members: seq<Member>, k: nat, refused: set<string>)
    requires k < |members|
    ensures Marked(known, HostsSoFar(members, k + 1, refused))
         == if members[k].host in refused then Marked(known, HostsSoFar(members, k, refused))
            else Marked(known, HostsSoFar(members, k, refused))[members[k].host := true]
  {
    OneMemberMore(map[], members, k, refused);
  }

  /** One member: the upsert, and the note that its host is known. */
  method WriteMember(db: Storage, id: int, members: seq<Member>, k: nat, refused: set<string>,
                     serversMap: map<string, bool>,
                     ghost start: Db, ghost known: map<string, bool>)
    returns (serversMap': map<string, bool>)
    requires k < |members| && id in db.clusters && id in start.clusters
    requires db.Contents() == DbSoFar(start, id, members, k, refused)
    requires serversMap == Marked(known, HostsSoFar(members, k, refused))
    modifies db
    ensures id in db.clusters && db.Contents() == DbSoFar(start, id, members, k + 1, refused)
    ensures serversMap' == Marked(known, HostsSoFar(members, k + 1, refused))
  {
    DbOneMemberMore(start, id, members, k, refused);
    MarkedOneMore(known, members, k, refused);
    var ok := db.UpdateServerRow(id, members[k], refused);
    serversMap' := if ok then serversMap[members[k].host := true] else serversMap;
  }

  /** The members of the answer are written one by one, the running ones counted, and the cluster judged. */
  method WriteMembers(db: Storage, id: int, cl: Cluster, members: seq<Member>, refused: set<string>,
                      known: map<string, bool>)
    returns (serversMap: map<string, bool>)
    requires id in db.clusters
    modifies db
    ensures id in old(db.clusters) && id in db.clusters
    ensures serversMap == Marked(known, Hosts(members, refused))
    ensures var start := old(db.Contents());
            var written := Written(start, id, UpsertAll(ServersOf(start, id), members, refused),
                                   Hosts(members, refused) != {});
            id in written.clusters && db.Contents() == Judged(written, id, cl, Some(members))
  {
    ghost var start := db.Contents();
    serversMap := known;
    assert known == Marked(known, {}) by { MarkedNone(known); }
    var healthyServers := 0;
    for k := 0 to |members|
      invariant id in db.clusters && db.Contents() == DbSoFar(start, id, members, k, refused)
      invariant serversMap == Marked(known, HostsSoFar(members, k, refused))
      invariant healthyServers == RunningCount(members[..k])
    {
      OneMemberMore(map[], members, k, refused);
      serversMap := WriteMember(db, id, members, k, refused, serversMap, start, known);
      if members[k].state == "running" || members[k].state == "streaming" {
        healthyServers := healthyServers + 1;
      }
    }
    assert members[..|members|] == members;
    var status :=
      if |members| < cl.serverCount then DEGRADED
      else if healthyServers < cl.serverCount then UNHEALTHY
      else HEALTHY;
    var _ := db.UpdateClusterRow(id, Some(status), Some(SetPatroniConnectStatus(cl.flags, 1)), None);
  }

  lemma MarkedNone(known: map<string, bool>)
    ensures Marked(known, {}) == known
  {
  }

  /** The last loop: every address that was not reported is reset, in any order. */
  method ResetUnknown(db: Storage, id: int, serversMap: map<string, bool>)
    requires id in db.clusters
    requires Unknown(serversMap) <= ServersOf(db.Contents(), id).Keys
    modifies db
    ensures var start, unknown := old(db.Contents()), Unknown(serversMap);
            db.Contents() == Written(start, id, ResetAll(ServersOf(start, id), unknown), unknown != {})
  {
    ghost var start := db.Contents();
    var left := Unknown(serversMap);
    ghost var done := {};
    NothingToReset(ServersOf(start, id));
    while left != {}
      invariant ResetState(db.Contents(), start, id, done, left, serversMap)
      decreases |left|
    {
      var ip :| ip in left;
      MoveOne(left, done, ip);
      ResetOne(db, id, ip, start, done, left, serversMap);
      left, done := left - {ip}, done + {ip};
    }
    assert done == Unknown(serversMap);
  }

  ghost predicate ResetState(db: Db, start: Db, id: int, done: set<string>, left: set<string>,
                             serversMap: map<string, bool>) {
    && id in db.clusters && done + left == Unknown(serversMap) && done !! left
    && Unknown(serversMap) <= ServersOf(start, id).Keys
    && db == Written(start, id, ResetAll(ServersOf(start, id), done), done != {})
  }

  lemma MoveOne(left: set<string>, done: set<string>, ip: string)
    requires ip in left && left !! done
    ensures (left - {ip}) + (done + {ip}) == left + done && left - {ip} !! done + {ip} && |left - {ip}| < |left|
  {
  }

  method ResetOne(db: Storage, id: int, ip: string, ghost start: Db, ghost done: set<string>, ghost left: set<string>,
                  ghost serversMap: map<string, bool>)
    requires ResetState(db.Contents(), start, id, done, left, serversMap) && ip in left
    modifies db
    ensures ResetState(db.Contents(), start, id, done + {ip}, left - {ip}, serversMap)
  {
    MoveOne(left, done, ip);
    ResetOneMore(start, id, ServersOf(start, id), done, ip);
    var _ := db.ResetServerRow(id, ip);
  }

  function Unknown(serversMap: map<string, bool>): set<string> {
    set ip | ip in serversMap && !serversMap[ip]
  }

  lemma ResetOneMore(start: Db, id: int, rows: map<string, Server>, done: set<string>, ip: string)
    requires rows == ServersOf(start, id) && ip in rows && ip !in done
    ensures var db := Written(start, id, ResetAll(rows, done), done != {});
            ResetServer(db, id, ip) == Some(WriteServers(start, id, ResetAll(rows, done + {ip})))
  {
    var before, after := ResetAll(rows, done), ResetAll(rows, done + {ip});
    assert before[ip := ResetRow(rows[ip])] == after;
    if done == {} {
      assert before == rows;
    }
    WriteTwice(start, id, before, after);
  }

  /** `handleClusterServers`. The order is that of the rows read at the start of the pass. */
  method HandleClusterServers(db: Storage, id: int, cl: Cluster, order: seq<string>, replies: Replies,
                              refused: set<string>)
    requires id in db.clusters && Enumerates(order, ServersOf(db.Contents(), id))
    requires forall ip | ip in refused :: ip !in ServersOf(db.Contents(), id)
    modifies db
    ensures id in old(db.clusters)
    ensures db.Contents() == Pass(old(db.Contents()), id, cl, Answer(order, replies), refused)
  {
    ghost var start := db.Contents();
    var serversMap := map ip | ip in order :: false;
    assert serversMap == map ip | ip in ServersOf(start, id) :: false;
    var reached := FindAnswer(order, replies);
    PassInSteps(start, id, cl, reached, refused, serversMap);
    if reached.Some? {
      serversMap := WriteMembers(db, id, cl, reached.value, refused, serversMap);
    } else if Reached(cl.flags) {
      var _ := db.UpdateClusterRow(id, Some(UNAVAILABLE), None, None);
    }
    ResetUnknown(db, id, serversMap);
  }

  /** The loop over the servers up to the first that answers. */
  method FindAnswer(order: seq<string>, replies: Replies) returns (r: Option<seq<Member>>)
    ensures r == Answer(order, replies)
    ensures match r
            case Some(members) =>
              exists i :: 0 <= i < |order| && order[i] in replies && members == replies[order[i]]
                          && forall j | 0 <= j < i :: order[j] !in replies
            case None => forall ip | ip in order :: ip !in replies
  {
    for i := 0 to |order|
      invariant Answer(order, replies) == Answer(order[i..], replies)
      invariant forall j | 0 <= j < i :: order[j] !in replies
    {
      if order[i] in replies {
        return Some(replies[order[i]]);
      }
    }
    return None;
  }

  /** The hosts an answer reports, and the rows it leaves before the last loop. */
  function AnswerHosts(answer: Option<seq<Member>>, refused: set<string>): set<string> {
    if answer.Some? then Hosts(answer.value, refused) else {}
  }

  function AnswerRows(rows: map<string, Server>, answer: Option<seq<Member>>,
                      refused: set<string>): map<string, Server> {
    if answer.Some? then UpsertAll(rows, answer.value, refused) else rows
  }

  lemma AnswerKeys(rows: map<string, Server>, answer: Option<seq<Member>>, refused: set<string>)
    ensures AnswerRows(rows, answer, refused).Keys == rows.Keys + AnswerHosts(answer, refused)
    ensures AnswerHosts(answer, refused) == {} ==> AnswerRows(rows, answer, refused) == rows
    ensures RowsAfter(rows, answer, refused)
         == ResetAll(AnswerRows(rows, answer, refused), rows.Keys - AnswerHosts(answer, refused))
  {
    if answer.Some? {
      UpsertAllKeys(rows, answer.value, refused);
    } else {
      assert rows.Keys - {} == rows.Keys;
    }
  }

  lemma NothingToReset(rows: map<string, Server>)
    ensures ResetAll(rows, {}) == rows
  {
  }

  /** The steps of the pass, put together. */
  lemma PassInSteps(start: Db, id: int, cl: Cluster, answer: Option<seq<Member>>, refused: set<string>,
                    known: map<string, bool>)
    requires id in start.clusters && known == map ip | ip in ServersOf(start, id) :: false
    ensures var rows, hosts := ServersOf(start, id), AnswerHosts(answer, refused);
            var written := Written(start, id, AnswerRows(rows, answer, refused), hosts != {});
            var judged := Judged(written, id, cl, answer);
            var unknown := Unknown(Marked(known, hosts));
            && id in written.clusters && id in judged.clusters && unknown <= ServersOf(judged, id).Keys
            && Written(judged, id, ResetAll(ServersOf(judged, id), unknown), unknown != {})
                 == Pass(start, id, cl, answer, refused)
            && (hosts == {} ==> Marked(known, hosts) == known)
  {
    var rows, hosts := ServersOf(start, id), AnswerHosts(answer, refused);
    var first := AnswerRows(rows, answer, refused);
    MarkedNone(known);
    UnknownLeft(rows, hosts);
    AnswerKeys(rows, answer, refused);
    WriteAndReset(start, id, cl, answer, first, rows.Keys - hosts, hosts != {});
    if rows.Keys - hosts == {} {
      NothingToReset(first);
    }
    assert WritesRows(rows, answer, refused) <==> hosts != {} || rows.Keys - hosts != {} by {
      assert rows == map[] <==> rows.Keys == {};
    }
  }

  lemma UnknownLeft(rows: map<string, Server>, hosts: set<string>)
    ensures Unknown(Marked(map ip | ip in rows :: false, hosts)) == rows.Keys - hosts
  {
  }

  /** Writing rows, judging, and resetting some of them is writing once and judging. */
  lemma WriteAndReset(start: Db, id: int, cl: Cluster, answer: Option<seq<Member>>, first: map<string, Server>,
                      unknown: set<string>, wrote: bool)
    requires id in start.clusters && unknown <= first.Keys && (!wrote ==> first == ServersOf(start, id))
    ensures var written := Written(start, id, first, wrote);
            id in written.clusters &&
            var judged := Judged(written, id, cl, answer);
            && id in judged.clusters && ServersOf(judged, id) == first
            && Written(judged, id, ResetAll(first, unknown), unknown != {})
                 == Judged(Written(start, id, if unknown == {} then first else ResetAll(first, unknown),
                                   wrote || unknown != {}),
                           id, cl, answer)
  {
    var written := Written(start, id, first, wrote);
    var last := ResetAll(first, unknown);
    WriteTwice(start, id, first, last);
    JudgeThenWrite(written, id, cl, answer, last);
  }
}
