/**
 The tables of the console's database, and what each statement of the storage layer does to
 them: the updates with `coalesce`, the upsert of servers, the reset, and the trigger that
 recounts a cluster's servers. The statements are functions here; class Storage runs them.
 */
module Tables {
  import opened Wrappers

  const IN_PROGRESS := "in_progress"
  const SUCCESS := "success"
  const FAILED := "failed"

  const DEPLOYING := "deploying"
  const HEALTHY := "healthy"
  const UNHEALTHY := "unhealthy"
  const DEGRADED := "degraded"
  const READY := "ready"
  const UNAVAILABLE := "unavailable"

  const NA := "N/A"

  /** The columns of a cluster that the modelled processes read or write. */
  datatype Cluster =
    Cluster(status: string, flags: bv32, serverCount: int, deleted: bool, connectionInfo: Option<string>)

  datatype Server = Server(
    name: string, location: Option<string>, role: string, status: string,
    timeline: Option<int>, lag: Option<int>, tags: Option<string>, pendingRestart: bool)

  datatype Operation = Operation(clusterId: int, status: string, log: Option<string>)

  /** Servers are indexed by their cluster first: (cluster_id, ip_address) is unique. */
  datatype Db = Db(clusters: map<int, Cluster>, servers: map<int, map<string, Server>>, operations: map<int, Operation>)

  function ServersOf(db: Db, id: int): map<string, Server> {
    if id in db.servers then db.servers[id] else map[]
  }

  // ---------- Flags ----------

  /** `SetPatroniConnectStatus`: the mask to clear has bits 0 and 3 unset. */
  function SetPatroniConnectStatus(flags: bv32, status: bv32): bv32 {
    (flags & 0xffff_fff6) | (status & 0x1)
  }

  function GetPatroniConnectStatus(flags: bv32): bv32 {
    flags & 0x1
  }

  predicate Reached(flags: bv32) {
    GetPatroniConnectStatus(flags) == 1
  }

  /** What is set is read back. */
  lemma SetThenGet(flags: bv32, status: bv32)
    ensures GetPatroniConnectStatus(SetPatroniConnectStatus(flags, status)) == status & 0x1
  {
  }

  /** All bits but 0 and 3 stay. */
  lemma SetKeepsOtherBits(flags: bv32, status: bv32)
    ensures SetPatroniConnectStatus(flags, status) & 0xffff_fff6 == flags & 0xffff_fff6
  {
  }

  /** Bit 3 is lost, although it is not the status bit. */
  lemma SetLosesBitThree(flags: bv32, status: bv32)
    ensures SetPatroniConnectStatus(flags, status) & 0x8 == 0
  {
  }

  lemma SetTwice(flags: bv32, status: bv32)
    ensures SetPatroniConnectStatus(SetPatroniConnectStatus(flags, status), status)
              == SetPatroniConnectStatus(flags, status)
  {
    SetKeepsOtherBits(flags, status);
  }

  // ---------- Statements ----------

  /** `UpdateCluster`; None where no row has the id. */
  function UpdateCluster(db: Db, id: int, status: Option<string>, flags: Option<bv32>,
                         info: Option<string>): Option<Db> {
    if id !in db.clusters then None else
      var row := db.clusters[id];
      Some(db.(clusters := db.clusters[id := row.(
        status := Coalesce(status, row.status),
        flags := Coalesce(flags, row.flags),
        connectionInfo := if info.Some? then info else row.connectionInfo)]))
  }

  /** The trigger after an insert or an update of a server: the cluster's servers are counted. */
  function Recount(db: Db, id: int): Db {
    if id !in db.clusters then db else
      db.(clusters := db.clusters[id := db.clusters[id].(serverCount := |ServersOf(db, id)|)])
  }

  function WriteServers(db: Db, id: int, rows: map<string, Server>): Db {
    Recount(db.(servers := db.servers[id := rows]), id)
  }

  /** One member of a cluster as Patroni reports it; a lag of an unknown type is None. */
  datatype Member = Member(
    host: string, name: string, role: string, state: string, timeline: int,
    lag: Option<int>, tags: Option<string>, pendingRestart: bool)

  /** The row after the upsert of a reported member. */
  function Upserted(row: Option<Server>, m: Member): Server {
    match row
    case None => Server(m.name, None, m.role, m.state, Some(m.timeline), m.lag, m.tags, m.pendingRestart)
    case Some(s) =>
      Server(if m.name == "" then s.name else m.name, s.location, m.role, m.state, Some(m.timeline), m.lag,
             if m.tags.Some? then m.tags else s.tags, m.pendingRestart)
  }

  function RowAt(rows: map<string, Server>, ip: string): Option<Server> {
    if ip in rows then Some(rows[ip]) else None
  }

  function UpsertRow(rows: map<string, Server>, m: Member): map<string, Server> {
    rows[m.host := Upserted(RowAt(rows, m.host), m)]
  }

  /** `UpdateServer`; None where the cluster is missing (the foreign key) or the address is refused. */
  function UpdateServer(db: Db, id: int, m: Member, refused: set<string>): Option<Db> {
    if id !in db.clusters || m.host in refused then None
    else Some(WriteServers(db, id, UpsertRow(ServersOf(db, id), m)))
  }

  function ResetRow(s: Server): Server {
    s.(role := NA, status := NA, timeline := None, lag := None, tags := None)
  }

  /** `ResetServer`; None where no row matches. */
  function ResetServer(db: Db, id: int, ip: string): Option<Db> {
    var rows := ServersOf(db, id);
    if ip !in rows then None else Some(WriteServers(db, id, rows[ip := ResetRow(rows[ip])]))
  }

  /** `CreateServer`; a second row with the same address is refused by the unique index. */
  function CreateServer(db: Db, id: int, ip: string, name: string, location: Option<string>): Option<Db> {
    if id !in db.clusters || ip in ServersOf(db, id) then None
    else Some(WriteServers(db, id, ServersOf(db, id)[ip := Server(name, location, NA, NA, None, None, None, false)]))
  }

  predicate OperationStatus(s: string) {
    s == IN_PROGRESS || s == SUCCESS || s == FAILED
  }

  /** `UpdateOperation`; None where no row has the id or the status breaks the column's check. */
  function UpdateOperation(db: Db, id: int, status: Option<string>, line: Option<string>): Option<Db> {
    if id !in db.operations || (status.Some? && !OperationStatus(status.value)) then None else
      var row := db.operations[id];
      Some(db.(operations := db.operations[id := row.(
        status := Coalesce(status, row.status),
        log := if line.None? then row.log else Some(Coalesce(row.log, "") + "\n" + line.value))]))
  }

  /** Exactly when a statement fails: for want of its row, of the cluster it refers to, on an address that
      is refused or taken, or on a status the column's check does not know. */
  lemma WhenStatementsFail(db: Db, id: int, ip: string, m: Member, refused: set<string>, status: Option<string>,
                           line: Option<string>)
    ensures UpdateCluster(db, id, status, None, None) == None <==> id !in db.clusters
    ensures UpdateServer(db, id, m, refused) == None <==> id !in db.clusters || m.host in refused
    ensures ResetServer(db, id, ip) == None <==> id !in db.servers || ip !in db.servers[id]
    ensures CreateServer(db, id, ip, m.name, None) == None <==>
            id !in db.clusters || (id in db.servers && ip in db.servers[id])
    ensures UpdateOperation(db, id, status, line) == None <==>
            id !in db.operations || (status.Some? && status.value !in {"in_progress", "success", "failed"})
  {
  }

  // ---------- The storage object ----------

  class Storage {
    var clusters: map<int, Cluster>
    var servers: map<int, map<string, Server>>
    var operations: map<int, Operation>

    function Contents(): Db
      reads this
    {
      Db(clusters, servers, operations)
    }

    constructor (db: Db)
      ensures Contents() == db
    {
      clusters, servers, operations := db.clusters, db.servers, db.operations;
    }

    /** A statement that fails leaves the tables as they were. */
    static ghost predicate Ran(ok: bool, before: Db, after: Db, statement: Option<Db>) {
      ok == statement.Some? && after == (if ok then statement.value else before)
    }

    method UpdateClusterRow(id: int, status: Option<string>, flags: Option<bv32>, info: Option<string>)
      returns (ok: bool)
      modifies this
      ensures Ran(ok, old(Contents()), Contents(), UpdateCluster(old(Contents()), id, status, flags, info))
    {
      if id !in clusters {
        return false;
      }
      var row := clusters[id];
      if status.Some? {
        row := row.(status := status.value);
      }
      if flags.Some? {
        row := row.(flags := flags.value);
      }
      if info.Some? {
        row := row.(connectionInfo := info);
      }
      clusters := clusters[id := row];
      return true;
    }

    method RecountServers(id: int)
      modifies this`clusters
      ensures Contents() == Recount(old(Contents()), id)
    {
      if id in clusters {
        clusters := clusters[id := clusters[id].(serverCount := if id in servers then |servers[id]| else 0)];
      }
    }

    method UpdateServerRow(id: int, m: Member, refused: set<string>) returns (ok: bool)
      modifies this
      ensures Ran(ok, old(Contents()), Contents(), UpdateServer(old(Contents()), id, m, refused))
    {
      if id !in clusters || m.host in refused {
        return false;
      }
      servers := servers[id := UpsertRow(ServersOf(Contents(), id), m)];
      RecountServers(id);
      return true;
    }

    method ResetServerRow(id: int, ip: string) returns (ok: bool)
      modifies this
      ensures Ran(ok, old(Contents()), Contents(), ResetServer(old(Contents()), id, ip))
    {
      if id !in servers || ip !in servers[id] {
        return false;
      }
      servers := servers[id := servers[id][ip := ResetRow(servers[id][ip])]];
      RecountServers(id);
      return true;
    }

    method CreateServerRow(id: int, ip: string, name: string, location: Option<string>) returns (ok: bool)
      modifies this
      ensures Ran(ok, old(Contents()), Contents(), CreateServer(old(Contents()), id, ip, name, location))
    {
      if id !in clusters || (id in servers && ip in servers[id]) {
        return false;
      }
      var row := Server(name, location, NA, NA, None, None, None, false);
      servers := servers[id := ServersOf(Contents(), id)[ip := row]];
      RecountServers(id);
      return true;
    }

    method UpdateOperationRow(id: int, status: Option<string>, line: Option<string>) returns (ok: bool)
      modifies this
      ensures Ran(ok, old(Contents()), Contents(), UpdateOperation(old(Contents()), id, status, line))
    {
      if id !in operations || (status.Some? && !OperationStatus(status.value)) {
        return false;
      }
      var row := operations[id];
      if status.Some? {
        row := row.(status := status.value);
      }
      if line.Some? {
        row := row.(log := Some(Coalesce(row.log, "") + "\n" + line.value));
      }
      operations := operations[id := row];
      return true;
    }
  }
}
