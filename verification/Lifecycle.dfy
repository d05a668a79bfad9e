/**
 The life of clusters and deploy operations as an interleaved system. The create and remove
 handlers, the single log watcher, the log collectors and the workers that look at clusters
 each take one statement on the tables per step; every interleaving is a list of actions.
 What a statement or Docker may refuse is a choice of the action.
 */
module Lifecycle {
  import opened Wrappers
  import opened Tables
  import opened Texts

  /** A create handler after its cluster row is inserted. */
  datatype Creating =
    | Created(cluster: int)
    | Started(cluster: int)
    | Failing(cluster: int)
    | Returned

  /** A remove handler; the rows go in three statements. */
  datatype Removing = Begun(cluster: int) | OperationsGone(cluster: int) | ServersGone(cluster: int) | Gone

  /** An operation as the log watcher has read it. */
  datatype Job = Job(operation: int, cluster: int)

  /** The log watcher: between passes, in a pass, or between its two writes for one operation. */
  datatype Watcher = Idle | Pass(jobs: seq<Job>) | Between(cluster: int, status: string, jobs: seq<Job>)

  /** A worker of the cluster watcher, or a refresh request, with the row it has read. */
  datatype Worker = Worker(cluster: int, flags: bv32)

  /** `begun` and `lost` are history: clusters whose removal has begun, and clusters whose create
      handler or log watcher has failed to write their status. `lines` is history too: the lines
      stored for each operation. */
  datatype State = State(
    db: Db, creates: map<int, Creating>, removes: map<int, Removing>, watcher: Watcher, workers: map<int, Worker>,
    nextCluster: int, nextOperation: int, begun: set<int>, lost: set<int>, lines: map<int, seq<string>>)

  datatype Action =
    | Create(handler: int, existing: bool)
    | StartContainer(handler: int, ok: bool)
    | CreateOperation(handler: int, ok: bool)
    | FailCluster(handler: int, ok: bool)
    | BeginRemove(handler: int, cluster: int)
    | DeleteOperations(handler: int, ok: bool)
    | DeleteServers(handler: int, ok: bool)
    | DeleteClusterRow(handler: int, ok: bool)
    | SoftDelete(cluster: int)
    | Poll(jobs: seq<Job>)
    | SkipJob
    | WriteOperation(status: string, ok: bool)
    | WriteClusterStatus(ok: bool)
    | EndPass
    | AppendLog(operation: int, line: string)
    | TakeSnapshot(worker: int, cluster: int)
    | ReportReached(worker: int, status: string, ok: bool)
    | ReportUnavailable(worker: int, ok: bool)

  const INIT := State(Db(map[], map[], map[]), map[], map[], Idle, map[], 0, 0, {}, {}, map[])

  predicate JobsOf(db: Db, jobs: seq<Job>) {
    && (forall i | 0 <= i < |jobs| ::
          jobs[i].operation in db.operations && db.operations[jobs[i].operation].status == IN_PROGRESS
          && db.operations[jobs[i].operation].clusterId == jobs[i].cluster)
    && (forall i, j | 0 <= i < j < |jobs| :: jobs[i].operation != jobs[j].operation)
  }

  predicate IsNewline(c: char) {
    c == '\n'
  }

  predicate Enabled(s: State, a: Action) {
    match a
    case Create(h, _) => h !in s.creates
    case StartContainer(h, _) => h in s.creates && s.creates[h].Created?
    case CreateOperation(h, _) => h in s.creates && s.creates[h].Started?
    case FailCluster(h, _) => h in s.creates && s.creates[h].Failing?
    case BeginRemove(h, c) => h !in s.removes && c in s.db.clusters
    case DeleteOperations(h, _) => h in s.removes && s.removes[h].Begun?
    case DeleteServers(h, _) => h in s.removes && s.removes[h].OperationsGone?
    case DeleteClusterRow(h, _) => h in s.removes && s.removes[h].ServersGone?
    case SoftDelete(c) => c in s.db.clusters
    case Poll(jobs) => s.watcher.Idle? && JobsOf(s.db, jobs)
    case SkipJob => s.watcher.Pass? && s.watcher.jobs != []
    case WriteOperation(status, _) => s.watcher.Pass? && s.watcher.jobs != [] && status != ""
    case WriteClusterStatus(_) => s.watcher.Between?
    case EndPass => s.watcher == Pass([])
    case AppendLog(o, line) => o in s.db.operations && FreeOf(IsNewline, line)
    case TakeSnapshot(w, c) => w !in s.workers && c in s.db.clusters
    case ReportReached(w, status, _) => w in s.workers && status in {HEALTHY, UNHEALTHY, DEGRADED}
    case ReportUnavailable(w, _) => w in s.workers && Reached(s.workers[w].flags)
  }

  /** The status write on a cluster that an action attempts, if any: cluster, status, flags, luck. */
  function StatusWrite(s: State, a: Action): Option<(int, string, Option<bv32>, bool)>
    requires Enabled(s, a)
  {
    match a
    case FailCluster(h, ok) => Some((s.creates[h].cluster, FAILED, None, ok))
    case WriteClusterStatus(ok) => Some((s.watcher.cluster, s.watcher.status, None, ok))
    case ReportReached(w, status, ok) =>
      Some((s.workers[w].cluster, status, Some(SetPatroniConnectStatus(s.workers[w].flags, 1)), ok))
    case ReportUnavailable(w, ok) => Some((s.workers[w].cluster, UNAVAILABLE, None, ok))
    case _ => None
  }

  /** The foreign keys: a cluster row goes only when no operation and no server refers to it. */
  predicate Referred(db: Db, c: int) {
    (exists o | o in db.operations :: db.operations[o].clusterId == c) || ServersOf(db, c) != map[]
  }

  /** The clusters table after an action. A status write fails by chance or where the row is gone. */
  function Clusters(s: State, a: Action): map<int, Cluster>
    requires Enabled(s, a)
  {
    match a
    case Create(_, existing) =>
      s.db.clusters[s.nextCluster := Cluster(if existing then READY else DEPLOYING, 0, 0, false, None)]
    case SoftDelete(c) => s.db.clusters[c := s.db.clusters[c].(deleted := true)]
    case DeleteClusterRow(h, ok) =>
      if ok && !Referred(s.db, s.removes[h].cluster) then s.db.clusters - {s.removes[h].cluster} else s.db.clusters
    case _ =>
      match StatusWrite(s, a)
      case Some((c, status, flags, true)) =>
        if c in s.db.clusters then UpdateCluster(s.db, c, Some(status), flags, None).value.clusters else s.db.clusters
      case _ => s.db.clusters
  }

  /** The insert of an operation: it can fail by chance, and fails where the cluster row is gone. */
  predicate Inserts(s: State, a: Action)
    requires Enabled(s, a)
  {
    a.CreateOperation? && a.ok && s.creates[a.handler].cluster in s.db.clusters
  }

  /** The operations table after an action. */
  function Operations(s: State, a: Action): map<int, Operation>
    requires Enabled(s, a)
  {
    match a
    case CreateOperation(h, ok) =>
      if Inserts(s, a)
      then s.db.operations[s.nextOperation := Operation(s.creates[h].cluster, IN_PROGRESS, None)]
      else s.db.operations
    case DeleteOperations(h, ok) =>
      if ok then
        map o | o in s.db.operations && s.db.operations[o].clusterId != s.removes[h].cluster :: s.db.operations[o]
      else s.db.operations
    case WriteOperation(status, ok) =>
      var written := UpdateOperation(s.db, s.watcher.jobs[0].operation, Some(status), None);
      if ok && written.Some? then written.value.operations else s.db.operations
    case AppendLog(o, line) => UpdateOperation(s.db, o, None, Some(line)).value.operations
    case _ => s.db.operations
  }

  function Servers(s: State, a: Action): map<int, map<string, Server>>
    requires Enabled(s, a)
  {
    if a.DeleteServers? && a.ok then s.db.servers - {s.removes[a.handler].cluster} else s.db.servers
  }

  function Lines(s: State, a: Action): map<int, seq<string>>
    requires Enabled(s, a)
  {
    match a
    case CreateOperation(_, _) => if Inserts(s, a) then s.lines[s.nextOperation := []] else s.lines
    case AppendLog(o, line) => s.lines[o := (if o in s.lines then s.lines[o] else []) + [line]]
    case _ => s.lines
  }

  /** Where the create handlers stand after an action. */
  function Creates(s: State, a: Action): map<int, Creating>
    requires Enabled(s, a)
  {
    match a
    case Create(h, existing) => s.creates[h := if existing then Returned else Created(s.nextCluster)]
    case StartContainer(h, ok) =>
      s.creates[h := if ok then Started(s.creates[h].cluster) else Failing(s.creates[h].cluster)]
    case CreateOperation(h, ok) =>
      s.creates[h := if Inserts(s, a) then Returned else Failing(s.creates[h].cluster)]
    case FailCluster(h, _) => s.creates[h := Returned]
    case _ => s.creates
  }

  /** Where the remove handlers stand after an action. */
  function Removes(s: State, a: Action): map<int, Removing>
    requires Enabled(s, a)
  {
    match a
    case BeginRemove(h, c) => s.removes[h := Begun(c)]
    case DeleteOperations(h, ok) => s.removes[h := if ok then OperationsGone(s.removes[h].cluster) else Gone]
    case DeleteServers(h, ok) => s.removes[h := if ok then ServersGone(s.removes[h].cluster) else Gone]
    case DeleteClusterRow(h, _) => s.removes[h := Gone]
    case _ => s.removes
  }

  /** Where the log watcher stands after an action. */
  function WatcherAfter(s: State, a: Action): Watcher
    requires Enabled(s, a)
  {
    match a
    case Poll(jobs) => Pass(jobs)
    case SkipJob => Pass(s.watcher.jobs[1..])
    case WriteOperation(status, _) =>
      Between(s.watcher.jobs[0].cluster, if status == FAILED then FAILED else READY, s.watcher.jobs[1..])
    case WriteClusterStatus(_) => Pass(s.watcher.jobs)
    case EndPass => Idle
    case _ => s.watcher
  }

  function Workers(s: State, a: Action): map<int, Worker>
    requires Enabled(s, a)
  {
    match a
    case TakeSnapshot(w, c) => s.workers[w := Worker(c, s.db.clusters[c].flags)]
    case ReportReached(w, _, _) => s.workers - {w}
    case ReportUnavailable(w, _) => s.workers - {w}
    case _ => s.workers
  }

  /** The clusters whose create handler or log watcher could not write the status it owed them. */
  function Lost(s: State, a: Action): set<int>
    requires Enabled(s, a)
  {
    match a
    case FailCluster(h, ok) => if ok then s.lost else s.lost + {s.creates[h].cluster}
    case WriteClusterStatus(ok) => if ok then s.lost else s.lost + {s.watcher.cluster}
    case _ => s.lost
  }

  function Do(s: State, a: Action): State
    requires Enabled(s, a)
  {
    State(Db(Clusters(s, a), Servers(s, a), Operations(s, a)),
          Creates(s, a), Removes(s, a), WatcherAfter(s, a), Workers(s, a),
          if a.Create? then s.nextCluster + 1 else s.nextCluster,
          if Inserts(s, a) then s.nextOperation + 1 else s.nextOperation,
          if a.DeleteOperations? && a.ok then s.begun + {s.removes[a.handler].cluster} else s.begun,
          Lost(s, a), Lines(s, a))
  }

  // ---------- Runs ----------

  /** The actions can be taken one after the other. */
  predicate Runs(s: State, run: seq<Action>)
    decreases |run|
  {
    run == [] || (Enabled(s, run[0]) && Runs(Do(s, run[0]), run[1..]))
  }

  function After(s: State, run: seq<Action>): State
    requires Runs(s, run)
    decreases |run|
  {
    if run == [] then s else After(Do(s, run[0]), run[1..])
  }

  // ---------- The invariant ----------

  /** An operation of the cluster is in progress. */
  predicate Running(db: Db, o: int, c: int) {
    o in db.operations && db.operations[o].clusterId == c && db.operations[o].status == IN_PROGRESS
  }

  /** Why a cluster may be deploying: its create handler is at work, an operation is in progress,
      the log watcher is between its two writes, its removal has begun, or one of the two could not
      write its status. */
  ghost predicate Accounted(s: State, c: int) {
    || (exists h :: h in s.creates && !s.creates[h].Returned? && s.creates[h].cluster == c)
    || (exists o :: Running(s.db, o, c))
    || (s.watcher.Between? && s.watcher.cluster == c)
    || c in s.begun
    || c in s.lost
  }

  ghost predicate NoOrphan(s: State) {
    forall c | c in s.db.clusters && s.db.clusters[c].status == DEPLOYING :: Accounted(s, c)
  }

  predicate FreshIds(s: State) {
    && (forall c | c in s.db.clusters :: c < s.nextCluster)
    && (forall o | o in s.db.operations :: o < s.nextOperation)
    && (forall w | w in s.workers :: s.workers[w].cluster < s.nextCluster)
    && (s.watcher.Between? ==> s.watcher.status == FAILED || s.watcher.status == READY)
  }

  function JobsLeft(s: State): seq<Job> {
    if s.watcher.Idle? then [] else s.watcher.jobs
  }

  /** What the log watcher has still to do is in progress, or was deleted meanwhile. */
  predicate JobsInProgress(s: State) {
    var jobs := JobsLeft(s);
    && (forall i | 0 <= i < |jobs| ::
          && jobs[i].operation < s.nextOperation
          && (jobs[i].operation in s.db.operations ==>
                s.db.operations[jobs[i].operation].status == IN_PROGRESS
                && s.db.operations[jobs[i].operation].clusterId == jobs[i].cluster))
    && (forall i, j | 0 <= i < j < |jobs| :: jobs[i].operation != jobs[j].operation)
  }

  /** A cluster is called unavailable only if it was reached before; so too in stale snapshots. */
  predicate UnavailableWasReached(s: State) {
    && (forall c | c in s.db.clusters && s.db.clusters[c].status == UNAVAILABLE :: Reached(s.db.clusters[c].flags))
    && (forall w | w in s.workers && Reached(s.workers[w].flags) && s.workers[w].cluster in s.db.clusters ::
          Reached(s.db.clusters[s.workers[w].cluster].flags))
  }

  /** The log text of an operation to which lines were appended. */
  function LogText(lines: seq<string>): Option<string> {
    if lines == [] then None else Some(Coalesce(LogText(lines[..|lines| - 1]), "") + "\n" + lines[|lines| - 1])
  }

  predicate LogsHoldLines(s: State) {
    forall o | o in s.db.operations ::
      o in s.lines && s.db.operations[o].log == LogText(s.lines[o])
      && forall i | 0 <= i < |s.lines[o]| :: FreeOf(IsNewline, s.lines[o][i])
  }

  ghost predicate Inv(s: State) {
    FreshIds(s) && JobsInProgress(s) && NoOrphan(s) && UnavailableWasReached(s) && LogsHoldLines(s)
  }

  lemma ReachedAfterSet(flags: bv32)
    ensures Reached(SetPatroniConnectStatus(flags, 1))
  {
  }

  lemma InitInv()
    ensures Inv(INIT)
  {
  }

  lemma FreshIdsKept(s: State, a: Action)
    requires FreshIds(s) && Enabled(s, a)
    ensures FreshIds(Do(s, a))
  {
    var s' := Do(s, a);
    assert forall c | c in s'.db.clusters :: c in s.db.clusters || (a.Create? && c == s.nextCluster);
    assert forall o | o in s'.db.operations :: o in s.db.operations || (a.CreateOperation? && o == s.nextOperation);
    assert forall w | w in s'.workers :: w in s.workers || (a.TakeSnapshot? && w == a.worker);
  }

  lemma JobsKept(s: State, a: Action)
    requires FreshIds(s) && JobsInProgress(s) && Enabled(s, a)
    ensures JobsInProgress(Do(s, a))
  {
  }

  /** Bit 0 is never cleared in the table, and a status of unavailable comes with it. */
  lemma ClusterKept(s: State, a: Action, c: int)
    requires FreshIds(s) && UnavailableWasReached(s) && Enabled(s, a) && c in Do(s, a).db.clusters
    ensures var row := Do(s, a).db.clusters[c];
            if c in s.db.clusters then
              && (Reached(s.db.clusters[c].flags) ==> Reached(row.flags))
              && (row.status == UNAVAILABLE ==> Reached(row.flags))
              && (s.db.clusters[c].status != DEPLOYING ==> row.status != DEPLOYING)
            else a.Create? && c == s.nextCluster && row.status != UNAVAILABLE
  {
    if a.ReportReached? {
      ReachedAfterSet(s.workers[a.worker].flags);
    }
  }

  lemma UnavailableKept(s: State, a: Action)
    requires FreshIds(s) && UnavailableWasReached(s) && Enabled(s, a)
    ensures UnavailableWasReached(Do(s, a))
  {
    var s' := Do(s, a);
    forall c | c in s'.db.clusters && s'.db.clusters[c].status == UNAVAILABLE ensures Reached(s'.db.clusters[c].flags) {
      ClusterKept(s, a, c);
    }
    forall w | w in s'.workers && Reached(s'.workers[w].flags) && s'.workers[w].cluster in s'.db.clusters
      ensures Reached(s'.db.clusters[s'.workers[w].cluster].flags)
    {
      ClusterKept(s, a, s'.workers[w].cluster);
    }
  }

  lemma LogsKept(s: State, a: Action)
    requires FreshIds(s) && LogsHoldLines(s) && Enabled(s, a)
    ensures LogsHoldLines(Do(s, a))
  {
    if a.AppendLog? {
      var lines := s.lines[a.operation] + [a.line];
      assert lines[..|lines| - 1] == s.lines[a.operation];
    }
  }

  lemma AccountedKept(s: State, a: Action, c: int)
    requires Inv(s) && Enabled(s, a)
    requires c in Do(s, a).db.clusters && Do(s, a).db.clusters[c].status == DEPLOYING
    ensures Accounted(Do(s, a), c)
  {
    var s' := Do(s, a);
    ClusterKept(s, a, c);
    if c !in s.db.clusters {
      assert s'.creates[a.handler].cluster == c;
    } else if h :| h in s.creates && !s.creates[h].Returned? && s.creates[h].cluster == c {
      HandlerKept(s, a, c, h);
    } else if o :| Running(s.db, o, c) {
      OperationKept(s, a, c, o);
    }
  }

  lemma HandlerKept(s: State, a: Action, c: int, h: int)
    requires Inv(s) && Enabled(s, a) && h in s.creates && !s.creates[h].Returned? && s.creates[h].cluster == c
    requires c in s.db.clusters && c in Do(s, a).db.clusters && Do(s, a).db.clusters[c].status == DEPLOYING
    ensures Accounted(Do(s, a), c)
  {
    var s' := Do(s, a);
    if a.CreateOperation? && a.handler == h && a.ok {
      assert Running(s'.db, s.nextOperation, c);
    } else if a.FailCluster? && a.handler == h {
      assert c in s'.lost;
    } else {
      assert h in s'.creates && !s'.creates[h].Returned? && s'.creates[h].cluster == c;
    }
  }

  lemma OperationKept(s: State, a: Action, c: int, o: int)
    requires Inv(s) && Enabled(s, a)
    requires Running(s.db, o, c)
    ensures Accounted(Do(s, a), c)
  {
    var s' := Do(s, a);
    if a.WriteOperation? && s.watcher.jobs[0].operation == o {
      assert JobsLeft(s)[0] == s.watcher.jobs[0];
      assert s'.watcher.Between? && s'.watcher.cluster == c;
    } else if a.DeleteOperations? && a.ok && s.removes[a.handler].cluster == c {
      assert c in s'.begun;
    } else {
      assert Running(s'.db, o, c);
    }
  }

  lemma InvKept(s: State, a: Action)
    requires Inv(s) && Enabled(s, a)
    ensures Inv(Do(s, a))
  {
    FreshIdsKept(s, a);
    JobsKept(s, a);
    UnavailableKept(s, a);
    LogsKept(s, a);
    forall c | c in Do(s, a).db.clusters && Do(s, a).db.clusters[c].status == DEPLOYING ensures Accounted(Do(s, a), c) {
      AccountedKept(s, a, c);
    }
  }

  // ---------- What a run keeps ----------

  predicate Terminal(status: string) {
    status == SUCCESS || status == FAILED
  }

  /** What can be seen of an earlier state in every later one: a cluster that has left `deploying`
      is never deploying again, a reached cluster stays reached, a terminal operation status is
      final, an operation belongs to its cluster, and the lines stored so far stay, in order. */
  ghost predicate Later(s: State, t: State) {
    && s.nextCluster <= t.nextCluster && s.nextOperation <= t.nextOperation
    && (forall c | c in t.db.clusters && c < s.nextCluster ::
          c in s.db.clusters
          && (s.db.clusters[c].status != DEPLOYING ==> t.db.clusters[c].status != DEPLOYING)
          && (Reached(s.db.clusters[c].flags) ==> Reached(t.db.clusters[c].flags)))
    && (forall o | o in t.db.operations && o < s.nextOperation ::
          o in s.db.operations && t.db.operations[o].clusterId == s.db.operations[o].clusterId
          && (Terminal(s.db.operations[o].status) ==> t.db.operations[o].status == s.db.operations[o].status)
          && o in s.lines && o in t.lines && s.lines[o] <= t.lines[o])
  }

  lemma StepKeepsClusters(s: State, a: Action)
    requires Inv(s) && Enabled(s, a)
    ensures var t := Do(s, a);
            forall c | c in t.db.clusters && c < s.nextCluster ::
              c in s.db.clusters
              && (s.db.clusters[c].status != DEPLOYING ==> t.db.clusters[c].status != DEPLOYING)
              && (Reached(s.db.clusters[c].flags) ==> Reached(t.db.clusters[c].flags))
  {
    forall c | c in Do(s, a).db.clusters && c < s.nextCluster
      ensures c in s.db.clusters
      ensures s.db.clusters[c].status != DEPLOYING ==> Do(s, a).db.clusters[c].status != DEPLOYING
      ensures Reached(s.db.clusters[c].flags) ==> Reached(Do(s, a).db.clusters[c].flags)
    {
      ClusterKept(s, a, c);
    }
  }

  lemma StepKeepsOperations(s: State, a: Action, o: int)
    requires Inv(s) && Enabled(s, a) && o in Do(s, a).db.operations && o < s.nextOperation
    ensures var t := Do(s, a);
            && o in s.db.operations && t.db.operations[o].clusterId == s.db.operations[o].clusterId
            && (Terminal(s.db.operations[o].status) ==> t.db.operations[o].status == s.db.operations[o].status)
            && o in s.lines && o in t.lines && s.lines[o] <= t.lines[o]
  {
    assert o in s.db.operations && o in s.lines;
    if a.AppendLog? && a.operation == o {
      assert Do(s, a).lines[o] == s.lines[o] + [a.line];
    } else {
      assert Do(s, a).lines[o] == s.lines[o];
    }
    if a.WriteOperation? && s.watcher.jobs[0].operation == o {
      assert JobsLeft(s)[0] == s.watcher.jobs[0];
      assert s.db.operations[o].status == IN_PROGRESS;
    }
  }

  lemma StepIsLater(s: State, a: Action)
    requires Inv(s) && Enabled(s, a)
    ensures Later(s, Do(s, a))
  {
    StepKeepsClusters(s, a);
    forall o | o in Do(s, a).db.operations && o < s.nextOperation
      ensures o in s.db.operations && Do(s, a).db.operations[o].clusterId == s.db.operations[o].clusterId
      ensures Terminal(s.db.operations[o].status) ==> Do(s, a).db.operations[o].status == s.db.operations[o].status
      ensures o in s.lines && o in Do(s, a).lines && s.lines[o] <= Do(s, a).lines[o]
    {
      StepKeepsOperations(s, a, o);
    }
  }

  lemma {:induction false} RunInv(s: State, run: seq<Action>)
    requires Inv(s) && Runs(s, run)
    ensures Inv(After(s, run)) && Later(s, After(s, run))
    decreases |run|
  {
    if run != [] {
      var t := Do(s, run[0]);
      InvKept(s, run[0]);
      StepIsLater(s, run[0]);
      RunInv(t, run[1..]);
      LaterIsTransitive(s, t, After(t, run[1..]));
    }
  }

  lemma LaterIsTransitive(s: State, t: State, u: State)
    requires Later(s, t) && Later(t, u)
    ensures Later(s, u)
  {
  }

  lemma {:induction false} RunsCompose(s: State, run: seq<Action>, more: seq<Action>)
    requires Runs(s, run + more)
    ensures Runs(s, run) && Runs(After(s, run), more) && After(After(s, run), more) == After(s, run + more)
    decreases |run|
  {
    if run == [] {
      assert run + more == more;
    } else {
      assert (run + more)[0] == run[0] && (run + more)[1..] == run[1..] + more;
      RunsCompose(Do(s, run[0]), run[1..], more);
    }
  }

  // ---------- The theorems ----------

  /** In every reachable state, under every interleaving, a deploying cluster is accounted for. */
  lemma NoOrphanedDeployment(run: seq<Action>, c: int)
    requires Runs(INIT, run)
    requires var s := After(INIT, run); c in s.db.clusters && s.db.clusters[c].status == DEPLOYING
    ensures Accounted(After(INIT, run), c)
  {
    InitInv();
    RunInv(INIT, run);
  }

  /** In every reachable state a cluster that is unavailable was reached before. */
  lemma UnavailableImpliesReached(run: seq<Action>, c: int)
    requires Runs(INIT, run)
    requires var s := After(INIT, run); c in s.db.clusters && s.db.clusters[c].status == UNAVAILABLE
    ensures GetPatroniConnectStatus(After(INIT, run).db.clusters[c].flags) == 1
  {
    InitInv();
    RunInv(INIT, run);
  }

  /** Between any two states of any run: what the earlier has decided, the later keeps. */
  lemma DecisionsAreFinal(run: seq<Action>, more: seq<Action>)
    requires Runs(INIT, run + more)
    ensures Runs(INIT, run) && Later(After(INIT, run), After(INIT, run + more))
  {
    InitInv();
    RunsCompose(INIT, run, more);
    RunInv(INIT, run);
    RunInv(After(INIT, run), more);
  }

  /** Status writes never touch a log, and log writes never touch a status. */
  lemma WritesAreSeparate(s: State, a: Action, o: int)
    requires Inv(s) && Enabled(s, a) && o in s.db.operations && o in Do(s, a).db.operations
    ensures !a.AppendLog? ==> Do(s, a).db.operations[o].log == s.db.operations[o].log
    ensures !a.WriteOperation? ==> Do(s, a).db.operations[o].status == s.db.operations[o].status
  {
  }

  lemma {:induction false} LogTextIsJoined(lines: seq<string>)
    requires lines != []
    ensures LogText(lines) == Some("\n" + Join(lines, '\n'))
    decreases |lines|
  {
    var front, last := lines[..|lines| - 1], lines[|lines| - 1];
    if front == [] {
      assert lines == [last];
      assert "" + "\n" + last == "\n" + Join(lines, '\n');
    } else {
      LogTextIsJoined(front);
      JoinGrows(front, last, '\n');
      assert front + [last] == lines;
      var joined := Join(front, '\n');
      assert ("\n" + joined) + "\n" + last == "\n" + (joined + "\n" + last);
    }
  }

  /** In every reachable state, splitting the stored log at line feeds and dropping the first,
      empty piece gives the lines that were stored, in order. */
  lemma LogReadsBack(run: seq<Action>, o: int)
    requires Runs(INIT, run) && o in After(INIT, run).db.operations
    ensures var s := After(INIT, run);
            o in s.lines &&
            match s.db.operations[o].log
            case None => s.lines[o] == []
            case Some(text) =>
              var pieces := Split(IsNewline, text);
              pieces[0] == "" && pieces[1..] == s.lines[o]
  {
    InitInv();
    RunInv(INIT, run);
    LogHolds(After(INIT, run), o);
  }

  lemma LogHolds(s: State, o: int)
    requires LogsHoldLines(s) && o in s.db.operations
    ensures o in s.lines &&
            match s.db.operations[o].log
            case None => s.lines[o] == []
            case Some(text) =>
              var pieces := Split(IsNewline, text);
              pieces[0] == "" && pieces[1..] == s.lines[o]
  {
    LogSplits(s.lines[o]);
  }

  lemma LogSplits(lines: seq<string>)
    requires forall i | 0 <= i < |lines| :: FreeOf(IsNewline, lines[i])
    ensures match LogText(lines)
            case None => lines == []
            case Some(text) =>
              var pieces := Split(IsNewline, text);
              pieces[0] == "" && pieces[1..] == lines
  {
    if lines != [] {
      LogTextIsJoined(lines);
      SplitJoin(IsNewline, lines, '\n');
      SplitAfterNewline(Join(lines, '\n'));
    }
  }

  lemma SplitAfterNewline(text: string)
    ensures Split(IsNewline, "\n" + text) == [""] + Split(IsNewline, text)
  {
    SplitFirst(IsNewline, "", '\n', text);
    assert "" + (['\n'] + text) == "\n" + text;
  }

  /** A create handler or the log watcher is at work on the cluster. */
  ghost predicate Attended(s: State, c: int) {
    || (exists h :: h in s.creates && !s.creates[h].Returned? && s.creates[h].cluster == c)
    || (s.watcher.Between? && s.watcher.cluster == c)
  }

  /** A remove handler other than h is at work on the cluster. */
  ghost predicate OtherRemoval(s: State, c: int, h: int) {
    exists g :: g in s.removes && g != h && !s.removes[g].Gone? && s.removes[g].cluster == c
  }

  /** An orphan: deploying, with no operation in progress and nobody at work on it. */
  ghost predicate Orphaned(s: State, c: int) {
    && c in s.db.clusters && s.db.clusters[c].status == DEPLOYING && !Attended(s, c)
    && (forall o :: !Running(s.db, o, c))
    && (forall h | h in s.removes && !s.removes[h].Gone? :: s.removes[h].cluster != c)
  }

  /** A failed status write leaves an orphan, without any removal. */
  lemma LostWriteOrphans() returns (run: seq<Action>)
    ensures Runs(INIT, run)
    ensures var s := After(INIT, run); Orphaned(s, 0) && s.begun == {} && s.db.operations == map[]
  {
    run := [Create(0, false)] + ([StartContainer(0, false)] + ([FailCluster(0, false)] + []));
    var s1 := Do(INIT, Create(0, false));
    var s2 := Do(s1, StartContainer(0, false));
    RunOne(s2, FailCluster(0, false), []);
    RunOne(s1, StartContainer(0, false), [FailCluster(0, false)] + []);
    RunOne(INIT, Create(0, false), [StartContainer(0, false)] + ([FailCluster(0, false)] + []));
  }

  /** The two statements of a removal of which the second fails. */
  function HalfRemoval(h: int): seq<Action> {
    [DeleteOperations(h, true)] + ([DeleteServers(h, false)] + [])
  }

  /** So does a removal that fails after its first statement, without any failed status write:
      a cluster is created, its operation begins, and the removal comes half-way. */
  lemma HalfRemovalOrphans() returns (run: seq<Action>)
    ensures Runs(INIT, run)
    ensures var s := After(INIT, run); Orphaned(s, 0) && s.lost == {} && s.db.operations == map[]
  {
    var s1 := Do(INIT, Create(0, false));
    var s2 := Do(s1, StartContainer(0, true));
    var s3 := Do(s2, CreateOperation(0, true));
    var rest := RemovalOfStarted(s3, 1);
    RunOne(s2, CreateOperation(0, true), rest);
    RunOne(s1, StartContainer(0, true), [CreateOperation(0, true)] + rest);
    RunOne(INIT, Create(0, false), [StartContainer(0, true)] + ([CreateOperation(0, true)] + rest));
    run := [Create(0, false)] + ([StartContainer(0, true)] + ([CreateOperation(0, true)] + rest));
  }

  lemma RemovalOfStarted(s: State, h: int) returns (run: seq<Action>)
    requires s.creates == map[0 := Returned] && s.removes == map[] && s.watcher.Idle? && s.lost == {}
    requires 0 in s.db.clusters && s.db.clusters[0].status == DEPLOYING
    requires s.db.operations == map[0 := Operation(0, IN_PROGRESS, None)]
    ensures Runs(s, run)
    ensures var t := After(s, run); Orphaned(t, 0) && t.lost == {} && t.db.operations == map[]
  {
    var begun := Do(s, BeginRemove(h, 0));
    HalfRemovalFrom(begun, h);
    RunOne(s, BeginRemove(h, 0), HalfRemoval(h));
    run := [BeginRemove(h, 0)] + HalfRemoval(h);
    NoOperationLeft(begun.db.operations, After(s, run).db.operations);
  }

  lemma NoOperationLeft(before: map<int, Operation>, after: map<int, Operation>)
    requires before == map[0 := Operation(0, IN_PROGRESS, None)]
    requires forall o :: o in after <==> o in before && before[o].clusterId != 0
    ensures after == map[]
  {
    assert 0 in before && before[0].clusterId == 0;
    assert forall o :: o !in after;
    assert after.Keys == {};
  }

  /** From any state: such a removal of a deploying cluster leaves an orphan exactly if no create
      handler, no other removal and not the log watcher is at work on the cluster. */
  lemma HalfRemovalFrom(s: State, h: int)
    requires h in s.removes && s.removes[h].Begun?
    requires var c := s.removes[h].cluster; c in s.db.clusters && s.db.clusters[c].status == DEPLOYING
    ensures Runs(s, HalfRemoval(h))
    ensures var c, t := s.removes[h].cluster, After(s, HalfRemoval(h));
            && t.removes == s.removes[h := Gone] && t.creates == s.creates && t.watcher == s.watcher && t.lost == s.lost
            && (forall o :: o in t.db.operations <==> o in s.db.operations && s.db.operations[o].clusterId != c)
            && (Orphaned(t, c) <==> !Attended(s, c) && !OtherRemoval(s, c, h))
  {
    var c, t := s.removes[h].cluster, Do(s, DeleteOperations(h, true));
    RunOne(t, DeleteServers(h, false), []);
    RunOne(s, DeleteOperations(h, true), [DeleteServers(h, false)] + []);
    var u := After(s, HalfRemoval(h));
    assert u.removes == s.removes[h := Gone];
    HalfRemovalAttended(s, u, c, h);
  }

  lemma HalfRemovalAttended(s: State, t: State, c: int, h: int)
    requires h in s.removes && t.removes == s.removes[h := Gone] && t.creates == s.creates && t.watcher == s.watcher
    requires c in t.db.clusters && t.db.clusters[c].status == DEPLOYING
    requires forall o | o in t.db.operations :: t.db.operations[o].clusterId != c
    ensures Orphaned(t, c) <==> !Attended(s, c) && !OtherRemoval(s, c, h)
  {
    assert Attended(t, c) <==> Attended(s, c);
    forall g | g in s.removes && g != h ensures t.removes[g] == s.removes[g] {
    }
    if !OtherRemoval(s, c, h) {
      forall g | g in t.removes && !t.removes[g].Gone? ensures t.removes[g].cluster != c {
        assert g != h;
      }
    }
  }

  lemma RunOne(s: State, a: Action, run: seq<Action>)
    requires Enabled(s, a) && Runs(Do(s, a), run)
    ensures Runs(s, [a] + run) && After(s, [a] + run) == After(Do(s, a), run)
  {
    assert ([a] + run)[1..] == run;
  }

  // ---------- What each process does when nobody comes between ----------

  function TwoSteps(a: Action, b: Action): seq<Action> {
    [a] + ([b] + [])
  }

  lemma RunTwo(s: State, a: Action, b: Action)
    requires Enabled(s, a) && Enabled(Do(s, a), b)
    ensures Runs(s, TwoSteps(a, b)) && After(s, TwoSteps(a, b)) == Do(Do(s, a), b)
  {
    RunOne(Do(s, a), b, []);
    RunOne(s, a, [b] + []);
  }

  /** A create handler that gets through: its cluster is deploying with an operation in progress. One for
      a cluster that exists already leaves a ready cluster and no operation. */
  lemma CreationSucceeds(s: State, h: int)
    requires h !in s.creates
    ensures var c, o, run := s.nextCluster, s.nextOperation, [Create(h, false)] +
                             TwoSteps(StartContainer(h, true), CreateOperation(h, true));
            Runs(s, run) &&
            var t := After(s, run);
            && t.db == Db(s.db.clusters[c := Cluster("deploying", 0, 0, false, None)], s.db.servers,
                          s.db.operations[o := Operation(c, "in_progress", None)])
            && t.creates == s.creates[h := Returned]
    ensures var t := Do(s, Create(h, true));
            && t.db == s.db.(clusters := s.db.clusters[s.nextCluster := Cluster("ready", 0, 0, false, None)])
            && t.creates == s.creates[h := Returned]
  {
    var t := Do(s, Create(h, false));
    RunTwo(t, StartContainer(h, true), CreateOperation(h, true));
    RunOne(s, Create(h, false), TwoSteps(StartContainer(h, true), CreateOperation(h, true)));
  }

  /** A create handler whose container does not start, or whose operation is not stored, fails its
      cluster, and writes nothing else. */
  lemma CreationFails(s: State, h: int)
    requires h in s.creates && (s.creates[h].Created? || s.creates[h].Started?)
    requires s.creates[h].cluster in s.db.clusters
    ensures var step := if s.creates[h].Created? then StartContainer(h, false) else CreateOperation(h, false);
            var c, run := s.creates[h].cluster, TwoSteps(step, FailCluster(h, true));
            Runs(s, run) &&
            var t := After(s, run);
            && t.db == s.db.(clusters := s.db.clusters[c := s.db.clusters[c].(status := "failed")])
            && t.creates == s.creates[h := Returned]
  {
    RunTwo(s, if s.creates[h].Created? then StartContainer(h, false) else CreateOperation(h, false),
           FailCluster(h, true));
  }

  /** The log watcher on the first of its jobs: the operation gets the status of its container, and the
      cluster is failed if that is "failed", and ready if not. */
  lemma JobConcludes(s: State, status: string)
    requires s.watcher.Pass? && s.watcher.jobs != [] && (status == SUCCESS || status == FAILED)
    requires s.watcher.jobs[0].operation in s.db.operations && s.watcher.jobs[0].cluster in s.db.clusters
    ensures var o, c := s.watcher.jobs[0].operation, s.watcher.jobs[0].cluster;
            var run := TwoSteps(WriteOperation(status, true), WriteClusterStatus(true));
            Runs(s, run) &&
            var t := After(s, run);
            && t.db.operations == s.db.operations[o := s.db.operations[o].(status := status)]
            && t.db.clusters == s.db.clusters[c := s.db.clusters[c].(status :=
                                                     if status == "failed" then "failed" else "ready")]
            && t.db.servers == s.db.servers && t.watcher == Pass(s.watcher.jobs[1..])
  {
    RunTwo(s, WriteOperation(status, true), WriteClusterStatus(true));
  }

  /** A worker writes the status it has judged and marks the cluster as reached, over the flags of its
      snapshot; or it writes "unavailable" alone, only where the snapshot was reached. */
  lemma WorkerReports(s: State, w: int, status: string)
    requires w in s.workers && s.workers[w].cluster in s.db.clusters
    ensures Enabled(s, ReportUnavailable(w, true)) <==> s.workers[w].flags & 0x1 == 1
    ensures Enabled(s, ReportUnavailable(w, true)) ==>
              var c, t := s.workers[w].cluster, Do(s, ReportUnavailable(w, true));
              t.db == s.db.(clusters := s.db.clusters[c := s.db.clusters[c].(status := "unavailable")])
    ensures Enabled(s, ReportReached(w, status, true)) ==>
              var c, t := s.workers[w].cluster, Do(s, ReportReached(w, status, true));
              var flags := SetPatroniConnectStatus(s.workers[w].flags, 1);
              t.db == s.db.(clusters := s.db.clusters[c := s.db.clusters[c].(status := status, flags := flags)])
  {
  }

  /** A worker's snapshot is the row it finds; a soft deletion marks the row and no more; and a cluster row
      goes neither while an operation refers to it nor while a server does. */
  lemma SingleSteps(s: State, w: int, c: int, h: int, o: int)
    requires c in s.db.clusters
    ensures w !in s.workers ==>
              var t := Do(s, TakeSnapshot(w, c));
              t.db == s.db && t.workers == s.workers[w := Worker(c, s.db.clusters[c].flags)]
    ensures Do(s, SoftDelete(c)).db == s.db.(clusters := s.db.clusters[c := s.db.clusters[c].(deleted := true)])
    ensures h in s.removes && s.removes[h] == ServersGone(c)
            && ((o in s.db.operations && s.db.operations[o].clusterId == c) || ServersOf(s.db, c) != map[]) ==>
              Do(s, DeleteClusterRow(h, true)).db == s.db
  {
  }

  /** A removal that gets through takes the cluster, its operations and its servers, and nothing else. */
  lemma RemovalRemoves(s: State, h: int)
    requires h in s.removes && s.removes[h].Begun?
    ensures var c, run := s.removes[h].cluster, [DeleteOperations(h, true)] +
                          TwoSteps(DeleteServers(h, true), DeleteClusterRow(h, true));
            Runs(s, run) &&
            var t := After(s, run);
            && t.db.clusters == s.db.clusters - {c} && t.db.servers == s.db.servers - {c}
            && (forall o :: o in t.db.operations <==> o in s.db.operations && s.db.operations[o].clusterId != c)
            && (forall o | o in t.db.operations :: t.db.operations[o] == s.db.operations[o])
  {
    var t := Do(s, DeleteOperations(h, true));
    assert !Referred(Do(t, DeleteServers(h, true)).db, s.removes[h].cluster);
    RunTwo(t, DeleteServers(h, true), DeleteClusterRow(h, true));
    RunOne(s, DeleteOperations(h, true), TwoSteps(DeleteServers(h, true), DeleteClusterRow(h, true)));
  }
}
