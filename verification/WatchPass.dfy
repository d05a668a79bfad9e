/**
 One pass of the cluster watcher over all projects, as an interleaved system: the dispatching
 loop reads pages of a hundred clusters and starts a handler for each row under a weighted
 semaphore; handlers write the rows that are being paged, and clusters may be inserted and
 deleted, at any time. No statement fails and the pass is not cancelled.
 */
module WatchPass {
  import opened Paging

  const LIMIT: nat := 100

  /** The columns that paging filters and orders by; what handlers write is the rest. */
  datatype Row = Row(id: int, project: int, live: bool, rest: string)

  predicate Ordered(table: seq<Row>) {
    forall i, j | 0 <= i < j < |table| :: table[i].id < table[j].id
  }

  /** `select ... where project_id = p and deleted_at is null order by cluster_id`. */
  function Live(table: seq<Row>, p: int): seq<int> {
    if table == [] then [] else
      var last := table[|table| - 1];
      Live(table[..|table| - 1], p) + if last.project == p && last.live then [last.id] else []
  }

  /** Where the dispatching goroutine stands. */
  datatype Dispatcher =
    | Query(offset: nat)                              // at the head of the loop of one project
    | Spawn(offset: nat, page: seq<int>, k: nat)      // before acquiring for page[k]
    | Acquired(offset: nat, page: seq<int>, k: nat)   // before starting the handler of page[k]
    | Waiting                                         // before the final acquire of the whole pool
    | Done

  /** `running` handlers are at work, `ending` ones have returned and not yet released. */
  datatype State = State(
    table: seq<Row>, projects: seq<int>, at: nat, dispatcher: Dispatcher,
    pool: nat, held: nat, running: multiset<int>, ending: nat, handled: multiset<int>)

  datatype Action =
    | ReadPage
    | Acquire
    | Start
    | FinalAcquire
    | HandlerWrites(id: int, rest: string)
    | HandlerReturns(id: int)
    | Release
    | InsertCluster(id: int, project: int)
    | DeleteCluster(id: int)

  /** The identifier is in use, or was: deleted rows keep theirs. */
  predicate Known(s: State, id: int) {
    Used(s.table, id)
  }

  predicate Used(table: seq<Row>, id: int) {
    exists i :: 0 <= i < |table| && table[i].id == id
  }

  predicate Enabled(s: State, a: Action) {
    match a
    case ReadPage => s.dispatcher.Query? && s.at < |s.projects|
    case Acquire => s.dispatcher.Spawn? && s.dispatcher.k < |s.dispatcher.page| && s.held < s.pool
    case Start => s.dispatcher.Acquired? && s.dispatcher.k < |s.dispatcher.page|
    case FinalAcquire => s.dispatcher.Waiting? && s.held == 0
    case HandlerWrites(id, _) => id in s.running
    case HandlerReturns(id) => id in s.running
    case Release => s.ending > 0 && s.held > 0
    case InsertCluster(id, _) => !Known(s, id)
    case DeleteCluster(_) => true
  }

  /** After a page is exhausted the loop goes on to the next offset. */
  function NextRow(offset: nat, page: seq<int>, k: nat): Dispatcher {
    if k < |page| then Spawn(offset, page, k) else Query(offset + LIMIT)
  }

  function WriteRow(table: seq<Row>, id: int, rest: string): seq<Row> {
    seq(|table|, i requires 0 <= i < |table| => if table[i].id == id then table[i].(rest := rest) else table[i])
  }

  /** A deletion, soft or not, takes the row out of every list. */
  function DeleteRow(table: seq<Row>, id: int): seq<Row> {
    seq(|table|, i requires 0 <= i < |table| => if table[i].id == id then table[i].(live := false) else table[i])
  }

  /** An insert, which may come with a lower identifier than rows that are there: a sequence hands
      them out in order, but transactions commit in any. */
  function InsertRow(table: seq<Row>, row: Row): seq<Row> {
    if table == [] || table[|table| - 1].id < row.id then table + [row]
    else InsertRow(table[..|table| - 1], row) + [table[|table| - 1]]
  }

  function Do(s: State, a: Action): State
    requires Enabled(s, a)
  {
    match a
    case ReadPage =>
      var page := Page(Live(s.table, s.projects[s.at]), LIMIT, s.dispatcher.offset);
      if page != [] then s.(dispatcher := Spawn(s.dispatcher.offset, page, 0))
      else s.(at := s.at + 1, dispatcher := if s.at + 1 < |s.projects| then Query(0) else Waiting)
    case Acquire =>
      s.(held := s.held + 1, dispatcher := Acquired(s.dispatcher.offset, s.dispatcher.page, s.dispatcher.k))
    case Start =>
      var id := s.dispatcher.page[s.dispatcher.k];
      s.(running := s.running + multiset{id}, handled := s.handled + multiset{id},
         dispatcher := NextRow(s.dispatcher.offset, s.dispatcher.page, s.dispatcher.k + 1))
    case FinalAcquire => s.(held := s.pool, dispatcher := Done)
    case HandlerWrites(id, rest) => s.(table := WriteRow(s.table, id, rest))
    case HandlerReturns(id) => s.(running := s.running - multiset{id}, ending := s.ending + 1)
    case Release => s.(held := s.held - 1, ending := s.ending - 1)
    case InsertCluster(id, project) => s.(table := InsertRow(s.table, Row(id, project, true, "deploying")))
    case DeleteCluster(id) => s.(table := DeleteRow(s.table, id))
  }

  predicate Runs(s: State, run: seq<Action>)
    decreases |run|
  {
    run == [] || (Enabled(s, run[0]) && Runs(Do(s, run[0]), run[1..]))
  }

  function After(s: State, run: seq<Action>): State
    requires Runs(s, run)
    decreases |run|
  {
    if run == [] then s else After(Do(s, run[0]), run[1..])
  }

  /** The start of a pass: the projects are listed, the semaphore is new, nothing runs. */
  predicate Begins(s: State) {
    && Ordered(s.table) && (forall i, j | 0 <= i < j < |s.projects| :: s.projects[i] != s.projects[j])
    && s.at == 0 && s.dispatcher == (if s.projects == [] then Waiting else Query(0))
    && s.held == 0 && s.running == multiset{} && s.ending == 0 && s.handled == multiset{}
  }

  // ---------- Paging under writes ----------

  lemma {:induction false} LiveIgnoresWrites(table: seq<Row>, id: int, rest: string, p: int)
    ensures Live(WriteRow(table, id, rest), p) == Live(table, p)
    ensures Ordered(table) ==> Ordered(WriteRow(table, id, rest))
    decreases |table|
  {
    if table != [] {
      assert WriteRow(table, id, rest)[..|table| - 1] == WriteRow(table[..|table| - 1], id, rest);
      LiveIgnoresWrites(table[..|table| - 1], id, rest, p);
    }
  }

  /** The list of a project holds rows of that project. */
  lemma {:induction false} LiveIsFromTable(table: seq<Row>, p: int, i: nat) returns (j: nat)
    requires i < |Live(table, p)|
    ensures j < |table| && table[j].id == Live(table, p)[i] && table[j].project == p
    decreases |table|
  {
    var front := table[..|table| - 1];
    if i < |Live(front, p)| {
      j := LiveIsFromTable(front, p, i);
    } else {
      j := |table| - 1;
    }
  }

  /** The list holds the live clusters of the project and no others. */
  lemma {:induction false} LiveMeans(table: seq<Row>, p: int, id: int)
    ensures id in Live(table, p) <==> exists row :: row in table && row.id == id && row.project == p && row.live
    decreases |table|
  {
    if table != [] {
      var front, last := table[..|table| - 1], table[|table| - 1];
      assert table == front + [last];
      LiveMeans(front, p, id);
    }
  }

  lemma {:induction false} LiveIncreases(table: seq<Row>, p: int)
    requires Ordered(table)
    ensures forall i, j | 0 <= i < j < |Live(table, p)| :: Live(table, p)[i] < Live(table, p)[j]
    decreases |table|
  {
    if table != [] {
      var front := table[..|table| - 1];
      LiveIncreases(front, p);
      forall i | 0 <= i < |Live(front, p)| ensures Live(front, p)[i] < table[|table| - 1].id {
        var j := LiveIsFromTable(front, p, i);
      }
    }
  }

  /** A cluster is in the list of one project only, and there once. */
  lemma OnePlace(table: seq<Row>, p: int, q: int, i: nat, j: nat)
    requires Ordered(table) && i < |Live(table, p)| && j < |Live(table, q)| && Live(table, p)[i] == Live(table, q)[j]
    ensures p == q && i == j
  {
    var a := LiveIsFromTable(table, p, i);
    var b := LiveIsFromTable(table, q, j);
    assert a == b;
    LiveIncreases(table, p);
  }

  function Without<T>(s: seq<T>, i: nat): seq<T>
    requires i < |s|
  {
    s[..i] + s[i + 1..]
  }

  /** The first place of a member of a list. */
  function PlaceOf(ids: seq<int>, id: int): (j: nat)
    requires id in ids
    ensures j < |ids| && ids[j] == id
  {
    if ids[0] == id then 0 else 1 + PlaceOf(ids[1..], id)
  }

  lemma {:induction false} PlaceAppends(ids: seq<int>, last: int, d: int)
    ensures d in ids + [last] ==>
              var j := PlaceOf(ids + [last], d);
              if d in ids then j == PlaceOf(ids, d) && Without(ids + [last], j) == Without(ids, j) + [last]
              else j == |ids| && Without(ids + [last], j) == ids
    decreases |ids|
  {
    var more := ids + [last];
    if ids == [] {
      assert more == [last];
    } else {
      assert more[0] == ids[0] && more[1..] == ids[1..] + [last];
      PlaceAppends(ids[1..], last, d);
    }
  }

  lemma DeleteKeepsOrder(table: seq<Row>, d: int)
    requires Ordered(table)
    ensures Ordered(DeleteRow(table, d))
  {
    assert forall i | 0 <= i < |table| :: DeleteRow(table, d)[i].id == table[i].id;
  }

  lemma LastIsNew(table: seq<Row>, p: int)
    requires table != [] && Ordered(table)
    ensures table[|table| - 1].id !in Live(table[..|table| - 1], p)
  {
    var front, last := table[..|table| - 1], table[|table| - 1].id;
    forall i | 0 <= i < |Live(front, p)| ensures Live(front, p)[i] != last {
      var j := LiveIsFromTable(front, p, i);
      assert front[j] == table[j];
    }
  }

  /** A deletion closes the gap in the one list that held the cluster. */
  lemma {:induction false} LiveAfterDelete(table: seq<Row>, d: int, p: int)
    requires Ordered(table)
    ensures var ids := Live(table, p);
            Live(DeleteRow(table, d), p) == if d in ids then Without(ids, PlaceOf(ids, d)) else ids
    decreases |table|
  {
    if table != [] {
      var front, last := table[..|table| - 1], table[|table| - 1];
      var after := DeleteRow(table, d);
      assert after[..|table| - 1] == DeleteRow(front, d);
      LiveAfterDelete(front, d, p);
      LastIsNew(table, p);
      var kept := if last.project == p && last.live && last.id != d then [last.id] else [];
      assert Live(after, p) == Live(DeleteRow(front, d), p) + kept;
      if last.project == p && last.live {
        PlaceAppends(Live(front, p), last.id, d);
        InAppended(Live(front, p), last.id, d);
      } else {
        assert Live(table, p) == Live(front, p);
      }
    }
  }

  lemma InAppended(ids: seq<int>, last: int, d: int)
    ensures d in ids + [last] <==> d in ids || d == last
  {
  }

  // ---------- Lists under inserts ----------

  function InsertId(ids: seq<int>, id: int): seq<int> {
    if ids == [] || ids[|ids| - 1] < id then ids + [id]
    else InsertId(ids[..|ids| - 1], id) + [ids[|ids| - 1]]
  }

  lemma {:induction false} InsertKeepsOrder(table: seq<Row>, row: Row)
    requires Ordered(table) && forall i | 0 <= i < |table| :: table[i].id != row.id
    ensures Ordered(InsertRow(table, row))
    ensures forall r :: r in InsertRow(table, row) <==> r in table || r == row
    decreases |table|
  {
    if !(table == [] || table[|table| - 1].id < row.id) {
      var front, last := table[..|table| - 1], table[|table| - 1];
      assert table == front + [last];
      InsertKeepsOrder(front, row);
      var more := InsertRow(front, row);
      forall i | 0 <= i < |more| ensures more[i].id < last.id {
        assert more[i] in front || more[i] == row;
      }
    }
  }

  predicate LiveInserted(table: seq<Row>, row: Row, p: int) {
    Live(InsertRow(table, row), p) == if row.project == p then InsertId(Live(table, p), row.id) else Live(table, p)
  }

  /** An insert goes into the one list of its project, in order. */
  lemma {:induction false} LiveAfterInsert(table: seq<Row>, row: Row, p: int)
    requires Ordered(table) && row.live && !Used(table, row.id)
    ensures LiveInserted(table, row, p)
    decreases |table|
  {
    if table == [] || table[|table| - 1].id < row.id {
      LiveInsertedLast(table, row, p);
    } else {
      var front := table[..|table| - 1];
      assert forall i | 0 <= i < |front| :: front[i] == table[i];
      LiveAfterInsert(front, row, p);
      LiveInsertedBelow(table, row, p);
    }
  }

  lemma LiveInsertedLast(table: seq<Row>, row: Row, p: int)
    requires Ordered(table) && row.live && (table == [] || table[|table| - 1].id < row.id)
    ensures LiveInserted(table, row, p)
  {
    LiveOfMore(table, row, p);
    if Live(table, p) != [] {
      var j := LiveIsFromTable(table, p, |Live(table, p)| - 1);
    }
  }

  lemma LiveInsertedBelow(table: seq<Row>, row: Row, p: int)
    requires table != [] && row.id < table[|table| - 1].id && LiveInserted(table[..|table| - 1], row, p)
    ensures LiveInserted(table, row, p)
  {
    var front, last := table[..|table| - 1], table[|table| - 1];
    LiveOfMore(InsertRow(front, row), last, p);
    if last.project == p && last.live {
      InsertBelow(Live(front, p), row.id, last.id);
      assert Live(table, p) == Live(front, p) + [last.id];
    } else {
      assert Live(table, p) == Live(front, p);
    }
  }

  lemma LiveOfMore(table: seq<Row>, row: Row, p: int)
    ensures Live(table + [row], p) == if row.project == p && row.live then Live(table, p) + [row.id] else Live(table, p)
  {
    assert (table + [row])[..|table|] == table;
  }

  lemma InsertBelow(ids: seq<int>, n: int, last: int)
    requires n < last
    ensures InsertId(ids + [last], n) == InsertId(ids, n) + [last]
  {
    assert (ids + [last])[..|ids|] == ids;
  }

  ghost predicate Increases(ids: seq<int>) {
    forall i, j | 0 <= i < j < |ids| :: ids[i] < ids[j]
  }

  /** What is greater than the new member moves up by one place. */
  lemma {:induction false} PlaceAfterInsert(ids: seq<int>, n: int, j: nat)
    requires Increases(ids) && n !in ids && j < |ids|
    ensures var more := InsertId(ids, n);
            |more| == |ids| + 1 && more[if n < ids[j] then j + 1 else j] == ids[j]
    decreases |ids|
  {
    var front, last := ids[..|ids| - 1], ids[|ids| - 1];
    if n < last {
      SizeAfterInsert(front, n);
      if j < |front| {
        PlaceAfterInsert(front, n, j);
      }
    }
  }

  lemma {:induction false} SizeAfterInsert(ids: seq<int>, n: int)
    ensures |InsertId(ids, n)| == |ids| + 1 && forall x :: x in InsertId(ids, n) <==> x in ids || x == n
    decreases |ids|
  {
    if !(ids == [] || ids[|ids| - 1] < n) {
      assert ids == ids[..|ids| - 1] + [ids[|ids| - 1]];
      SizeAfterInsert(ids[..|ids| - 1], n);
    }
  }

  /** What is greater than the member that goes moves down by one place. */
  lemma PlaceAfterDelete(ids: seq<int>, d: int, j: nat)
    requires Increases(ids) && d in ids && j < |ids| && ids[j] != d
    ensures var less := Without(ids, PlaceOf(ids, d));
            var i := if d < ids[j] then j - 1 else j;
            0 <= i < |less| && less[i] == ids[j]
  {
    var k := PlaceOf(ids, d);
    assert k < j <==> d < ids[j];
  }

  // ---------- Places in the pass ----------

  /** The offset of the next query for the current project. */
  function NextOffset(s: State): nat {
    match s.dispatcher
    case Query(offset) => offset
    case Spawn(offset, _, _) => offset + LIMIT
    case Acquired(offset, _, _) => offset + LIMIT
    case _ => 0
  }

  /** The rows read and not yet given to a handler. */
  function InHand(s: State): seq<int> {
    match s.dispatcher
    case Spawn(_, page, k) => if k < |page| then page[k..] else []
    case Acquired(_, page, k) => if k < |page| then page[k..] else []
    case _ => []
  }

  predicate Dispatching(s: State) {
    s.dispatcher.Query? || s.dispatcher.Spawn? || s.dispatcher.Acquired?
  }

  /** The cluster is live, at place j of the list of project number pi. */
  predicate At(s: State, id: int, pi: nat, j: nat) {
    pi < |s.projects| && j < |Live(s.table, s.projects[pi])| && Live(s.table, s.projects[pi])[j] == id
  }

  /** The coming queries do not reach the place: its project is finished, or it is before the offset. */
  predicate Passed(s: State, pi: nat, j: nat) {
    pi < s.at || (pi == s.at && j < NextOffset(s))
  }

  /** The cluster is at a place the coming queries will reach. */
  ghost predicate Ahead(s: State, id: int) {
    exists pi: nat, j: nat :: At(s, id, pi, j) && !Passed(s, pi, j)
  }

  /** How often the pass has handled the cluster, has it in hand, and is still to come to it. */
  ghost function Owed(s: State, id: int): nat {
    s.handled[id] + multiset(InHand(s))[id] + if Ahead(s, id) then 1 else 0
  }

  /** A deletion pushes the cluster over the edge: it is at the next offset of the current project,
      and goes down to a place the coming queries do not reach. */
  predicate Pushes(s: State, a: Action, id: int) {
    && a.DeleteCluster? && At(s, id, s.at, NextOffset(s))
    && a.id < id && a.id in Live(s.table, s.projects[s.at])
  }

  /** An insert pulls the cluster back over the edge: it is at the last place the coming queries do
      not reach, and goes up to one they do. */
  predicate Pulls(s: State, a: Action, id: int) {
    && a.InsertCluster? && NextOffset(s) > 0 && At(s, id, s.at, NextOffset(s) - 1)
    && a.id < id && a.project == s.projects[s.at]
  }

  // ---------- The invariant ----------

  /** The semaphore counts the handlers at work, those not yet released, and the one about to start. */
  predicate SemaphoreCounts(s: State) {
    if s.dispatcher.Done? then s.running == multiset{} && s.ending == 0
    else s.held == |s.running| + s.ending + (if s.dispatcher.Acquired? then 1 else 0) && s.held <= s.pool
  }

  predicate Shape(s: State) {
    && Ordered(s.table) && (forall i, j | 0 <= i < j < |s.projects| :: s.projects[i] != s.projects[j])
    && s.at <= |s.projects| && (Dispatching(s) <==> s.at < |s.projects|)
    && (s.dispatcher.Spawn? || s.dispatcher.Acquired? ==> InHand(s) != [])
  }

  ghost predicate KnowsItsClusters(s: State) {
    forall id | id in s.handled || id in InHand(s) :: Known(s, id)
  }

  ghost predicate Inv(s: State) {
    Shape(s) && SemaphoreCounts(s) && KnowsItsClusters(s)
  }

  lemma BeginsInv(s: State)
    requires Begins(s)
    ensures Inv(s)
  {
  }

  // ---------- Every step keeps it ----------

  lemma SemaphoreKept(s: State, a: Action)
    requires SemaphoreCounts(s) && Enabled(s, a)
    ensures SemaphoreCounts(Do(s, a))
  {
    if a.Start? || a.HandlerReturns? || a.Release? {
      HandlersCounted(s, a);
    } else {
      DispatcherCounted(s, a);
    }
  }

  lemma HandlersCounted(s: State, a: Action)
    requires SemaphoreCounts(s) && Enabled(s, a) && (a.Start? || a.HandlerReturns? || a.Release?)
    ensures SemaphoreCounts(Do(s, a))
  {
    if a.Start? {
      CountOneMore(s.running, s.dispatcher.page[s.dispatcher.k]);
    } else if a.HandlerReturns? {
      CountOneLess(s.running, a.id);
    }
  }

  lemma DispatcherCounted(s: State, a: Action)
    requires SemaphoreCounts(s) && Enabled(s, a) && !a.Start? && !a.HandlerReturns? && !a.Release?
    ensures SemaphoreCounts(Do(s, a))
  {
    assert Do(s, a).running == s.running && Do(s, a).ending == s.ending;
  }

  lemma CountOneMore(m: multiset<int>, id: int)
    ensures |m + multiset{id}| == |m| + 1
  {
  }

  lemma CountOneLess(m: multiset<int>, id: int)
    requires id in m
    ensures |m - multiset{id}| == |m| - 1
  {
  }

  lemma PageRead(ids: seq<int>, offset: nat)
    ensures var page := Page(ids, LIMIT, offset);
            && |page| <= LIMIT && (page == [] <==> offset >= |ids|)
            && (page != [] ==> offset + |page| <= |ids| && (|page| == LIMIT || offset + |page| == |ids|))
            && (forall i | 0 <= i < |page| :: page[i] == ids[offset + i])
  {
  }

  lemma TableKept(s: State, a: Action)
    requires Ordered(s.table) && Enabled(s, a)
    ensures Ordered(Do(s, a).table)
    ensures forall id :: Known(Do(s, a), id) <==> Known(s, id) || (a.InsertCluster? && a.id == id)
  {
    match a
    case HandlerWrites(w, rest) =>
      LiveIgnoresWrites(s.table, w, rest, 0);
      SameIds(s.table, Do(s, a).table);
    case DeleteCluster(d) =>
      DeleteKeepsOrder(s.table, d);
      SameIds(s.table, Do(s, a).table);
    case InsertCluster(n, p) => InsertKnown(s, a);
    case _ =>
  }

  lemma SameIds(table: seq<Row>, after: seq<Row>)
    requires |table| == |after| && forall i | 0 <= i < |table| :: after[i].id == table[i].id
    ensures forall id :: Used(table, id) <==> Used(after, id)
  {
    forall id ensures Used(table, id) <==> Used(after, id) {
      if i :| 0 <= i < |table| && table[i].id == id {
        assert after[i].id == id;
      }
    }
  }

  lemma InsertKnown(s: State, a: Action)
    requires Ordered(s.table) && Enabled(s, a) && a.InsertCluster?
    ensures Ordered(Do(s, a).table)
    ensures forall id :: Known(Do(s, a), id) <==> Known(s, id) || a.id == id
  {
    var row := Row(a.id, a.project, true, "deploying");
    var after := Do(s, a).table;
    InsertKeepsOrder(s.table, row);
    forall id ensures Known(Do(s, a), id) <==> Known(s, id) || a.id == id {
      if Known(s, id) {
        var i :| 0 <= i < |s.table| && s.table[i].id == id;
        assert s.table[i] in after;
      }
      if a.id == id {
        assert row in after;
      }
      if Known(Do(s, a), id) {
        var i :| 0 <= i < |after| && after[i].id == id;
        assert after[i] in after;
      }
    }
  }

  lemma ShapeKept(s: State, a: Action)
    requires Shape(s) && Enabled(s, a)
    ensures Shape(Do(s, a))
  {
    TableKept(s, a);
    if a.ReadPage? {
      PageRead(Live(s.table, s.projects[s.at]), s.dispatcher.offset);
    }
  }

  lemma KnowledgeKept(s: State, a: Action)
    requires Shape(s) && KnowsItsClusters(s) && Enabled(s, a)
    ensures KnowsItsClusters(Do(s, a))
  {
    var s' := Do(s, a);
    TableKept(s, a);
    if a.ReadPage? {
      var p, offset := s.projects[s.at], s.dispatcher.offset;
      PageRead(Live(s.table, p), offset);
      forall i | 0 <= i < |InHand(s')| ensures Known(s', InHand(s')[i]) {
        var r := LiveIsFromTable(s.table, p, offset + i);
      }
    } else if a.Start? {
      assert InHand(s') == InHand(s)[1..] && s.dispatcher.page[s.dispatcher.k] == InHand(s)[0];
    } else {
      assert InHand(s') == InHand(s) && s'.handled == s.handled;
    }
  }

  lemma InvKept(s: State, a: Action)
    requires Inv(s) && Enabled(s, a)
    ensures Inv(Do(s, a))
  {
    ShapeKept(s, a);
    SemaphoreKept(s, a);
    KnowledgeKept(s, a);
  }

  lemma {:induction false} RunInv(s: State, run: seq<Action>)
    requires Inv(s) && Runs(s, run)
    ensures Inv(After(s, run)) && After(s, run).projects == s.projects && After(s, run).pool == s.pool
    decreases |run|
  {
    if run != [] {
      InvKept(s, run[0]);
      RunInv(Do(s, run[0]), run[1..]);
    }
  }

  // ---------- One cluster in one step ----------

  lemma AheadIfNotPassed(s: State, id: int, pi: nat, j: nat)
    requires Shape(s) && At(s, id, pi, j)
    ensures Ahead(s, id) <==> !Passed(s, pi, j)
  {
    forall qi: nat, i: nat | At(s, id, qi, i) ensures qi == pi && i == j {
      OnePlace(s.table, s.projects[qi], s.projects[pi], i, j);
    }
  }

  /** How far a step moves the cluster in the list of project number pi. */
  function Shift(s: State, a: Action, id: int, pi: nat): int
    requires pi < |s.projects|
  {
    if a.DeleteCluster? && a.id < id && a.id in Live(s.table, s.projects[pi]) then -1
    else if a.InsertCluster? && a.id < id && a.project == s.projects[pi] then 1
    else 0
  }

  lemma PlaceAfter(s: State, a: Action, id: int, pi: nat, j: nat)
    requires Shape(s) && Enabled(s, a) && At(s, id, pi, j) && a != DeleteCluster(id)
    ensures j + Shift(s, a, id, pi) >= 0 && At(Do(s, a), id, pi, j + Shift(s, a, id, pi))
  {
    var p := s.projects[pi];
    match a
    case HandlerWrites(w, rest) => LiveIgnoresWrites(s.table, w, rest, p);
    case DeleteCluster(d) => PlaceInLess(s.table, d, p, j);
    case InsertCluster(n, project) => PlaceInMore(s.table, Row(n, project, true, "deploying"), p, j);
    case _ =>
  }

  lemma PlaceInLess(table: seq<Row>, d: int, p: int, j: nat)
    requires Ordered(table) && j < |Live(table, p)| && Live(table, p)[j] != d
    ensures var ids, less := Live(table, p), Live(DeleteRow(table, d), p);
            var i := if d in ids && d < ids[j] then j - 1 else j;
            0 <= i < |less| && less[i] == ids[j]
  {
    LiveIncreases(table, p);
    LiveAfterDelete(table, d, p);
    if d in Live(table, p) {
      PlaceAfterDelete(Live(table, p), d, j);
    }
  }

  lemma PlaceInMore(table: seq<Row>, row: Row, p: int, j: nat)
    requires Ordered(table) && row.live && !Used(table, row.id) && j < |Live(table, p)|
    ensures var ids, more := Live(table, p), Live(InsertRow(table, row), p);
            var i := if row.project == p && row.id < ids[j] then j + 1 else j;
            i < |more| && more[i] == ids[j]
  {
    LiveIncreases(table, p);
    LiveAfterInsert(table, row, p);
    UnusedIsNowhere(table, row.id, p);
    PlaceAfterInsert(Live(table, p), row.id, j);
  }

  lemma UnusedIsNowhere(table: seq<Row>, id: int, p: int)
    requires !Used(table, id)
    ensures id !in Live(table, p)
  {
    forall j | 0 <= j < |Live(table, p)| ensures Live(table, p)[j] != id {
      var r := LiveIsFromTable(table, p, j);
    }
  }

  lemma UnknownIsNowhere(s: State, id: int, pi: nat)
    requires !Known(s, id) && pi < |s.projects|
    ensures id !in Live(s.table, s.projects[pi])
  {
    UnusedIsNowhere(s.table, id, s.projects[pi]);
  }

  /** A cluster that is in no list comes into none, unless it is inserted. */
  lemma NowhereAfter(s: State, a: Action, id: int)
    requires Shape(s) && Enabled(s, a) && Known(s, id) && forall pi: nat, j: nat :: !At(s, id, pi, j)
    ensures forall pi: nat, j: nat :: !At(Do(s, a), id, pi, j)
  {
    forall pi: nat, j: nat ensures !At(Do(s, a), id, pi, j) {
      if pi < |s.projects| {
        var ids := Live(s.table, s.projects[pi]);
        forall i | 0 <= i < |ids| ensures ids[i] != id {
          assert !At(s, id, pi, i);
        }
        NotInAfter(s, a, id, s.projects[pi]);
      }
    }
  }

  lemma NotInAfter(s: State, a: Action, id: int, p: int)
    requires Shape(s) && Enabled(s, a) && Known(s, id) && id !in Live(s.table, p)
    ensures id !in Live(Do(s, a).table, p)
  {
    match a
    case HandlerWrites(w, rest) => LiveIgnoresWrites(s.table, w, rest, p);
    case DeleteCluster(d) => LiveAfterDelete(s.table, d, p);
    case InsertCluster(n, project) =>
      LiveAfterInsert(s.table, Row(n, project, true, "deploying"), p);
      SizeAfterInsert(Live(s.table, p), n);
    case _ =>
  }

  /** A page holds the cluster once if it is at one of the places read, and not otherwise. */
  lemma PageHolds(s: State, id: int)
    requires Shape(s) && Enabled(s, ReadPage)
    ensures var page, offset := Page(Live(s.table, s.projects[s.at]), LIMIT, s.dispatcher.offset), s.dispatcher.offset;
            multiset(page)[id] == if exists j :: offset <= j < offset + LIMIT && At(s, id, s.at, j) then 1 else 0
  {
    var ids, offset := Live(s.table, s.projects[s.at]), s.dispatcher.offset;
    var page := Page(ids, LIMIT, offset);
    PageRead(ids, offset);
    LiveIncreases(s.table, s.projects[s.at]);
    forall j | offset <= j < offset + LIMIT && At(s, id, s.at, j) ensures id in page {
      assert page[j - offset] == id;
    }
    if id in page {
      var i :| 0 <= i < |page| && page[i] == id;
      assert At(s, id, s.at, offset + i);
      OnceIn(page, i);
    } else {
      assert multiset(page)[id] == 0;
    }
  }

  lemma OnceIn(page: seq<int>, i: nat)
    requires Increases(page) && i < |page|
    ensures multiset(page)[page[i]] == 1
  {
    assert page == page[..i] + [page[i]] + page[i + 1..];
    assert page[i] !in page[..i] && page[i] !in page[i + 1..];
  }

  /** The law of one step: what the pass owes the cluster changes by the pushes and pulls alone. */
  lemma StepLaw(s: State, a: Action, id: int)
    requires Inv(s) && Enabled(s, a) && Known(s, id)
    ensures Owed(Do(s, a), id) + (if Pushes(s, a, id) then 1 else 0)
         <= Owed(s, id) + (if Pulls(s, a, id) then 1 else 0)
    ensures a != DeleteCluster(id) ==>
              Owed(Do(s, a), id) + (if Pushes(s, a, id) then 1 else 0)
              == Owed(s, id) + (if Pulls(s, a, id) then 1 else 0)
  {
    if a.ReadPage? {
      ReadLaw(s, id);
    } else if a.Start? {
      StartLaw(s, id);
    } else {
      assert InHand(Do(s, a)) == InHand(s) && Do(s, a).handled == s.handled;
      MoveLaw(s, a, id);
    }
  }

  /** Steps that neither read a page nor start a handler. */
  lemma MoveLaw(s: State, a: Action, id: int)
    requires Shape(s) && Enabled(s, a) && Known(s, id) && !a.ReadPage? && !a.Start?
    ensures a == DeleteCluster(id) ==> !Ahead(Do(s, a), id) && !Pushes(s, a, id) && !Pulls(s, a, id)
    ensures a != DeleteCluster(id) ==>
              (if Ahead(Do(s, a), id) then 1 else 0) + (if Pushes(s, a, id) then 1 else 0)
              == (if Ahead(s, id) then 1 else 0) + (if Pulls(s, a, id) then 1 else 0)
  {
    ShapeKept(s, a);
    if a == DeleteCluster(id) {
      DeletedIsNowhere(s, id);
    } else if pi: nat, j: nat :| At(s, id, pi, j) {
      PlaceAfter(s, a, id, pi, j);
      AheadIfNotPassed(s, id, pi, j);
      AheadIfNotPassed(Do(s, a), id, pi, j + Shift(s, a, id, pi));
      EdgeCrossed(s, a, id, pi, j);
    } else {
      NowhereAfter(s, a, id);
    }
  }

  lemma DeletedIsNowhere(s: State, id: int)
    requires Shape(s)
    ensures !Ahead(Do(s, DeleteCluster(id)), id)
  {
    forall pi: nat, j: nat ensures !At(Do(s, DeleteCluster(id)), id, pi, j) {
      if pi < |s.projects| {
        var p := s.projects[pi];
        LiveAfterDelete(s.table, id, p);
        LiveIncreases(s.table, p);
      }
    }
  }

  lemma EdgeCrossed(s: State, a: Action, id: int, pi: nat, j: nat)
    requires Shape(s) && Enabled(s, a) && !a.ReadPage? && !a.Start? && a != DeleteCluster(id)
    requires At(s, id, pi, j) && j + Shift(s, a, id, pi) >= 0
    ensures (if Passed(Do(s, a), pi, j + Shift(s, a, id, pi)) then 0 else 1) + (if Pushes(s, a, id) then 1 else 0)
         == (if Passed(s, pi, j) then 0 else 1) + (if Pulls(s, a, id) then 1 else 0)
  {
    var n := NextOffset(s);
    assert Do(s, a).at == s.at && NextOffset(Do(s, a)) == n;
    if Pushes(s, a, id) {
      OnePlace(s.table, s.projects[s.at], s.projects[pi], n, j);
    } else if Pulls(s, a, id) {
      OnePlace(s.table, s.projects[s.at], s.projects[pi], n - 1, j);
    }
  }

  lemma StartLaw(s: State, id: int)
    requires Shape(s) && Enabled(s, Start)
    ensures Owed(Do(s, Start), id) == Owed(s, id)
  {
    var s', first := Do(s, Start), InHand(s)[0];
    assert InHand(s') == InHand(s)[1..] && s.dispatcher.page[s.dispatcher.k] == first;
    assert InHand(s) == [first] + InHand(s)[1..];
    assert forall pi: nat, j: nat :: At(s', id, pi, j) == At(s, id, pi, j) && Passed(s', pi, j) == Passed(s, pi, j);
  }

  lemma ReadLaw(s: State, id: int)
    requires Shape(s) && Enabled(s, ReadPage)
    ensures Owed(Do(s, ReadPage), id) == Owed(s, id)
  {
    var s', offset := Do(s, ReadPage), s.dispatcher.offset;
    ShapeKept(s, ReadPage);
    PageHolds(s, id);
    PageRead(Live(s.table, s.projects[s.at]), offset);
    assert InHand(s) == [] && InHand(s') == Page(Live(s.table, s.projects[s.at]), LIMIT, offset);
    if pi: nat, j: nat :| At(s, id, pi, j) {
      AheadIfNotPassed(s, id, pi, j);
      AheadIfNotPassed(s', id, pi, j);
      ReadPlace(s, id, pi, j);
    } else {
      assert forall pi: nat, j: nat :: !At(s', id, pi, j) by {
        assert forall pi: nat, j: nat :: At(s', id, pi, j) == At(s, id, pi, j);
      }
    }
  }

  lemma ReadPlace(s: State, id: int, pi: nat, j: nat)
    requires Shape(s) && Enabled(s, ReadPage) && At(s, id, pi, j)
    ensures (exists i :: s.dispatcher.offset <= i < s.dispatcher.offset + LIMIT && At(s, id, s.at, i))
        <==> pi == s.at && s.dispatcher.offset <= j < s.dispatcher.offset + LIMIT
  {
    forall i: nat | At(s, id, s.at, i) ensures pi == s.at && i == j {
      OnePlace(s.table, s.projects[s.at], s.projects[pi], i, j);
    }
  }

  // ---------- One cluster in a run ----------

  function Pushed(s: State, run: seq<Action>, id: int): nat
    requires Runs(s, run)
    decreases |run|
  {
    if run == [] then 0 else (if Pushes(s, run[0], id) then 1 else 0) + Pushed(Do(s, run[0]), run[1..], id)
  }

  function Pulled(s: State, run: seq<Action>, id: int): nat
    requires Runs(s, run)
    decreases |run|
  {
    if run == [] then 0 else (if Pulls(s, run[0], id) then 1 else 0) + Pulled(Do(s, run[0]), run[1..], id)
  }

  /** The law of a run, for a cluster that it does not delete. */
  lemma {:induction false} RunLaw(s: State, run: seq<Action>, id: int)
    requires Inv(s) && Runs(s, run) && Known(s, id) && DeleteCluster(id) !in run
    ensures Owed(After(s, run), id) + Pushed(s, run, id) == Owed(s, id) + Pulled(s, run, id)
    decreases |run|
  {
    if run != [] {
      InvKept(s, run[0]);
      TableKept(s, run[0]);
      StepLaw(s, run[0], id);
      RunLaw(Do(s, run[0]), run[1..], id);
    }
  }

  /** For any identifier, used or not. */
  lemma {:induction false} RunBound(s: State, run: seq<Action>, id: int)
    requires Inv(s) && Runs(s, run)
    ensures Owed(After(s, run), id) + Pushed(s, run, id)
         <= (if Known(s, id) then Owed(s, id) else 1) + Pulled(s, run, id)
    decreases |run|
  {
    if run == [] {
      if !Known(s, id) {
        UnknownOwesNothing(s, id);
      }
    } else {
      var a, t := run[0], Do(s, run[0]);
      InvKept(s, a);
      TableKept(s, a);
      RunBound(t, run[1..], id);
      if Known(s, id) {
        StepLaw(s, a, id);
      } else {
        UnknownOwesNothing(s, id);
        assert !Pushes(s, a, id) && !Pulls(s, a, id);
        if Known(t, id) {
          assert a == InsertCluster(id, a.project);
          InsertedOwesOne(s, a, id);
        }
      }
    }
  }

  lemma UnknownOwesNothing(s: State, id: int)
    requires Inv(s) && !Known(s, id)
    ensures Owed(s, id) == 0 && forall pi: nat, j: nat :: !At(s, id, pi, j)
  {
    forall pi: nat, j: nat ensures !At(s, id, pi, j) {
      if pi < |s.projects| {
        UnknownIsNowhere(s, id, pi);
      }
    }
    assert id !in s.handled && id !in InHand(s);
  }

  lemma InsertedOwesOne(s: State, a: Action, id: int)
    requires Inv(s) && Enabled(s, a) && a.InsertCluster? && !Known(s, id)
    ensures Owed(Do(s, a), id) <= 1
  {
    assert id !in s.handled && id !in InHand(s);
    assert InHand(Do(s, a)) == InHand(s);
  }

  // ---------- The theorems ----------

  /** Under every interleaving at most as many handlers are at work as the pool has places. */
  lemma PoolIsRespected(s: State, run: seq<Action>)
    requires Begins(s) && Runs(s, run)
    ensures |After(s, run).running| <= s.pool
  {
    BeginsInv(s);
    RunInv(s, run);
  }

  /** When the pass has acquired the whole pool, no handler is at work; and a cluster of a listed
      project, live when the pass began and not deleted, has been handled once, and once more for
      each insert that has pulled it back over the edge, and once less for each deletion that has
      pushed it over. Handlers write the rows being paged, and clusters are inserted and deleted,
      in any interleaving and with any identifiers. */
  lemma EachClusterOnce(s: State, run: seq<Action>, p: int, id: int)
    requires Begins(s) && Runs(s, run) && After(s, run).dispatcher.Done?
    requires p in s.projects && id in Live(s.table, p) && DeleteCluster(id) !in run
    ensures After(s, run).running == multiset{} && After(s, run).ending == 0
    ensures After(s, run).handled[id] == 1 + Pulled(s, run, id) - Pushed(s, run, id)
  {
    BeginsInv(s);
    RunInv(s, run);
    var pi :| 0 <= pi < |s.projects| && s.projects[pi] == p;
    var r := LiveIsFromTable(s.table, p, PlaceOf(Live(s.table, p), id));
    assert At(s, id, pi, PlaceOf(Live(s.table, p), id)) && !Passed(s, pi, PlaceOf(Live(s.table, p), id));
    RunLaw(s, run, id);
    DoneOwesNothing(After(s, run), id);
  }

  lemma DoneOwesNothing(s: State, id: int)
    requires Inv(s) && s.dispatcher.Done?
    ensures Owed(s, id) == s.handled[id]
  {
    assert s.at == |s.projects|;
  }

  /** At no time has a cluster been handled more than once, but for the inserts that have pulled it
      back; whatever is deleted. */
  lemma NeverTwice(s: State, run: seq<Action>, id: int)
    requires Begins(s) && Runs(s, run)
    ensures After(s, run).handled[id] <= 1 + Pulled(s, run, id)
  {
    BeginsInv(s);
    RunBound(s, run, id);
  }

  /** Inserts in the order of their identifiers. */
  predicate InsertsInOrder(s: State, run: seq<Action>)
    requires Runs(s, run)
    decreases |run|
  {
    run == [] ||
    ((run[0].InsertCluster? ==> forall i | 0 <= i < |s.table| :: s.table[i].id < run[0].id)
     && InsertsInOrder(Do(s, run[0]), run[1..]))
  }

  /** Inserts in order pull nobody back. */
  lemma {:induction false} InOrderPullsNobody(s: State, run: seq<Action>, id: int)
    requires Runs(s, run) && InsertsInOrder(s, run)
    ensures Pulled(s, run, id) == 0
    decreases |run|
  {
    if run != [] {
      InOrderPullsNobody(Do(s, run[0]), run[1..], id);
      if Pulls(s, run[0], id) {
        var r := LiveIsFromTable(s.table, s.projects[s.at], NextOffset(s) - 1);
        assert false;
      }
    }
  }

  /** A step that cannot move any cluster over the edge: no deletion before the row at the next
      offset and no insert before the row in front of it, in the current project. */
  predicate Harmless(s: State, a: Action) {
    s.at < |s.projects| ==>
      var ids, n := Live(s.table, s.projects[s.at]), NextOffset(s);
      && (a.DeleteCluster? && n < |ids| && a.id in ids ==> a.id >= ids[n])
      && (a.InsertCluster? && 0 < n <= |ids| && a.project == s.projects[s.at] ==> a.id > ids[n - 1])
  }

  lemma HarmlessIff(s: State, a: Action)
    requires Shape(s) && Enabled(s, a)
    ensures Harmless(s, a) <==> forall id :: !Pushes(s, a, id) && !Pulls(s, a, id)
  {
    if s.at < |s.projects| {
      var ids, n := Live(s.table, s.projects[s.at]), NextOffset(s);
      if a.DeleteCluster? && n < |ids| && a.id in ids && a.id < ids[n] {
        assert Pushes(s, a, ids[n]);
      } else if a.InsertCluster? {
        UnknownIsNowhere(s, a.id, s.at);
        if 0 < n <= |ids| && a.project == s.projects[s.at] && a.id < ids[n - 1] {
          assert Pulls(s, a, ids[n - 1]);
        } else if 0 < n <= |ids| {
          assert ids[n - 1] in ids;
        }
      }
    }
  }

  predicate AllHarmless(s: State, run: seq<Action>)
    requires Runs(s, run)
    decreases |run|
  {
    run == [] || (Harmless(s, run[0]) && AllHarmless(Do(s, run[0]), run[1..]))
  }

  lemma {:induction false} HarmlessMoveNobody(s: State, run: seq<Action>, id: int)
    requires Inv(s) && Runs(s, run) && AllHarmless(s, run)
    ensures Pushed(s, run, id) == 0 && Pulled(s, run, id) == 0
    decreases |run|
  {
    if run != [] {
      InvKept(s, run[0]);
      HarmlessIff(s, run[0]);
      HarmlessMoveNobody(Do(s, run[0]), run[1..], id);
    }
  }

  /** In a run of harmless steps each cluster that is not deleted is handled exactly once. */
  lemma EachOnceIfHarmless(s: State, run: seq<Action>, p: int, id: int)
    requires Begins(s) && Runs(s, run) && After(s, run).dispatcher.Done? && AllHarmless(s, run)
    requires p in s.projects && id in Live(s.table, p) && DeleteCluster(id) !in run
    ensures After(s, run).handled[id] == 1
  {
    BeginsInv(s);
    HarmlessMoveNobody(s, run, id);
    EachClusterOnce(s, run, p, id);
  }

  /** A push, in whatever reachable state, is final but for pulls: without one before or after, no
      continuation ever handles the cluster. */
  lemma DeletionSkipsOne(s: State, before: seq<Action>, a: Action, id: int, after: seq<Action>)
    requires Begins(s) && Runs(s, before) && Enabled(After(s, before), a) && Pushes(After(s, before), a, id)
    requires Runs(Do(After(s, before), a), after)
    ensures After(Do(After(s, before), a), after).handled[id]
         <= Pulled(s, before, id) + Pulled(Do(After(s, before), a), after, id)
  {
    var mid := After(s, before);
    BeginsInv(s);
    RunInv(s, before);
    RunBound(s, before, id);
    var r := LiveIsFromTable(mid.table, mid.projects[mid.at], NextOffset(mid));
    StepLaw(mid, a, id);
    InvKept(mid, a);
    TableKept(mid, a);
    RunBound(Do(mid, a), after, id);
  }

  // ---------- The pass can always finish ----------

  /** What is left to do in the current stage of the dispatching loop. */
  function Stage(d: Dispatcher): nat {
    match d
    case Query(_) => 3
    case Spawn(_, _, _) => 2
    case Acquired(_, _, _) => 1
    case Waiting => 1
    case Done => 0
  }

  function RowsToCome(s: State): nat {
    if s.at < |s.projects| && NextOffset(s) < |Live(s.table, s.projects[s.at])|
    then |Live(s.table, s.projects[s.at])| - NextOffset(s) else 0
  }

  /** A state nearer to the end of the pass. */
  predicate Nearer(t: State, s: State) {
    && t.projects == s.projects && t.table == s.table && t.pool == s.pool && s.at <= t.at <= |s.projects|
    && (t.at > s.at || RowsToCome(t) < RowsToCome(s)
        || (RowsToCome(t) == RowsToCome(s)
            && (|InHand(t)| < |InHand(s)|
                || (|InHand(t)| == |InHand(s)|
                    && (Stage(t.dispatcher) < Stage(s.dispatcher)
                        || (Stage(t.dispatcher) == Stage(s.dispatcher)
                            && 2 * |t.running| + t.ending < 2 * |s.running| + s.ending))))))
  }

  lemma SomeMember(m: multiset<int>) returns (id: int)
    requires |m| > 0
    ensures id in m
  {
    EmptyIfNone(m);
    id :| m[id] > 0;
  }

  lemma EmptyIfNone(m: multiset<int>)
    ensures (forall x :: m[x] == 0) ==> m == multiset{}
  {
    if forall x :: m[x] == 0 {
      assert m == multiset{};
    }
  }

  /** There is always a step that brings the pass forward: the dispatching loop's own, unless it
      must wait for a place in the semaphore; then a handler can return or release. */
  lemma StepForward(s: State) returns (a: Action)
    requires Inv(s) && s.pool > 0 && !s.dispatcher.Done?
    ensures Enabled(s, a) && Nearer(Do(s, a), s)
  {
    if (s.dispatcher.Spawn? && s.held == s.pool) || (s.dispatcher.Waiting? && s.held > 0) {
      if s.ending > 0 {
        a := Release;
      } else {
        var id := SomeMember(s.running);
        a := HandlerReturns(id);
        CountOneLess(s.running, id);
      }
    } else {
      match s.dispatcher
      case Query(offset) =>
        a := ReadPage;
        PageRead(Live(s.table, s.projects[s.at]), offset);
      case Spawn(_, _, _) => a := Acquire;
      case Acquired(_, _, _) => a := Start;
      case Waiting => a := FinalAcquire;
    }
  }

  predicate Quiet(run: seq<Action>) {
    forall i | 0 <= i < |run| :: !run[i].InsertCluster? && !run[i].DeleteCluster?
  }

  lemma {:induction false} QuietMovesNobody(s: State, run: seq<Action>, id: int)
    requires Runs(s, run) && Quiet(run)
    ensures Pushed(s, run, id) == 0 && Pulled(s, run, id) == 0
    decreases |run|
  {
    if run != [] {
      QuietMovesNobody(Do(s, run[0]), run[1..], id);
    }
  }

  /** From every reachable state some run finishes the pass, if the pool has a place at all; it
      need not touch the table. */
  lemma {:induction false} CanFinish(s: State) returns (run: seq<Action>)
    requires Inv(s) && s.pool > 0
    ensures Runs(s, run) && After(s, run).dispatcher.Done? && Quiet(run)
    decreases |s.projects| - s.at, RowsToCome(s), |InHand(s)|, Stage(s.dispatcher), 2 * |s.running| + s.ending
  {
    if s.dispatcher.Done? {
      run := [];
    } else {
      var a := StepForward(s);
      InvKept(s, a);
      var rest := CanFinish(Do(s, a));
      run := [a] + rest;
      assert run[1..] == rest;
    }
  }

  /** The first page of the first project, one step of another process, and the rest of the pass. */
  lemma StepAfterFirstPage(s: State, a: Action) returns (run: seq<Action>)
    requires Begins(s) && s.pool > 0 && s.projects != [] && LIMIT <= |Live(s.table, s.projects[0])|
    requires Enabled(s, a) && (a.InsertCluster? || a.DeleteCluster?)
    ensures Runs(s, run) && After(s, run).dispatcher.Done?
    ensures forall x | x in run && (x.InsertCluster? || x.DeleteCluster?) :: x == a
    ensures var read := Do(s, ReadPage);
            && Enabled(read, a) && read.table == s.table && read.projects == s.projects && read.at == 0
               && NextOffset(read) == LIMIT
            && forall id :: Pushed(s, run, id) == (if Pushes(read, a, id) then 1 else 0)
                            && Pulled(s, run, id) == (if Pulls(read, a, id) then 1 else 0)
  {
    var read := Do(s, ReadPage);
    PageRead(Live(s.table, s.projects[0]), 0);
    BeginsInv(s);
    InvKept(s, ReadPage);
    InvKept(read, a);
    var rest := CanFinish(Do(read, a));
    run := [ReadPage] + ([a] + rest);
    assert run[1..] == [a] + rest && run[1..][1..] == rest;
    forall id ensures Pushed(s, run, id) == (if Pushes(read, a, id) then 1 else 0)
                      && Pulled(s, run, id) == (if Pulls(read, a, id) then 1 else 0) {
      QuietMovesNobody(Do(read, a), rest, id);
    }
  }

  /** A pass can miss a cluster wherever a project has more clusters than a page holds: deleting any
      cluster of the first page, once that page is read, loses the first cluster of the second. */
  lemma SecondPageCanLose(s: State, d: int) returns (run: seq<Action>)
    requires Begins(s) && s.pool > 0 && s.projects != [] && LIMIT < |Live(s.table, s.projects[0])|
    requires d in Live(s.table, s.projects[0])[..LIMIT]
    ensures Runs(s, run) && After(s, run).dispatcher.Done?
    ensures var id := Live(s.table, s.projects[0])[LIMIT];
            DeleteCluster(id) !in run && After(s, run).handled[id] == 0
  {
    var ids := Live(s.table, s.projects[0]);
    LiveIncreases(s.table, s.projects[0]);
    var e :| 0 <= e < LIMIT && ids[..LIMIT][e] == d;
    run := StepAfterFirstPage(s, DeleteCluster(d));
    assert At(Do(s, ReadPage), ids[LIMIT], 0, LIMIT);
    EachClusterOnce(s, run, s.projects[0], ids[LIMIT]);
  }

  /** And it can handle a cluster twice wherever a page is full: inserting a lower identifier into the
      project, once the first page is read, shows its last cluster again. */
  lemma FirstPageCanRepeat(s: State, n: int) returns (run: seq<Action>)
    requires Begins(s) && s.pool > 0 && s.projects != [] && LIMIT <= |Live(s.table, s.projects[0])|
    requires !Known(s, n) && n < Live(s.table, s.projects[0])[LIMIT - 1]
    ensures Runs(s, run) && After(s, run).dispatcher.Done?
    ensures After(s, run).handled[Live(s.table, s.projects[0])[LIMIT - 1]] == 2
  {
    var ids := Live(s.table, s.projects[0]);
    run := StepAfterFirstPage(s, InsertCluster(n, s.projects[0]));
    assert At(Do(s, ReadPage), ids[LIMIT - 1], 0, LIMIT - 1);
    EachClusterOnce(s, run, s.projects[0], ids[LIMIT - 1]);
  }
}
