/**
 The list queries of the storage layer: optional filters grown into a where clause with
 numbered placeholders, an order taken from a white list of columns, and pages.
 */
module QueryBuilder {
  import opened Wrappers
  import opened Decimal
  import opened Paging
  import opened SqlText
  import opened Texts

  datatype Op = Equal | AtLeast | AtMost

  /** An optional filter: the column, the comparison, and the value if the request gives one. */
  datatype Filter = Filter(column: string, op: Op, value: Option<Arg>)

  function OpText(op: Op): string {
    match op
    case Equal => "="
    case AtLeast => ">="
    case AtMost => "<="
  }

  /** SQL comparison; a comparison with null does not hold. */
  predicate Compares(row: Row, column: string, op: Op, arg: Arg) {
    column in row &&
    match op
    case Equal => row[column] == arg
    case AtLeast => row[column].Number? && arg.Number? && row[column].n >= arg.n
    case AtMost => row[column].Number? && arg.Number? && row[column].n <= arg.n
  }

  // ---------- The requests ----------

  datatype ClustersReq = ClustersReq(
    projectId: int, name: Option<string>, status: Option<string>, location: Option<string>, environmentId: Option<int>,
    serverCount: Option<int>, postgresVersion: Option<int>, createdAtFrom: Option<int>, createdAtTo: Option<int>)

  datatype OperationsReq = OperationsReq(
    projectId: int, startedFrom: int, endedTill: int,
    clusterName: Option<string>, kind: Option<string>, status: Option<string>, environment: Option<string>)

  function Texted(s: Option<string>): Option<Arg> {
    if s.Some? then Some(Text(s.value)) else None
  }

  function Numbered(n: Option<int>): Option<Arg> {
    if n.Some? then Some(Number(n.value)) else None
  }

  function ClusterFilters(req: ClustersReq): seq<Filter> {
    [Filter("cluster_name", Equal, Texted(req.name)),
     Filter("cluster_status", Equal, Texted(req.status)),
     Filter("cluster_location", Equal, Texted(req.location)),
     Filter("environment_id", Equal, Numbered(req.environmentId)),
     Filter("server_count", Equal, Numbered(req.serverCount)),
     Filter("postgres_version", Equal, Numbered(req.postgresVersion)),
     Filter("created_at", AtLeast, Numbered(req.createdAtFrom)),
     Filter("created_at", AtMost, Numbered(req.createdAtTo))]
  }

  function OperationFilters(req: OperationsReq): seq<Filter> {
    [Filter("cluster", Equal, Texted(req.clusterName)),
     Filter("type", Equal, Texted(req.kind)),
     Filter("status", Equal, Texted(req.status)),
     Filter("environment", Equal, Texted(req.environment))]
  }

  // ---------- The builder ----------

  /** One condition of the where clause, with the number of its placeholder. */
  datatype Condition = Condition(column: string, op: Op, placeholder: nat)

  function ConditionText(c: Condition): string {
    " and " + c.column + " " + OpText(c.op) + " $" + PrintNat(c.placeholder)
  }

  /** The conditions of the filters that are given, numbered from a position. */
  function Conditions(filters: seq<Filter>, position: nat): seq<Condition> {
    if filters == [] then []
    else if filters[0].value.None? then Conditions(filters[1..], position)
    else [Condition(filters[0].column, filters[0].op, position)] + Conditions(filters[1..], position + 1)
  }

  function Args(filters: seq<Filter>): seq<Arg> {
    if filters == [] then []
    else if filters[0].value.None? then Args(filters[1..])
    else [filters[0].value.value] + Args(filters[1..])
  }

  function WhereText(conditions: seq<Condition>): string {
    if conditions == [] then "" else ConditionText(conditions[0]) + WhereText(conditions[1..])
  }

  /** The three variables the builders grow step by step. */
  class Builder {
    var extraWhere: string
    var extraArgs: seq<Arg>
    var extraArgsCurPosition: nat

    constructor (args: seq<Arg>)
      ensures extraWhere == "" && extraArgs == args && extraArgsCurPosition == |args| + 1
    {
      extraWhere, extraArgs, extraArgsCurPosition := "", args, |args| + 1;
    }

    /** One `if req.X != nil { ... }`. */
    method Add(column: string, op: Op, value: Option<Arg>)
      modifies this
      ensures var f := [Filter(column, op, value)];
              && extraWhere == old(extraWhere) + WhereText(Conditions(f, old(extraArgsCurPosition)))
              && extraArgs == old(extraArgs) + Args(f)
              && extraArgsCurPosition == old(extraArgsCurPosition) + |Args(f)|
    {
      if value.Some? {
        ghost var c := Condition(column, op, extraArgsCurPosition);
        assert WhereText([c]) == ConditionText(c);
        extraWhere := extraWhere + (" and " + column + " " + OpText(op) + " $" + PrintNat(extraArgsCurPosition));
        extraArgs := extraArgs + [value.value];
        extraArgsCurPosition := extraArgsCurPosition + 1;
      }
    }
  }

  lemma {:induction false} ConditionsAppend(a: seq<Filter>, b: seq<Filter>, position: nat)
    ensures Conditions(a + b, position) == Conditions(a, position) + Conditions(b, position + |Args(a)|)
    ensures Args(a + b) == Args(a) + Args(b)
    decreases |a|
  {
    if a == [] {
      assert a + b == b;
    } else {
      assert (a + b)[0] == a[0] && (a + b)[1..] == a[1..] + b;
      ConditionsAppend(a[1..], b, if a[0].value.None? then position else position + 1);
    }
  }

  lemma {:induction false} WhereTextAppends(a: seq<Condition>, b: seq<Condition>)
    ensures WhereText(a + b) == WhereText(a) + WhereText(b)
    decreases |a|
  {
    if a == [] {
      assert a + b == b;
    } else {
      assert (a + b)[0] == a[0] && (a + b)[1..] == a[1..] + b;
      WhereTextAppends(a[1..], b);
    }
  }

  // ---------- What the text and the arguments mean ----------

  predicate Holds(c: Condition, args: seq<Arg>, row: Row) {
    1 <= c.placeholder <= |args| && Compares(row, c.column, c.op, args[c.placeholder - 1])
  }

  /** The filters that have a value. */
  function Given(filters: seq<Filter>): (given: seq<Filter>)
    ensures forall i | 0 <= i < |given| :: given[i].value.Some?
  {
    if filters == [] then []
    else if filters[0].value.None? then Given(filters[1..])
    else [filters[0]] + Given(filters[1..])
  }

  /** Every filter that is given has one condition on its own column, the numbers run up from the
      position, and the argument a number is bound to is the value of that same filter. */
  lemma {:induction false} ConditionsAreNumbered(filters: seq<Filter>, position: nat)
    ensures var given, conditions, args := Given(filters), Conditions(filters, position), Args(filters);
            |conditions| == |args| == |given| &&
            forall i | 0 <= i < |given| ::
              conditions[i] == Condition(given[i].column, given[i].op, position + i) && args[i] == given[i].value.value
    decreases |filters|
  {
    if filters != [] {
      ConditionsAreNumbered(filters[1..], if filters[0].value.None? then position else position + 1);
    }
  }

  predicate Selects(filters: seq<Filter>, row: Row) {
    forall f | f in filters && f.value.Some? :: Compares(row, f.column, f.op, f.value.value)
  }

  lemma SelectsSplit(f: Filter, rest: seq<Filter>, row: Row)
    ensures Selects([f] + rest, row) <==>
            (f.value.Some? ==> Compares(row, f.column, f.op, f.value.value)) && Selects(rest, row)
  {
    assert ([f] + rest)[0] == f;
    assert forall x | x in rest :: x in [f] + rest;
  }

  lemma HoldsSplit(c: Condition, rest: seq<Condition>, args: seq<Arg>, row: Row)
    ensures (forall x | x in [c] + rest :: Holds(x, args, row)) <==>
            Holds(c, args, row) && forall x | x in rest :: Holds(x, args, row)
  {
    assert ([c] + rest)[0] == c;
    assert forall x | x in rest :: x in [c] + rest;
  }

  /** The conditions built select exactly the rows that every given filter selects. */
  lemma {:induction false} MeaningPreserved(filters: seq<Filter>, before: seq<Arg>, row: Row)
    ensures var conditions, args := Conditions(filters, |before| + 1), before + Args(filters);
            (forall c | c in conditions :: Holds(c, args, row))
              <==> Selects(filters, row)
    decreases |filters|
  {
    if filters != [] {
      var f, rest := filters[0], filters[1..];
      assert filters == [f] + rest;
      SelectsSplit(f, rest, row);
      assert Selects(filters, row) == Selects([f] + rest, row);
      if f.value.None? {
        MeaningPreserved(rest, before, row);
        assert Conditions(filters, |before| + 1) == Conditions(rest, |before| + 1) && Args(filters) == Args(rest);
      } else {
        MeaningPreserved(rest, before + [f.value.value], row);
        assert before + Args(filters) == before + [f.value.value] + Args(rest);
        var c := Condition(f.column, f.op, |before| + 1);
        assert Conditions(filters, |before| + 1) == [c] + Conditions(rest, |before| + 2);
        assert (before + Args(filters))[|before|] == f.value.value;
        HoldsSplit(c, Conditions(rest, |before| + 2), before + Args(filters), row);
      }
    }
  }

  // ---------- Placeholders in the text ----------

  /** The placeholder numbers in a text, from left to right. */
  function Placeholders(s: string): seq<nat>
    decreases |s|
  {
    if s == "" then []
    else if s[0] == '$' && Span(IsDigit, s[1..]) > 0 then
      var n := Span(IsDigit, s[1..]);
      [ParseNat(s[1..][..n])] + Placeholders(s[1..][n..])
    else Placeholders(s[1..])
  }

  predicate IsDollar(c: char) {
    c == '$'
  }

  lemma {:induction false} PlaceholdersSkip(text: string, rest: string)
    requires FreeOf(IsDollar, text)
    ensures Placeholders(text + rest) == Placeholders(rest)
    decreases |text|
  {
    if text == "" {
      assert text + rest == rest;
    } else {
      assert (text + rest)[0] == text[0] && (text + rest)[1..] == text[1..] + rest;
      PlaceholdersSkip(text[1..], rest);
    }
  }

  lemma PlaceholderFirst(n: nat, rest: string)
    requires rest == "" || !IsDigit(rest[0])
    ensures Placeholders("$" + (PrintNat(n) + rest)) == [n] + Placeholders(rest)
  {
    var s := "$" + (PrintNat(n) + rest);
    assert s[1..] == PrintNat(n) + rest;
    SpanOfRun(IsDigit, PrintNat(n), rest);
    assert s[1..][..|PrintNat(n)|] == PrintNat(n) && s[1..][|PrintNat(n)|..] == rest;
    ParsePrintNat(n);
  }

  lemma PlaceholderAfter(text: string, n: nat, rest: string)
    requires FreeOf(IsDollar, text) && (rest == "" || !IsDigit(rest[0]))
    ensures Placeholders(text + ("$" + (PrintNat(n) + rest))) == [n] + Placeholders(rest)
  {
    PlaceholdersSkip(text, "$" + (PrintNat(n) + rest));
    PlaceholderFirst(n, rest);
  }

  predicate PlainFilters(filters: seq<Filter>) {
    forall i | 0 <= i < |filters| :: FreeOf(IsDollar, filters[i].column)
  }

  function UpFrom(a: nat, n: nat): seq<nat> {
    seq(n, i requires 0 <= i < n => a + i)
  }

  /** The where clause uses the numbers from its position on, each once, in order. */
  lemma {:induction false} WherePlaceholders(filters: seq<Filter>, position: nat, rest: string)
    requires PlainFilters(filters) && (rest == "" || !IsDigit(rest[0]))
    ensures Placeholders(WhereText(Conditions(filters, position)) + rest)
         == UpFrom(position, |Args(filters)|) + Placeholders(rest)
    decreases |filters|
  {
    if filters == [] {
      assert "" + rest == rest;
    } else if filters[0].value.None? {
      WherePlaceholders(filters[1..], position, rest);
    } else {
      var c := Condition(filters[0].column, filters[0].op, position);
      WherePlaceholders(filters[1..], position + 1, rest);
      WhereStartsPlain(Conditions(filters[1..], position + 1), rest);
      var more := WhereText(Conditions(filters[1..], position + 1));
      assert WhereText(Conditions(filters, position)) == ConditionText(c) + more by {
        assert Conditions(filters, position) == [c] + Conditions(filters[1..], position + 1);
      }
      OnePlaceholderMore(c, more, rest);
      UpFromFirst(position, |Args(filters[1..])|, Placeholders(rest));
    }
  }

  lemma OnePlaceholderMore(c: Condition, more: string, rest: string)
    requires FreeOf(IsDollar, c.column) && (more + rest == "" || !IsDigit((more + rest)[0]))
    ensures Placeholders((ConditionText(c) + more) + rest) == [c.placeholder] + Placeholders(more + rest)
  {
    assert (ConditionText(c) + more) + rest == ConditionText(c) + (more + rest);
    ConditionPlaceholder(c, more + rest);
  }

  lemma UpFromFirst(a: nat, n: nat, rest: seq<nat>)
    ensures [a] + (UpFrom(a + 1, n) + rest) == UpFrom(a, n + 1) + rest
  {
  }

  lemma WhereStartsPlain(conditions: seq<Condition>, rest: string)
    requires rest == "" || !IsDigit(rest[0])
    ensures var s := WhereText(conditions) + rest; s == "" || !IsDigit(s[0])
  {
    if conditions != [] {
      assert (WhereText(conditions) + rest)[0] == ConditionText(conditions[0])[0] == ' ';
    } else {
      assert "" + rest == rest;
    }
  }

  lemma ConditionPlaceholder(c: Condition, rest: string)
    requires FreeOf(IsDollar, c.column) && (rest == "" || !IsDigit(rest[0]))
    ensures Placeholders(ConditionText(c) + rest) == [c.placeholder] + Placeholders(rest)
  {
    var text := " and " + c.column + " " + OpText(c.op) + " ";
    assert ConditionText(c) + rest == text + ("$" + (PrintNat(c.placeholder) + rest));
    PlaceholderAfter(text, c.placeholder, rest);
  }

  // ---------- Order ----------

  predicate IsComma(c: char) {
    c == ','
  }

  /** The order term of one field of the request, if its column is on the list. */
  function OrderTerm(field: string, columns: map<string, string>): Option<string> {
    if field == "" then None else
      var name := if field[0] == '-' then field[1..] else field;
      if name in columns && columns[name] != ""
      then Some(columns[name] + (if field[0] == '-' then " desc" else " asc"))
      else None
  }

  function OrderTerms(fields: seq<string>, columns: map<string, string>): seq<string> {
    if fields == [] then [] else
      OrderTerms(fields[..|fields| - 1], columns)
      + (var t := OrderTerm(fields[|fields| - 1], columns); if t.Some? then [t.value] else [])
  }

  function OrderText(sortBy: Option<string>, default: string, columns: map<string, string>): string {
    var terms := if sortBy.Some? then OrderTerms(Split(IsComma, sortBy.value), columns) else [];
    if terms == [] then default else Join(terms, ',')
  }

  /** `OrderByConverter`. */
  method OrderByConverter(sortBy: Option<string>, default: string, columns: map<string, string>)
    returns (orderBy: string)
    ensures orderBy == OrderText(sortBy, default, columns)
  {
    orderBy := "";
    if sortBy.Some? {
      var fields := Split(IsComma, sortBy.value);
      for i := 0 to |fields|
        invariant orderBy == Join(OrderTerms(fields[..i], columns), ',')
        invariant orderBy == "" <==> OrderTerms(fields[..i], columns) == []
      {
        OrderTermsGrow(fields, i, columns);
        var sortField, order := fields[i], " asc";
        if sortField != "" {
          if sortField[0] == '-' {
            order, sortField := " desc", sortField[1..];
          }
          var tableField := if sortField in columns then columns[sortField] else "";
          if tableField != "" {
            JoinGrows(OrderTerms(fields[..i], columns), tableField + order, ',');
            orderBy := (if orderBy != "" then orderBy + "," else orderBy) + (tableField + order);
          }
        }
      }
      assert fields[..|fields|] == fields;
    }
    if orderBy == "" {
      orderBy := default;
    }
  }

  lemma OrderTermsGrow(fields: seq<string>, i: nat, columns: map<string, string>)
    requires i < |fields|
    ensures var before, t := OrderTerms(fields[..i], columns), OrderTerm(fields[i], columns);
            OrderTerms(fields[..i + 1], columns) == if t.Some? then before + [t.value] else before
  {
    assert fields[..i + 1][..i] == fields[..i];
  }

  predicate PlainColumns(columns: map<string, string>) {
    forall k | k in columns :: FreeOf(IsComma, columns[k]) && FreeOf(IsDollar, columns[k])
  }

  lemma {:induction false} OrderTermsAreListed(fields: seq<string>, columns: map<string, string>)
    requires PlainColumns(columns)
    ensures forall i | 0 <= i < |OrderTerms(fields, columns)| ::
              var t := OrderTerms(fields, columns)[i];
              FreeOf(IsComma, t) && FreeOf(IsDollar, t)
              && exists k :: k in columns && (t == columns[k] + " asc" || t == columns[k] + " desc")
    decreases |fields|
  {
    if fields != [] {
      OrderTermsAreListed(fields[..|fields| - 1], columns);
    }
  }

  /** Whatever the request says, the order text splits into terms of listed columns, or is the default. */
  lemma OrderIsListed(sortBy: Option<string>, default: string, columns: map<string, string>)
    requires PlainColumns(columns)
    ensures var text := OrderText(sortBy, default, columns);
            || text == default
            || forall i | 0 <= i < |Split(IsComma, text)| ::
                 exists k :: k in columns && Split(IsComma, text)[i] in {columns[k] + " asc", columns[k] + " desc"}
  {
    if sortBy.Some? {
      var terms := OrderTerms(Split(IsComma, sortBy.value), columns);
      OrderTermsAreListed(Split(IsComma, sortBy.value), columns);
      if terms != [] {
        SplitJoin(IsComma, terms, ',');
      }
    }
  }

  // ---------- The two queries ----------

  const SELECT_COUNT := "select count(*) from "
  const SELECT_ALL := "select * from "
  const CLUSTERS_COUNTED := "clusters where " + " project_id = "
  const CLUSTERS_LISTED := "clusters where project_id = "
  const CLUSTER_COUNT := SELECT_COUNT + CLUSTERS_COUNTED
  const CLUSTER_SELECT := SELECT_ALL + CLUSTERS_LISTED
  const CLUSTER_LIVE := " and deleted_at is null"

  const OF_PROJECT := "v_operations where project_id = "
  const OPERATION_COUNT := SELECT_COUNT + OF_PROJECT
  const OPERATION_SELECT := SELECT_ALL + OF_PROJECT
  const OPERATION_STARTED := " and started >= "
  const OPERATION_FINISHED := " and finished <= "

  /** Text with a placeholder after it. */
  function Marked(text: string, n: nat, rest: string): string {
    text + ("$" + (PrintNat(n) + rest))
  }

  /** The order and the page at the end of a query. */
  function Tail(orderBy: string, position: nat): string {
    " order by " + orderBy + Marked(" limit ", position, Marked(" offset ", position + 1, ""))
  }

  function ClusterCountQuery(req: ClustersReq): Query {
    var filters := ClusterFilters(req);
    Query(Marked(CLUSTER_COUNT, 1, CLUSTER_LIVE + WhereText(Conditions(filters, 2))),
          [Number(req.projectId)] + Args(filters))
  }

  function ClusterPageQuery(req: ClustersReq, orderBy: string, limit: int, offset: int): Query {
    var filters := ClusterFilters(req);
    Query(Marked(CLUSTER_SELECT, 1,
                 CLUSTER_LIVE + (WhereText(Conditions(filters, 2)) + Tail(orderBy, 2 + |Args(filters)|))),
          [Number(req.projectId)] + Args(filters) + [Number(limit), Number(offset)])
  }

  function OperationArgs(req: OperationsReq): seq<Arg> {
    [Number(req.projectId), Number(req.startedFrom), Number(req.endedTill)]
  }

  function OperationWhere(head: string, rest: string): string {
    Marked(head, 1, Marked(OPERATION_STARTED, 2, Marked(OPERATION_FINISHED, 3, rest)))
  }

  function OperationCountQuery(req: OperationsReq): Query {
    var filters := OperationFilters(req);
    Query(OperationWhere(OPERATION_COUNT, WhereText(Conditions(filters, 4))), OperationArgs(req) + Args(filters))
  }

  function OperationPageQuery(req: OperationsReq, orderBy: string, limit: int, offset: int): Query {
    var filters := OperationFilters(req);
    Query(OperationWhere(OPERATION_SELECT, WhereText(Conditions(filters, 4)) + Tail(orderBy, 4 + |Args(filters)|)),
          OperationArgs(req) + Args(filters) + [Number(limit), Number(offset)])
  }

  /** One optional filter more, on top of those added before. */
  method AddFilter(b: Builder, ghost before: seq<Filter>, ghost start: seq<Arg>, f: Filter)
    requires b.extraWhere == WhereText(Conditions(before, |start| + 1)) && b.extraArgs == start + Args(before)
    requires b.extraArgsCurPosition == |start| + |Args(before)| + 1
    modifies b
    ensures b.extraWhere == WhereText(Conditions(before + [f], |start| + 1))
            && b.extraArgs == start + Args(before + [f])
    ensures b.extraArgsCurPosition == |start| + |Args(before + [f])| + 1
  {
    WhereOneMore(before, f, |start| + 1);
    ArgsOneMore(before, f, start);
    assert |start| + 1 + |Args(before)| == b.extraArgsCurPosition;
    assert Filter(f.column, f.op, f.value) == f;
    b.Add(f.column, f.op, f.value);
  }

  lemma WhereOneMore(before: seq<Filter>, f: Filter, position: nat)
    ensures WhereText(Conditions(before + [f], position))
         == WhereText(Conditions(before, position)) + WhereText(Conditions([f], position + |Args(before)|))
  {
    var x, y := Conditions(before, position), Conditions([f], position + |Args(before)|);
    ConditionsAppend(before, [f], position);
    WhereTextAppends(x, y);
    assert Conditions(before + [f], position) == x + y;
  }

  lemma ArgsOneMore(before: seq<Filter>, f: Filter, start: seq<Arg>)
    ensures start + Args(before + [f]) == (start + Args(before)) + Args([f])
  {
    ConditionsAppend(before, [f], 0);
    ArgsAssoc(start, Args(before), Args([f]));
  }

  lemma ArgsAssoc(a: seq<Arg>, b: seq<Arg>, c: seq<Arg>)
    ensures a + (b + c) == (a + b) + c
  {
  }

  /** The blocks of `if` statements, one for each optional filter. */
  method AddFilters(b: Builder, ghost start: seq<Arg>, filters: seq<Filter>)
    requires b.extraWhere == "" && b.extraArgs == start && b.extraArgsCurPosition == |start| + 1
    modifies b
    ensures b.extraWhere == WhereText(Conditions(filters, |start| + 1)) && b.extraArgs == start + Args(filters)
    ensures b.extraArgsCurPosition == |start| + |Args(filters)| + 1
  {
    for i := 0 to |filters|
      invariant b.extraWhere == WhereText(Conditions(filters[..i], |start| + 1))
                && b.extraArgs == start + Args(filters[..i])
      invariant b.extraArgsCurPosition == |start| + |Args(filters[..i])| + 1
    {
      assert filters[..i + 1] == filters[..i] + [filters[i]];
      AddFilter(b, filters[..i], start, filters[i]);
    }
    assert filters[..|filters|] == filters;
  }

  /** The two queries of `GetClusters`. */
  method GetClusters(req: ClustersReq, sortBy: Option<string>, columns: map<string, string>, limit: int, offset: int)
    returns (count: Query, page: Query)
    ensures count == ClusterCountQuery(req)
    ensures page == ClusterPageQuery(req, OrderText(sortBy, "cluster_id", columns), limit, offset)
  {
    var b := new Builder([Number(req.projectId)]);
    AddFilters(b, [Number(req.projectId)], ClusterFilters(req));
    count := Query(Marked(CLUSTER_COUNT, 1, CLUSTER_LIVE + b.extraWhere), b.extraArgs);
    var orderBy := OrderByConverter(sortBy, "cluster_id", columns);
    page := Query(Marked(CLUSTER_SELECT, 1, CLUSTER_LIVE + (b.extraWhere + Tail(orderBy, b.extraArgsCurPosition))),
                  b.extraArgs + [Number(limit), Number(offset)]);
  }

  /** The two queries of `GetOperations`. */
  method GetOperations(req: OperationsReq, sortBy: Option<string>, columns: map<string, string>, limit: int,
                       offset: int)
    returns (count: Query, page: Query)
    ensures count == OperationCountQuery(req)
    ensures page == OperationPageQuery(req, OrderText(sortBy, "id desc", columns), limit, offset)
  {
    var b := new Builder(OperationArgs(req));
    AddFilters(b, OperationArgs(req), OperationFilters(req));
    count := Query(OperationWhere(OPERATION_COUNT, b.extraWhere), b.extraArgs);
    var orderBy := OrderByConverter(sortBy, "id desc", columns);
    page := Query(OperationWhere(OPERATION_SELECT, b.extraWhere + Tail(orderBy, b.extraArgsCurPosition)),
                  b.extraArgs + [Number(limit), Number(offset)]);
  }

  // ---------- What the queries promise ----------

  lemma TailPlaceholders(orderBy: string, position: nat)
    requires FreeOf(IsDollar, orderBy)
    ensures Placeholders(Tail(orderBy, position)) == [position, position + 1]
    ensures !IsDigit(Tail(orderBy, position)[0])
  {
    var offset := Marked(" offset ", position + 1, "");
    PlaceholderAfter(" offset ", position + 1, "");
    PlaceholderAfter(" limit ", position, offset);
    PlaceholdersSkip(" order by " + orderBy, Marked(" limit ", position, offset));
    assert Tail(orderBy, position)[0] == ' ';
  }

  lemma PlainConcat(a: string, b: string)
    requires FreeOf(IsDollar, a) && FreeOf(IsDollar, b)
    ensures FreeOf(IsDollar, a + b)
  {
  }

  lemma PlainHeads()
    ensures FreeOf(IsDollar, CLUSTER_COUNT) && FreeOf(IsDollar, CLUSTER_SELECT) && FreeOf(IsDollar, CLUSTER_LIVE)
    ensures FreeOf(IsDollar, OPERATION_COUNT) && FreeOf(IsDollar, OPERATION_SELECT)
    ensures FreeOf(IsDollar, OPERATION_STARTED) && FreeOf(IsDollar, OPERATION_FINISHED)
  {
    PlainConcat(SELECT_COUNT, CLUSTERS_COUNTED);
    PlainConcat(SELECT_ALL, CLUSTERS_LISTED);
    PlainConcat(SELECT_COUNT, OF_PROJECT);
    PlainConcat(SELECT_ALL, OF_PROJECT);
  }

  lemma MarkedBegins(text: string, n: nat, rest: string)
    requires text != ""
    ensures Marked(text, n, rest) != "" && Marked(text, n, rest)[0] == text[0]
  {
  }

  lemma PlainClusterFilters(req: ClustersReq)
    ensures PlainFilters(ClusterFilters(req))
  {
  }

  lemma PlainOperationFilters(req: OperationsReq)
    ensures PlainFilters(OperationFilters(req))
  {
  }

  lemma WherePlaceholdersAlone(filters: seq<Filter>, position: nat)
    requires PlainFilters(filters)
    ensures Placeholders(WhereText(Conditions(filters, position))) == UpFrom(position, |Args(filters)|)
  {
    WherePlaceholders(filters, position, "");
    NothingAppended(WhereText(Conditions(filters, position)), UpFrom(position, |Args(filters)|));
  }

  /** Where and tail together, from their position on. */
  lemma BodyPlaceholders(filters: seq<Filter>, position: nat, orderBy: string)
    requires PlainFilters(filters) && FreeOf(IsDollar, orderBy)
    ensures Placeholders(WhereText(Conditions(filters, position)) + Tail(orderBy, position + |Args(filters)|))
         == UpFrom(position, |Args(filters)| + 2)
  {
    var n := |Args(filters)|;
    TailPlaceholders(orderBy, position + n);
    WherePlaceholders(filters, position, Tail(orderBy, position + n));
    LastTwo(position, n);
  }

  lemma NothingAppended(text: string, numbers: seq<nat>)
    ensures text + "" == text && numbers + Placeholders("") == numbers
  {
  }

  lemma LastTwo(a: nat, n: nat)
    ensures UpFrom(a, n) + [a + n, a + n + 1] == UpFrom(a, n + 2)
  {
  }

  /** For every combination of filters, both cluster queries use the placeholders `$1` to `$n`
      once each, in order, where n is the number of arguments. */
  lemma ClusterPlaceholders(req: ClustersReq, orderBy: string, limit: int, offset: int)
    requires FreeOf(IsDollar, orderBy)
    ensures var count, page := ClusterCountQuery(req), ClusterPageQuery(req, orderBy, limit, offset);
            && Placeholders(count.text) == UpFrom(1, |count.args|)
            && Placeholders(page.text) == UpFrom(1, |page.args|)
            && page.args == count.args + [Number(limit), Number(offset)]
  {
    var filters := ClusterFilters(req);
    PlainHeads();
    PlainClusterFilters(req);
    WherePlaceholdersAlone(filters, 2);
    BodyPlaceholders(filters, 2, orderBy);
    var where := WhereText(Conditions(filters, 2));
    HeadPlaceholder(CLUSTER_COUNT, CLUSTER_LIVE, where);
    HeadPlaceholder(CLUSTER_SELECT, CLUSTER_LIVE, where + Tail(orderBy, 2 + |Args(filters)|));
    FirstOne(|Args(filters)|);
    FirstOne(|Args(filters)| + 2);
  }

  lemma HeadPlaceholder(head: string, live: string, rest: string)
    requires FreeOf(IsDollar, head) && FreeOf(IsDollar, live) && live != "" && !IsDigit(live[0])
    ensures Placeholders(Marked(head, 1, live + rest)) == [1] + Placeholders(rest)
  {
    assert (live + rest)[0] == live[0];
    PlaceholderAfter(head, 1, live + rest);
    PlaceholdersSkip(live, rest);
  }

  lemma OperationPlaceholders(req: OperationsReq, orderBy: string, limit: int, offset: int)
    requires FreeOf(IsDollar, orderBy)
    ensures var count, page := OperationCountQuery(req), OperationPageQuery(req, orderBy, limit, offset);
            && Placeholders(count.text) == UpFrom(1, |count.args|)
            && Placeholders(page.text) == UpFrom(1, |page.args|)
            && page.args == count.args + [Number(limit), Number(offset)]
  {
    var filters := OperationFilters(req);
    PlainHeads();
    PlainOperationFilters(req);
    WherePlaceholdersAlone(filters, 4);
    BodyPlaceholders(filters, 4, orderBy);
    var where, k := WhereText(Conditions(filters, 4)), 4 + |Args(filters)|;
    WhereStartsPlain(Conditions(filters, 4), "");
    assert where + "" == where;
    TailPlaceholders(orderBy, k);
    WhereStartsPlain(Conditions(filters, 4), Tail(orderBy, k));
    HeadPlaceholders(OPERATION_COUNT, OPERATION_STARTED, OPERATION_FINISHED, where);
    HeadPlaceholders(OPERATION_SELECT, OPERATION_STARTED, OPERATION_FINISHED, where + Tail(orderBy, k));
    FirstThree(|Args(filters)|);
    FirstThree(|Args(filters)| + 2);
  }

  lemma HeadPlaceholders(head: string, second: string, third: string, rest: string)
    requires FreeOf(IsDollar, head) && FreeOf(IsDollar, second) && FreeOf(IsDollar, third)
    requires second != "" && third != "" && !IsDigit(second[0]) && !IsDigit(third[0])
    requires rest == "" || !IsDigit(rest[0])
    ensures Placeholders(Marked(head, 1, Marked(second, 2, Marked(third, 3, rest))))
              == [1] + ([2] + ([3] + Placeholders(rest)))
  {
    var text3 := Marked(third, 3, rest);
    var text2 := Marked(second, 2, text3);
    PlaceholderAfter(third, 3, rest);
    MarkedBegins(third, 3, rest);
    PlaceholderAfter(second, 2, text3);
    MarkedBegins(second, 2, text3);
    PlaceholderAfter(head, 1, text2);
  }

  lemma FirstOne(n: nat)
    ensures [1] + UpFrom(2, n) == UpFrom(1, n + 1)
  {
  }

  lemma FirstThree(n: nat)
    ensures [1] + ([2] + ([3] + UpFrom(4, n))) == UpFrom(1, n + 3)
  {
  }

  /** The count and the page select by one predicate: under the arguments of either query, the
      conditions hold of a row exactly when every given filter does. */
  lemma SamePredicate(filters: seq<Filter>, start: seq<Arg>, paging: seq<Arg>, row: Row)
    ensures var conditions := Conditions(filters, |start| + 1);
            && ((forall c | c in conditions :: Holds(c, start + Args(filters), row)) <==> Selects(filters, row))
            && ((forall c | c in conditions :: Holds(c, start + Args(filters) + paging, row))
                <==> Selects(filters, row))
  {
    var conditions, args := Conditions(filters, |start| + 1), start + Args(filters);
    MeaningPreserved(filters, start, row);
    ConditionsAreNumbered(filters, |start| + 1);
    forall c | c in conditions ensures Holds(c, args + paging, row) <==> Holds(c, args, row) {
      assert c.placeholder <= |args|;
    }
  }

  // ---------- Ordered results ----------

  ghost predicate Increasing<T>(rows: seq<T>, key: T -> int) {
    forall i, j | 0 <= i < j < |rows| :: key(rows[i]) < key(rows[j])
  }

  lemma HasElement<T(!new)>(s: seq<T>)
    requires s != []
    ensures exists x :: x in s
  {
    assert s[0] in s;
  }

  /** An order by a unique column leaves the database no choice, so that pages read by different
      queries are pages of one sequence. */
  lemma {:induction false} UniqueOrder<T(!new)>(a: seq<T>, b: seq<T>, key: T -> int)
    requires Increasing(a, key) && Increasing(b, key)
    requires forall x :: x in a <==> x in b
    ensures a == b
    decreases |a|
  {
    if a == [] {
      if b != [] {
        HasElement(b);
        assert false;
      }
    } else if b == [] {
      HasElement(a);
      assert false;
    } else {
      var x, y := a[|a| - 1], b[|b| - 1];
      assert x in b && y in a;
      assert x == y;
      var a', b' := a[..|a| - 1], b[..|b| - 1];
      forall z ensures z in a' <==> z in b' {
        assert z in a' <==> z in a && z != x;
        assert z in b' <==> z in b && z != y;
      }
      UniqueOrder(a', b', key);
    }
  }

  // ---------- Orders with ties ----------

  ghost predicate Sorted<T>(rows: seq<T>, key: T -> int) {
    forall i, j | 0 <= i < j < |rows| :: key(rows[i]) <= key(rows[j])
  }

  function Swapped<T>(rows: seq<T>, k: nat): (other: seq<T>)
    requires k + 1 < |rows|
    ensures multiset(other) == multiset(rows)
  {
    rows[k := rows[k + 1]][k + 1 := rows[k]]
  }

  /** Two neighbours that tie in the key may be exchanged from one query to the next: then the
      page of one row at k and the page of one row at k + 1 show the same row, and the other is
      in neither. */
  lemma TiesLoseRows<T>(rows: seq<T>, key: T -> int, k: nat)
    requires Sorted(rows, key) && k + 1 < |rows| && key(rows[k]) == key(rows[k + 1]) && rows[k] != rows[k + 1]
    ensures var other := Swapped(rows, k);
            && Sorted(other, key) && multiset(other) == multiset(rows) && other != rows
            && Page(rows, 1, k) + Page(other, 1, k + 1) == [rows[k], rows[k]]
  {
    var other := Swapped(rows, k);
    forall i, j | 0 <= i < j < |rows| ensures key(other[i]) <= key(other[j]) {
      var i' := if i == k then k + 1 else if i == k + 1 then k else i;
      var j' := if j == k then k + 1 else if j == k + 1 then k else j;
      assert other[i] == rows[i'] && other[j] == rows[j'];
    }
  }

  ghost predicate OnlyOrder<T(!new)>(rows: seq<T>, key: T -> int) {
    forall other: seq<T> | Sorted(other, key) && multiset(other) == multiset(rows) :: other == rows
  }

  /** A result of different rows is the only one in its order exactly if no two of its rows tie. */
  lemma OnlyOrderIffUnique<T(!new)>(rows: seq<T>, key: T -> int)
    requires Sorted(rows, key) && forall i, j | 0 <= i < j < |rows| :: rows[i] != rows[j]
    ensures OnlyOrder(rows, key) <==> Increasing(rows, key)
  {
    if Increasing(rows, key) {
      forall other: seq<T> | Sorted(other, key) && multiset(other) == multiset(rows) ensures other == rows {
        PermutedIncreases(rows, other, key);
        UniqueOrder(rows, other, key);
      }
    } else {
      var i, j :| 0 <= i < j < |rows| && key(rows[i]) >= key(rows[j]);
      assert key(rows[i]) <= key(rows[i + 1]) <= key(rows[j]);
      TiesLoseRows(rows, key, i);
    }
  }

  lemma PermutedIncreases<T(!new)>(rows: seq<T>, other: seq<T>, key: T -> int)
    requires Increasing(rows, key) && Sorted(other, key) && multiset(other) == multiset(rows)
    ensures Increasing(other, key) && forall x :: x in rows <==> x in other
  {
    forall x ensures x in rows <==> x in other {
      assert x in rows <==> x in multiset(rows);
      assert x in other <==> x in multiset(other);
    }
    forall i, j | 0 <= i < j < |other| ensures key(other[i]) < key(other[j]) {
      assert other[i] in rows && other[j] in rows;
      TwiceIfEqual(other, i, j);
      OnceInMultiset(rows, other[i], key);
    }
  }

  lemma TwiceIfEqual<T>(s: seq<T>, i: nat, j: nat)
    requires i < j < |s|
    ensures s[i] == s[j] ==> multiset(s)[s[i]] >= 2
  {
    var front, rest := s[..j], s[j + 1..];
    assert s == front + [s[j]] + rest;
    assert front[i] == s[i] && s[i] in multiset(front);
  }

  lemma {:induction false} OnceInMultiset<T>(rows: seq<T>, x: T, key: T -> int)
    requires Increasing(rows, key)
    ensures multiset(rows)[x] <= 1
    decreases |rows|
  {
    if rows != [] {
      var front, last := rows[..|rows| - 1], rows[|rows| - 1];
      assert rows == front + [last];
      OnceInMultiset(front, x, key);
      forall i | 0 <= i < |front| ensures front[i] != last {
        assert key(rows[i]) < key(rows[|rows| - 1]);
      }
      assert last !in multiset(front);
    }
  }
}
