/**
 What the list queries mean: their texts, read as SQL under their arguments, select the rows that the
 fields of the request ask for, in the order asked for, and page by page the whole table.
 */
module QueryMeaning {
  import opened Wrappers
  import opened Decimal
  import opened Paging
  import opened QueryBuilder
  import opened SqlText
  import opened Texts

  // ---------- What a request asks for ----------

  predicate TextIs(row: Row, column: string, wanted: Option<string>) {
    wanted.Some? ==> column in row && row[column] == Text(wanted.value)
  }

  predicate NumberIs(row: Row, column: string, wanted: Option<int>) {
    wanted.Some? ==> column in row && row[column] == Number(wanted.value)
  }

  predicate Between(row: Row, column: string, from: Option<int>, to: Option<int>) {
    && (from.Some? ==> column in row && row[column].Number? && from.value <= row[column].n)
    && (to.Some? ==> column in row && row[column].Number? && row[column].n <= to.value)
  }

  /** A cluster of the project that is not deleted and has, column by column, what the request gives. */
  predicate ClusterMatches(req: ClustersReq, row: Row) {
    && "project_id" in row && row["project_id"] == Number(req.projectId)
    && "deleted_at" !in row
    && TextIs(row, "cluster_name", req.name)
    && TextIs(row, "cluster_status", req.status)
    && TextIs(row, "cluster_location", req.location)
    && NumberIs(row, "environment_id", req.environmentId)
    && NumberIs(row, "server_count", req.serverCount)
    && NumberIs(row, "postgres_version", req.postgresVersion)
    && Between(row, "created_at", req.createdAtFrom, req.createdAtTo)
  }

  /** An operation of the project, started and finished in the given period, that has what the request
      gives; one that has not finished has no end to compare. */
  predicate OperationMatches(req: OperationsReq, row: Row) {
    && "project_id" in row && row["project_id"] == Number(req.projectId)
    && Between(row, "started", Some(req.startedFrom), None)
    && Between(row, "finished", None, Some(req.endedTill))
    && TextIs(row, "cluster", req.clusterName)
    && TextIs(row, "type", req.kind)
    && TextIs(row, "status", req.status)
    && TextIs(row, "environment", req.environment)
  }

  predicate Passes(f: Filter, row: Row) {
    f.value.Some? ==> Compares(row, f.column, f.op, f.value.value)
  }

  lemma SelectsByIndex(filters: seq<Filter>, row: Row)
    ensures Selects(filters, row) <==> forall i | 0 <= i < |filters| :: Passes(filters[i], row)
  {
    forall f | f in filters && f.value.Some? && forall i | 0 <= i < |filters| :: Passes(filters[i], row)
      ensures Compares(row, f.column, f.op, f.value.value)
    {
      var i :| 0 <= i < |filters| && filters[i] == f;
      assert Passes(filters[i], row);
    }
  }

  lemma TextPasses(row: Row, column: string, wanted: Option<string>)
    ensures Passes(Filter(column, Equal, Texted(wanted)), row) <==> TextIs(row, column, wanted)
  {
  }

  lemma NumberPasses(row: Row, column: string, wanted: Option<int>)
    ensures Passes(Filter(column, Equal, Numbered(wanted)), row) <==> NumberIs(row, column, wanted)
  {
  }

  lemma RangePasses(row: Row, column: string, from: Option<int>, to: Option<int>)
    ensures Passes(Filter(column, AtLeast, Numbered(from)), row) && Passes(Filter(column, AtMost, Numbered(to)), row)
            <==> Between(row, column, from, to)
  {
  }

  /** The filters ask for what the fields of the request ask for. */
  lemma ClusterFiltersMean(req: ClustersReq, row: Row)
    ensures ClusterMatches(req, row) <==>
            "project_id" in row && row["project_id"] == Number(req.projectId) && "deleted_at" !in row
            && Selects(ClusterFilters(req), row)
  {
    var filters := ClusterFilters(req);
    SelectsByIndex(filters, row);
    TextPasses(row, "cluster_name", req.name);
    TextPasses(row, "cluster_status", req.status);
    TextPasses(row, "cluster_location", req.location);
    NumberPasses(row, "environment_id", req.environmentId);
    NumberPasses(row, "server_count", req.serverCount);
    NumberPasses(row, "postgres_version", req.postgresVersion);
    RangePasses(row, "created_at", req.createdAtFrom, req.createdAtTo);
    assert Selects(filters, row) <==>
           Passes(filters[0], row) && Passes(filters[1], row) && Passes(filters[2], row) && Passes(filters[3], row)
           && Passes(filters[4], row) && Passes(filters[5], row) && Passes(filters[6], row) && Passes(filters[7], row);
  }

  lemma OperationFiltersMean(req: OperationsReq, row: Row)
    ensures OperationMatches(req, row) <==>
            "project_id" in row && row["project_id"] == Number(req.projectId)
            && Between(row, "started", Some(req.startedFrom), None)
            && Between(row, "finished", None, Some(req.endedTill))
            && Selects(OperationFilters(req), row)
  {
    var filters := OperationFilters(req);
    SelectsByIndex(filters, row);
    TextPasses(row, "cluster", req.clusterName);
    TextPasses(row, "type", req.kind);
    TextPasses(row, "status", req.status);
    TextPasses(row, "environment", req.environment);
    assert Selects(filters, row) <==>
           Passes(filters[0], row) && Passes(filters[1], row) && Passes(filters[2], row) && Passes(filters[3], row);
  }

  // ---------- The texts, read ----------

  function ClauseOf(c: Condition): Clause {
    Comparison(c.column, OpText(c.op), c.placeholder)
  }

  function ClausesOf(conditions: seq<Condition>): seq<Clause> {
    if conditions == [] then [] else [ClauseOf(conditions[0])] + ClausesOf(conditions[1..])
  }

  predicate IsName(column: string) {
    column != "" && IsPlain(column)
  }

  /** Three words behind a space, and a placeholder. */
  lemma ThreeWords(a: string, b: string, c: string, n: nat, rest: string)
    requires IsName(a) && IsName(b) && IsName(c) && (rest == "" || !IsWordChar(rest[0]))
    ensures Tokens((" " + Spaced([a, b, c])) + ("$" + (PrintNat(n) + rest))) == [a, b, c] + ([Dollar(n)] + Tokens(rest))
  {
    var words := [a, b, c];
    assert Spaced([""] + words) == " " + Spaced(words) by {
      assert ([""] + words)[1..] == words;
    }
    TokensOfMarked([""] + words, n, rest);
    NonEmptyOfNames(words);
  }

  lemma SpacedThree(a: string, b: string, c: string)
    ensures Spaced([a, b, c]) == a + (" " + (b + (" " + (c + " "))))
  {
    assert [a, b, c][1..] == [b, c] && [b, c][1..] == [c];
    assert Spaced([c]) == c + " ";
  }

  lemma ConditionWords(c: Condition, rest: string)
    ensures ConditionText(c) + rest
         == (" " + ("and" + (" " + (c.column + (" " + (OpText(c.op) + " "))))))
            + ("$" + (PrintNat(c.placeholder) + rest))
  {
  }

  lemma FirstOfThree(a: string, b: string, c: string, d: string, rest: seq<string>)
    ensures [a, b, c] + ([d] + rest) == [a] + ([b, c, d] + rest)
  {
  }

  /** A space, three words and a placeholder, put together. */
  lemma WordsAndNumber(text: string, a: string, b: string, c: string, n: nat, rest: string)
    requires text == (" " + (a + (" " + (b + (" " + (c + " ")))))) + ("$" + (PrintNat(n) + rest))
    requires IsName(a) && IsName(b) && IsName(c) && (rest == "" || !IsWordChar(rest[0]))
    ensures Tokens(text) == [a] + ([b, c, Dollar(n)] + Tokens(rest))
  {
    SpacedThree(a, b, c);
    ThreeWords(a, b, c, n, rest);
    FirstOfThree(a, b, c, Dollar(n), Tokens(rest));
  }

  lemma ConditionTokens(c: Condition, rest: string)
    requires IsName(c.column) && (rest == "" || !IsWordChar(rest[0]))
    ensures Tokens(ConditionText(c) + rest) == ["and"] + (ClauseTokens(ClauseOf(c)) + Tokens(rest))
  {
    ConditionWords(c, rest);
    WordsAndNumber(ConditionText(c) + rest, "and", c.column, OpText(c.op), c.placeholder, rest);
  }

  lemma WhereBegins(conditions: seq<Condition>, rest: string)
    requires rest == "" || !IsWordChar(rest[0])
    ensures var s := WhereText(conditions) + rest; s == "" || !IsWordChar(s[0])
  {
    if conditions == [] {
      assert WhereText(conditions) + rest == rest;
    } else {
      assert (WhereText(conditions) + rest)[0] == ConditionText(conditions[0])[0] == ' ';
    }
  }

  lemma OneConditionMore(c: Condition, clauses: seq<Clause>, more: string, rest: seq<string>)
    requires IsName(c.column) && (more == "" || !IsWordChar(more[0]))
    requires Tokens(more) == AndTokens(clauses) + rest
    ensures Tokens(ConditionText(c) + more) == AndTokens([ClauseOf(c)] + clauses) + rest
  {
    ConditionTokens(c, more);
    AndTokensGrow(ClauseOf(c), clauses, rest);
  }

  lemma Regroup<T>(a: seq<T>, b: seq<T>, c: seq<T>)
    ensures (a + b) + c == a + (b + c)
  {
  }

  lemma WhereSplits(conditions: seq<Condition>, rest: string)
    requires conditions != []
    ensures WhereText(conditions) + rest == ConditionText(conditions[0]) + (WhereText(conditions[1..]) + rest)
    ensures ClausesOf(conditions) == [ClauseOf(conditions[0])] + ClausesOf(conditions[1..])
  {
    Regroup(ConditionText(conditions[0]), WhereText(conditions[1..]), rest);
  }

  lemma {:induction false} WhereTokens(conditions: seq<Condition>, rest: string)
    requires (forall c | c in conditions :: IsName(c.column)) && (rest == "" || !IsWordChar(rest[0]))
    ensures Tokens(WhereText(conditions) + rest) == AndTokens(ClausesOf(conditions)) + Tokens(rest)
    decreases |conditions|
  {
    if conditions == [] {
      assert WhereText(conditions) + rest == rest;
    } else {
      WhereSplits(conditions, rest);
      WhereBegins(conditions[1..], rest);
      WhereTokens(conditions[1..], rest);
      OneConditionMore(conditions[0], ClausesOf(conditions[1..]), WhereText(conditions[1..]) + rest, Tokens(rest));
    }
  }

  lemma AndTokensGrow(clause: Clause, more: seq<Clause>, rest: seq<string>)
    ensures ["and"] + (ClauseTokens(clause) + (AndTokens(more) + rest)) == AndTokens([clause] + more) + rest
  {
    assert ([clause] + more)[1..] == more;
  }

  // ---------- Heads and tails ----------

  predicate IsPhrase(text: string, words: seq<string>) {
    text == Spaced(words) && PlainWords(words) && "" !in words
  }

  lemma PhraseTokens(text: string, words: seq<string>, rest: string)
    requires IsPhrase(text, words)
    ensures Tokens(text + rest) == words + Tokens(rest)
  {
    TokensOfSpaced(words, rest);
    NonEmptyOfNames(words);
  }

  predicate Names(words: seq<string>) {
    PlainWords(words) && "" !in words
  }

  /** Two phrases and a placeholder. */
  lemma TwoPhrases(text: string, x: seq<string>, y: seq<string>, n: nat, rest: string)
    requires text == Spaced(x) + Spaced(y) && Names(x) && Names(y) && (rest == "" || !IsWordChar(rest[0]))
    ensures Tokens(Marked(text, n, rest)) == (x + y) + ([Dollar(n)] + Tokens(rest))
  {
    var number := "$" + (PrintNat(n) + rest);
    Regroup(Spaced(x), Spaced(y), number);
    PhraseTokens(Spaced(x), x, Spaced(y) + number);
    TokensOfMarked(y, n, rest);
    NonEmptyOfNames(y);
    Regroup(x, y, [Dollar(n)] + Tokens(rest));
  }

  /** The same, with a space more before the last phrase. */
  lemma ThreePhrases(text: string, x: seq<string>, y: seq<string>, z: seq<string>, n: nat, rest: string)
    requires text == Spaced(x) + (Spaced(y) + (" " + Spaced(z))) && Names(x) && Names(y) && Names(z)
    requires rest == "" || !IsWordChar(rest[0])
    ensures Tokens(Marked(text, n, rest)) == (x + (y + z)) + ([Dollar(n)] + Tokens(rest))
  {
    var number := "$" + (PrintNat(n) + rest);
    var last := Spaced(z) + number;
    Regroup(Spaced(x), Spaced(y) + (" " + Spaced(z)), number);
    Regroup(Spaced(y), " " + Spaced(z), number);
    Regroup(" ", Spaced(z), number);
    PhraseTokens(Spaced(x), x, Spaced(y) + (" " + last));
    PhraseTokens(Spaced(y), y, " " + last);
    TokensOfSpace(last);
    TokensOfMarked(z, n, rest);
    NonEmptyOfNames(z);
    Regroup(y, z, [Dollar(n)] + Tokens(rest));
    Regroup(x, y + z, [Dollar(n)] + Tokens(rest));
  }

  /** The seven words a query begins with, and the number of the project's placeholder. */
  lemma SevenWords(text: string, a: string, b: string, c: string, d: string, e: string, f: string, g: string,
                   rest: string)
    requires || text == Spaced([a, b, c]) + Spaced([d, e, f, g])
             || text == Spaced([a, b, c]) + (Spaced([d, e]) + (" " + Spaced([f, g])))
    requires rest == "" || !IsWordChar(rest[0])
    requires IsName(a) && IsName(b) && IsName(c) && IsName(d) && IsName(e) && IsName(f) && IsName(g)
    ensures Tokens(Marked(text, 1, rest)) == [a, b, c, d, e, f, g] + ([Dollar(1)] + Tokens(rest))
  {
    if text == Spaced([a, b, c]) + Spaced([d, e, f, g]) {
      TwoPhrases(text, [a, b, c], [d, e, f, g], 1, rest);
      assert [a, b, c] + [d, e, f, g] == [a, b, c, d, e, f, g];
    } else {
      ThreePhrases(text, [a, b, c], [d, e], [f, g], 1, rest);
      assert [a, b, c] + ([d, e] + [f, g]) == [a, b, c, d, e, f, g];
    }
  }

  lemma SelectCountPhrase()
    ensures SELECT_COUNT == Spaced(["select", "count(*)", "from"])
  {
  }

  lemma SelectAllPhrase()
    ensures SELECT_ALL == Spaced(["select", "*", "from"])
  {
  }

  lemma ClustersListedPhrase()
    ensures CLUSTERS_LISTED == Spaced(["clusters", "where", "project_id", "="])
  {
  }

  lemma ClustersWherePhrase()
    ensures "clusters where " == Spaced(["clusters", "where"])
  {
  }

  lemma ProjectPhrase()
    ensures " project_id = " == " " + Spaced(["project_id", "="])
  {
  }

  lemma ClustersCountedPhrase()
    ensures CLUSTERS_COUNTED == Spaced(["clusters", "where"]) + (" " + Spaced(["project_id", "="]))
  {
    ClustersWherePhrase();
    ProjectPhrase();
  }

  lemma OfProjectPhrase()
    ensures OF_PROJECT == Spaced(["v_operations", "where", "project_id", "="])
  {
  }

  lemma StartedPhrase()
    ensures OPERATION_STARTED == " " + Spaced(["and", "started", ">="])
  {
  }

  lemma FinishedPhrase()
    ensures OPERATION_FINISHED == " " + Spaced(["and", "finished", "<="])
  {
  }

  lemma LivePhrase()
    ensures CLUSTER_LIVE == " " + (("and" + (" " + ("deleted_at" + (" " + ("is" + " "))))) + "null")
  {
  }

  /** Four words behind a space. */
  lemma FourWords(text: string, a: string, b: string, c: string, d: string, rest: string)
    requires text == " " + ((a + (" " + (b + (" " + (c + " "))))) + d) && (rest == "" || !IsWordChar(rest[0]))
    requires IsName(a) && IsName(b) && IsName(c) && IsName(d)
    ensures Tokens(text + rest) == [a, b, c, d] + Tokens(rest)
  {
    SpacedThree(a, b, c);
    assert text + rest == " " + (Spaced([a, b, c]) + (d + rest));
    TokensOfSpace(Spaced([a, b, c]) + (d + rest));
    PhraseTokens(Spaced([a, b, c]), [a, b, c], d + rest);
    TokensOfWord(d, rest);
  }

  lemma LiveTokens(rest: string)
    requires rest == "" || !IsWordChar(rest[0])
    ensures Tokens(CLUSTER_LIVE + rest) == ["and", "deleted_at", "is", "null"] + Tokens(rest)
  {
    LivePhrase();
    FourWords(CLUSTER_LIVE, "and", "deleted_at", "is", "null", rest);
  }

  lemma ClusterCountHead(rest: string)
    requires rest == "" || !IsWordChar(rest[0])
    ensures Tokens(Marked(CLUSTER_COUNT, 1, rest))
         == ["select", "count(*)", "from", "clusters", "where", "project_id", "="] + ([Dollar(1)] + Tokens(rest))
  {
    SelectCountPhrase();
    ClustersCountedPhrase();
    SevenWords(CLUSTER_COUNT, "select", "count(*)", "from", "clusters", "where", "project_id", "=", rest);
  }

  lemma ClusterPageHead(rest: string)
    requires rest == "" || !IsWordChar(rest[0])
    ensures Tokens(Marked(CLUSTER_SELECT, 1, rest))
         == ["select", "*", "from", "clusters", "where", "project_id", "="] + ([Dollar(1)] + Tokens(rest))
  {
    SelectAllPhrase();
    ClustersListedPhrase();
    SevenWords(CLUSTER_SELECT, "select", "*", "from", "clusters", "where", "project_id", "=", rest);
  }

  lemma OperationCountHead(rest: string)
    requires rest == "" || !IsWordChar(rest[0])
    ensures Tokens(Marked(OPERATION_COUNT, 1, rest))
         == ["select", "count(*)", "from", "v_operations", "where", "project_id", "="] + ([Dollar(1)] + Tokens(rest))
  {
    SelectCountPhrase();
    OfProjectPhrase();
    SevenWords(OPERATION_COUNT, "select", "count(*)", "from", "v_operations", "where", "project_id", "=", rest);
  }

  lemma OperationPageHead(rest: string)
    requires rest == "" || !IsWordChar(rest[0])
    ensures Tokens(Marked(OPERATION_SELECT, 1, rest))
         == ["select", "*", "from", "v_operations", "where", "project_id", "="] + ([Dollar(1)] + Tokens(rest))
  {
    SelectAllPhrase();
    OfProjectPhrase();
    SevenWords(OPERATION_SELECT, "select", "*", "from", "v_operations", "where", "project_id", "=", rest);
  }

  lemma SixWords(first: string, a: string, b: string, c: string, second: string, d: string, e: string, f: string,
                 rest: string)
    requires first == " " + Spaced([a, b, c]) && second == " " + Spaced([d, e, f])
    requires IsName(a) && IsName(b) && IsName(c) && IsName(d) && IsName(e) && IsName(f)
    requires rest == "" || !IsWordChar(rest[0])
    ensures Tokens(Marked(first, 2, Marked(second, 3, rest)))
         == [a, b, c] + ([Dollar(2)] + ([d, e, f] + ([Dollar(3)] + Tokens(rest))))
  {
    ThreeWords(d, e, f, 3, rest);
    assert Marked(second, 3, rest)[0] == ' ';
    ThreeWords(a, b, c, 2, Marked(second, 3, rest));
  }

  lemma PeriodTokens(rest: string)
    requires rest == "" || !IsWordChar(rest[0])
    ensures Tokens(Marked(OPERATION_STARTED, 2, Marked(OPERATION_FINISHED, 3, rest)))
         == ["and", "started", ">="] + ([Dollar(2)] + (["and", "finished", "<="] + ([Dollar(3)] + Tokens(rest))))
  {
    StartedPhrase();
    FinishedPhrase();
    SixWords(OPERATION_STARTED, "and", "started", ">=", OPERATION_FINISHED, "and", "finished", "<=", rest);
  }

  // ---------- The order, read ----------

  /** The key one field of the request asks for: a listed column, descending behind a minus sign. */
  function FieldKey(field: string, columns: map<string, string>): Option<Key> {
    var descending := field != "" && field[0] == '-';
    var name := if descending then field[1..] else field;
    if field != "" && name in columns && columns[name] != "" then Some(Key(columns[name], descending)) else None
  }

  function FieldKeys(fields: seq<string>, columns: map<string, string>): seq<Key> {
    if fields == [] then [] else
      FieldKeys(fields[..|fields| - 1], columns)
      + (var key := FieldKey(fields[|fields| - 1], columns); if key.Some? then [key.value] else [])
  }

  /** The keys a request asks for, or the default. */
  function OrderKeys(sortBy: Option<string>, default: Key, columns: map<string, string>): (keys: seq<Key>)
    ensures keys != []
  {
    var keys := if sortBy.Some? then FieldKeys(Split(IsComma, sortBy.value), columns) else [];
    if keys == [] then [default] else keys
  }

  predicate NamedColumns(columns: map<string, string>) {
    forall k | k in columns :: IsPlain(columns[k])
  }

  function TermOf(key: Key): string {
    key.column + (if key.descending then " desc" else " asc")
  }

  function TermsOf(keys: seq<Key>): (terms: seq<string>)
    ensures |terms| == |keys|
  {
    seq(|keys|, i requires 0 <= i < |keys| => TermOf(keys[i]))
  }

  lemma {:induction false} TermsAreKeys(fields: seq<string>, columns: map<string, string>)
    requires NamedColumns(columns)
    ensures OrderTerms(fields, columns) == TermsOf(FieldKeys(fields, columns))
    ensures forall key | key in FieldKeys(fields, columns) :: IsName(key.column)
    decreases |fields|
  {
    if fields == [] {
      assert TermsOf([]) == [];
    } else {
      var front, last := fields[..|fields| - 1], fields[|fields| - 1];
      TermsAreKeys(front, columns);
      var key := FieldKey(last, columns);
      assert OrderTerm(last, columns) == if key.Some? then Some(TermOf(key.value)) else None;
      if key.Some? {
        var keys := FieldKeys(front, columns);
        assert TermsOf(keys + [key.value]) == TermsOf(keys) + [TermOf(key.value)];
      }
    }
  }

  lemma TwoWords(a: string, led: string, b: string, rest: string)
    requires led == " " + b && IsName(a) && IsName(b) && (rest == "" || !IsWordChar(rest[0]))
    ensures Tokens((a + led) + rest) == [a, b] + Tokens(rest)
  {
    assert (a + led) + rest == a + (" " + (b + rest));
    TokensOfWordAndSpace(a, b + rest);
    TokensOfWord(b, rest);
  }

  lemma TermTokens(key: Key, rest: string)
    requires IsName(key.column) && (rest == "" || !IsWordChar(rest[0]))
    ensures Tokens(TermOf(key) + rest) == KeyTokens(key) + Tokens(rest)
  {
    if key.descending {
      TwoWords(key.column, " desc", "desc", rest);
    } else {
      TwoWords(key.column, " asc", "asc", rest);
    }
  }

  lemma {:induction false} TermsTokens(keys: seq<Key>, rest: string)
    requires keys != [] && (forall key | key in keys :: IsName(key.column)) && (rest == "" || !IsWordChar(rest[0]))
    ensures Tokens(Join(TermsOf(keys), ',') + rest) == OrderTokens(keys) + Tokens(rest)
    decreases |keys|
  {
    if |keys| == 1 {
      TermTokens(keys[0], rest);
    } else {
      var more := Join(TermsOf(keys[1..]), ',') + rest;
      assert TermsOf(keys)[1..] == TermsOf(keys[1..]);
      assert Join(TermsOf(keys), ',') + rest == TermOf(keys[0]) + ("," + more);
      TermTokens(keys[0], "," + more);
      TokensOfComma(more);
      TermsTokens(keys[1..], rest);
      OrderTokensGrow(keys, Tokens(rest));
    }
  }

  function LimitText(p: nat): string {
    Marked(" limit ", p, Marked(" offset ", p + 1, ""))
  }

  lemma LedWord(text: string, word: string, n: nat, rest: string)
    requires text == " " + (word + " ") && IsName(word) && (rest == "" || !IsWordChar(rest[0]))
    ensures Tokens(Marked(text, n, rest)) == [word] + ([Dollar(n)] + Tokens(rest))
  {
    var number := Dollar(n) + rest;
    assert Marked(text, n, rest) == " " + (word + (" " + number));
    TokensOfSpace(word + (" " + number));
    TokensOfWordAndSpace(word, number);
    DollarIsPlaceholder(n);
    TokensOfWord(Dollar(n), rest);
  }

  lemma LimitTokens(p: nat)
    ensures Tokens(LimitText(p)) == ["limit", Dollar(p), "offset", Dollar(p + 1)]
    ensures LimitText(p)[0] == ' '
  {
    LedWord(" offset ", "offset", p + 1, "");
    assert Marked(" offset ", p + 1, "")[0] == ' ';
    LedWord(" limit ", "limit", p, Marked(" offset ", p + 1, ""));
  }

  lemma TailTokens(orderBy: string, p: nat)
    ensures Tokens(Tail(orderBy, p)) == ["order", "by"] + Tokens(orderBy + LimitText(p))
  {
    OrderPhrase();
    LedPhrase(" order by ", "order", "by", orderBy + LimitText(p));
    assert Tail(orderBy, p) == " order by " + (orderBy + LimitText(p));
  }

  lemma OrderPhrase()
    ensures " order by " == " " + Spaced(["order", "by"])
  {
  }

  lemma LedPhrase(text: string, a: string, b: string, rest: string)
    requires text == " " + Spaced([a, b]) && IsName(a) && IsName(b)
    ensures Tokens(text + rest) == [a, b] + Tokens(rest)
  {
    assert text + rest == " " + (Spaced([a, b]) + rest);
    TokensOfSpace(Spaced([a, b]) + rest);
    PhraseTokens(Spaced([a, b]), [a, b], rest);
  }

  /** An order text, with the page behind it, reads as some keys. */
  predicate ReadsAs(orderBy: string, p: nat, keys: seq<Key>) {
    ReadOrder(Tokens(orderBy + LimitText(p))) == Order(keys, Tokens(LimitText(p)))
  }

  lemma OrderTextRead(sortBy: Option<string>, text: string, default: Key, columns: map<string, string>, p: nat)
    requires NamedColumns(columns) && ReadsAs(text, p, [default])
    ensures ReadsAs(OrderText(sortBy, text, columns), p, OrderKeys(sortBy, default, columns))
  {
    if sortBy.Some? {
      var keys := FieldKeys(Split(IsComma, sortBy.value), columns);
      TermsAreKeys(Split(IsComma, sortBy.value), columns);
      if keys != [] {
        LimitTokens(p);
        TermsTokens(keys, LimitText(p));
        OrderReadsBack(keys, Tokens(LimitText(p)));
      }
    }
  }

  lemma ClusterDefaultRead(p: nat)
    ensures ReadsAs("cluster_id", p, [Key("cluster_id", false)])
  {
    LimitTokens(p);
    TokensOfWord("cluster_id", LimitText(p));
    NoDirection("cluster_id", Tokens(LimitText(p)));
  }

  lemma NoDirection(column: string, rest: seq<string>)
    requires rest != [] && rest[0] !in {"asc", "desc", ","}
    ensures ReadOrder([column] + rest) == Order([Key(column, false)], rest)
  {
    assert ([column] + rest)[1..] == rest;
  }

  lemma OperationDefaultRead(p: nat)
    ensures ReadsAs("id desc", p, [Key("id", true)])
  {
    LimitTokens(p);
    assert TermOf(Key("id", true)) == "id desc";
    TermTokens(Key("id", true), LimitText(p));
    OrderReadsBack([Key("id", true)], Tokens(LimitText(p)));
  }

  lemma TailRead(select: Select, orderBy: string, p: nat, keys: seq<Key>)
    requires ReadsAs(orderBy, p, keys)
    ensures ReadTail(select, Tokens(Tail(orderBy, p))) == Some(select.(order := keys, paging := [p, p + 1]))
    ensures Tokens(Tail(orderBy, p)) != [] && Tokens(Tail(orderBy, p))[0] != "and"
  {
    TailTokens(orderBy, p);
    LimitTokens(p);
    DollarIsPlaceholder(p);
    DollarIsPlaceholder(p + 1);
    var tokens := Tokens(Tail(orderBy, p));
    assert tokens[2..] == Tokens(orderBy + LimitText(p));
  }

  // ---------- The queries, read ----------

  predicate Follows(tokens: seq<string>) {
    tokens == [] || tokens[0] != "and"
  }

  /** A query on the rows of a project, with its other clauses and what follows them. */
  lemma ReadSeven(what: string, table: string, more: seq<Clause>, rest: seq<string>)
    requires (forall clause | clause in more :: Readable(clause)) && Follows(rest)
    ensures ReadTokens(["select", what, "from", table, "where", "project_id", "="]
                       + ([Dollar(1)] + (AndTokens(more) + rest)))
         == ReadTail(Select(what, table, [Comparison("project_id", "=", 1)] + more, [], []), rest)
  {
    var first := Comparison("project_id", "=", 1);
    var tokens := ["select", what, "from", table, "where", "project_id", "="]
                  + ([Dollar(1)] + (AndTokens(more) + rest));
    WhereReadsBack(first, more, rest);
    assert tokens[5..] == ClauseTokens(first) + (AndTokens(more) + rest);
  }

  lemma {:induction false} ClausesAreReadable(conditions: seq<Condition>)
    ensures forall clause | clause in ClausesOf(conditions) :: Readable(clause)
    decreases |conditions|
  {
    if conditions != [] {
      ClausesAreReadable(conditions[1..]);
    }
  }

  lemma {:induction false} ConditionsAreNamed(filters: seq<Filter>, position: nat)
    requires forall f | f in filters :: IsName(f.column)
    ensures forall c | c in Conditions(filters, position) :: IsName(c.column)
    decreases |filters|
  {
    if filters != [] {
      assert filters[0] in filters && forall f | f in filters[1..] :: f in filters;
      ConditionsAreNamed(filters[1..], if filters[0].value.None? then position else position + 1);
    }
  }

  /** The clauses of a cluster query. */
  function ClusterClauses(req: ClustersReq): seq<Clause> {
    [IsNull("deleted_at")] + ClausesOf(Conditions(ClusterFilters(req), 2))
  }

  function OperationClauses(req: OperationsReq): seq<Clause> {
    [Comparison("started", ">=", 2), Comparison("finished", "<=", 3)] + ClausesOf(Conditions(OperationFilters(req), 4))
  }

  lemma TextColumns()
    ensures IsName("cluster_name") && IsName("cluster_status") && IsName("cluster_location") && IsName("created_at")
  {
  }

  lemma NumberColumns()
    ensures IsName("environment_id") && IsName("server_count") && IsName("postgres_version")
  {
  }

  lemma ClusterColumnsAreNames(req: ClustersReq)
    ensures forall f | f in ClusterFilters(req) :: IsName(f.column)
  {
    TextColumns();
    NumberColumns();
    var columns := ["cluster_name", "cluster_status", "cluster_location", "environment_id", "server_count",
                    "postgres_version", "created_at", "created_at"];
    assert forall i | 0 <= i < |columns| :: ClusterFilters(req)[i].column == columns[i];
    assert forall i | 0 <= i < |columns| :: IsName(columns[i]);
  }

  lemma OperationColumnsAreNames(req: OperationsReq)
    ensures forall f | f in OperationFilters(req) :: IsName(f.column)
  {
  }

  /** What stands behind the project's placeholder in a cluster query. */
  lemma ClusterBody(req: ClustersReq, rest: string)
    requires rest == "" || !IsWordChar(rest[0])
    ensures var body := CLUSTER_LIVE + (WhereText(Conditions(ClusterFilters(req), 2)) + rest);
            && Tokens(body) == AndTokens(ClusterClauses(req)) + Tokens(rest)
            && !IsWordChar(body[0])
            && forall clause | clause in ClusterClauses(req) :: Readable(clause)
  {
    var conditions := Conditions(ClusterFilters(req), 2);
    ClusterColumnsAreNames(req);
    ConditionsAreNamed(ClusterFilters(req), 2);
    ClausesAreReadable(conditions);
    WhereBegins(conditions, rest);
    WhereTokens(conditions, rest);
    LiveTokens(WhereText(conditions) + rest);
    assert (CLUSTER_LIVE + (WhereText(conditions) + rest))[0] == CLUSTER_LIVE[0] == ' ';
    NullTokens(ClausesOf(conditions), Tokens(rest));
  }

  lemma NullTokens(more: seq<Clause>, rest: seq<string>)
    ensures ["and", "deleted_at", "is", "null"] + (AndTokens(more) + rest)
         == AndTokens([IsNull("deleted_at")] + more) + rest
  {
    assert ([IsNull("deleted_at")] + more)[1..] == more;
  }

  lemma ClusterCountRead(req: ClustersReq)
    ensures Read(ClusterCountQuery(req).text)
         == Some(Select("count(*)", "clusters", [Comparison("project_id", "=", 1)] + ClusterClauses(req), [], []))
  {
    var where := WhereText(Conditions(ClusterFilters(req), 2));
    assert where + "" == where;
    ClusterBody(req, "");
    ClusterCountHead(CLUSTER_LIVE + where);
    ReadSeven("count(*)", "clusters", ClusterClauses(req), []);
  }

  /** The tail of a page query behind its body, read. */
  lemma TailOfPage(req: ClustersReq, orderBy: string, p: nat, keys: seq<Key>)
    requires ReadsAs(orderBy, p, keys)
    ensures var text := Marked(CLUSTER_SELECT, 1, CLUSTER_LIVE + (WhereText(Conditions(ClusterFilters(req), 2))
                                                                  + Tail(orderBy, p)));
            Read(text) == Some(Select("*", "clusters", [Comparison("project_id", "=", 1)] + ClusterClauses(req), keys,
                                      [p, p + 1]))
  {
    var where, tail := WhereText(Conditions(ClusterFilters(req), 2)), Tail(orderBy, p);
    var select := Select("*", "clusters", [Comparison("project_id", "=", 1)] + ClusterClauses(req), [], []);
    TailRead(select, orderBy, p, keys);
    TailBegins(orderBy, p);
    ClusterBody(req, tail);
    ClusterPageHead(CLUSTER_LIVE + (where + tail));
    ReadSeven("*", "clusters", ClusterClauses(req), Tokens(tail));
  }

  /** The page query, read: its order is the keys the request asks for, its page is in its last two
      arguments. */
  lemma ClusterPageRead(req: ClustersReq, sortBy: Option<string>, columns: map<string, string>, limit: int,
                        offset: int)
    requires NamedColumns(columns)
    ensures var q := ClusterPageQuery(req, OrderText(sortBy, "cluster_id", columns), limit, offset);
            Read(q.text)
              == Some(Select("*", "clusters", [Comparison("project_id", "=", 1)] + ClusterClauses(req),
                             OrderKeys(sortBy, Key("cluster_id", false), columns), [|q.args| - 1, |q.args|]))
  {
    var p := 2 + |Args(ClusterFilters(req))|;
    ClusterDefaultRead(p);
    OrderTextRead(sortBy, "cluster_id", Key("cluster_id", false), columns, p);
    TailOfPage(req, OrderText(sortBy, "cluster_id", columns), p, OrderKeys(sortBy, Key("cluster_id", false), columns));
  }

  lemma TailBegins(orderBy: string, p: nat)
    ensures Tail(orderBy, p) != "" && !IsWordChar(Tail(orderBy, p)[0])
  {
    assert Tail(orderBy, p)[0] == ' ';
  }

  lemma OperationBody(req: OperationsReq, rest: string)
    requires rest == "" || !IsWordChar(rest[0])
    ensures var body := Marked(OPERATION_STARTED, 2, Marked(OPERATION_FINISHED, 3,
                          WhereText(Conditions(OperationFilters(req), 4)) + rest));
            && Tokens(body) == AndTokens(OperationClauses(req)) + Tokens(rest)
            && body != "" && !IsWordChar(body[0])
            && forall clause | clause in OperationClauses(req) :: Readable(clause)
  {
    var conditions := Conditions(OperationFilters(req), 4);
    OperationColumnsAreNames(req);
    ConditionsAreNamed(OperationFilters(req), 4);
    ClausesAreReadable(conditions);
    WhereBegins(conditions, rest);
    WhereTokens(conditions, rest);
    PeriodTokens(WhereText(conditions) + rest);
    PeriodBegins(Marked(OPERATION_FINISHED, 3, WhereText(conditions) + rest));
    PeriodClauses(ClausesOf(conditions), Tokens(rest));
  }

  lemma PeriodBegins(rest: string)
    ensures Marked(OPERATION_STARTED, 2, rest) != "" && !IsWordChar(Marked(OPERATION_STARTED, 2, rest)[0])
  {
    assert Marked(OPERATION_STARTED, 2, rest)[0] == ' ';
  }

  lemma PeriodClauses(more: seq<Clause>, rest: seq<string>)
    ensures ["and", "started", ">="] + ([Dollar(2)] + (["and", "finished", "<="] + ([Dollar(3)] +
                                                                                   (AndTokens(more) + rest))))
         == AndTokens([Comparison("started", ">=", 2), Comparison("finished", "<=", 3)] + more) + rest
  {
    var started, finished := Comparison("started", ">=", 2), Comparison("finished", "<=", 3);
    assert ([started, finished] + more)[1..] == [finished] + more && ([finished] + more)[1..] == more;
  }

  lemma OperationCountRead(req: OperationsReq)
    ensures Read(OperationCountQuery(req).text)
         == Some(Select("count(*)", "v_operations", [Comparison("project_id", "=", 1)] + OperationClauses(req), [], []))
  {
    var where := WhereText(Conditions(OperationFilters(req), 4));
    assert where + "" == where;
    OperationBody(req, "");
    OperationCountHead(Marked(OPERATION_STARTED, 2, Marked(OPERATION_FINISHED, 3, where)));
    ReadSeven("count(*)", "v_operations", OperationClauses(req), []);
  }

  lemma TailOfOperationPage(req: OperationsReq, orderBy: string, p: nat, keys: seq<Key>)
    requires ReadsAs(orderBy, p, keys)
    ensures var text := OperationWhere(OPERATION_SELECT, WhereText(Conditions(OperationFilters(req), 4))
                                                         + Tail(orderBy, p));
            Read(text) == Some(Select("*", "v_operations", [Comparison("project_id", "=", 1)] + OperationClauses(req),
                                      keys, [p, p + 1]))
  {
    var where, tail := WhereText(Conditions(OperationFilters(req), 4)), Tail(orderBy, p);
    var select := Select("*", "v_operations", [Comparison("project_id", "=", 1)] + OperationClauses(req), [], []);
    TailRead(select, orderBy, p, keys);
    TailBegins(orderBy, p);
    OperationBody(req, tail);
    OperationPageHead(Marked(OPERATION_STARTED, 2, Marked(OPERATION_FINISHED, 3, where + tail)));
    ReadSeven("*", "v_operations", OperationClauses(req), Tokens(tail));
  }

  lemma OperationPageRead(req: OperationsReq, sortBy: Option<string>, columns: map<string, string>, limit: int,
                          offset: int)
    requires NamedColumns(columns)
    ensures var q := OperationPageQuery(req, OrderText(sortBy, "id desc", columns), limit, offset);
            Read(q.text)
              == Some(Select("*", "v_operations", [Comparison("project_id", "=", 1)] + OperationClauses(req),
                             OrderKeys(sortBy, Key("id", true), columns), [|q.args| - 1, |q.args|]))
  {
    var p := 4 + |Args(OperationFilters(req))|;
    OperationDefaultRead(p);
    OrderTextRead(sortBy, "id desc", Key("id", true), columns, p);
    TailOfOperationPage(req, OrderText(sortBy, "id desc", columns), p, OrderKeys(sortBy, Key("id", true), columns));
  }

  // ---------- What the queries select ----------

  predicate AllSatisfied(clauses: seq<Clause>, args: seq<Arg>, row: Row) {
    forall clause | clause in clauses :: Satisfies(clause, args, row)
  }

  lemma SatisfiedSplit(a: seq<Clause>, b: seq<Clause>, args: seq<Arg>, row: Row)
    ensures AllSatisfied(a + b, args, row) <==> AllSatisfied(a, args, row) && AllSatisfied(b, args, row)
  {
    assert forall clause :: clause in a + b <==> clause in a || clause in b;
  }

  lemma ClauseMeans(c: Condition, args: seq<Arg>, row: Row)
    ensures Satisfies(ClauseOf(c), args, row) <==> Holds(c, args, row)
  {
  }

  lemma {:induction false} ClausesMean(conditions: seq<Condition>, args: seq<Arg>, row: Row)
    ensures AllSatisfied(ClausesOf(conditions), args, row) <==> forall c | c in conditions :: Holds(c, args, row)
    decreases |conditions|
  {
    if conditions != [] {
      var c, rest := conditions[0], conditions[1..];
      assert conditions == [c] + rest;
      ClauseMeans(c, args, row);
      ClausesMean(rest, args, row);
      SatisfiedSplit([ClauseOf(c)], ClausesOf(rest), args, row);
      HoldsSplit(c, rest, args, row);
      assert AllSatisfied([ClauseOf(c)], args, row) <==> Satisfies(ClauseOf(c), args, row) by {
        assert [ClauseOf(c)][0] == ClauseOf(c);
      }
    }
  }

  lemma OneSatisfied(clause: Clause, args: seq<Arg>, row: Row)
    ensures AllSatisfied([clause], args, row) <==> Satisfies(clause, args, row)
  {
    assert [clause][0] == clause;
  }

  /** Some clauses, and those of the filters numbered behind them. */
  lemma ClausesSelect(head: seq<Clause>, filters: seq<Filter>, start: seq<Arg>, paging: seq<Arg>, row: Row)
    ensures var args := start + Args(filters) + paging;
            AllSatisfied(head + ClausesOf(Conditions(filters, |start| + 1)), args, row)
            <==> AllSatisfied(head, args, row) && Selects(filters, row)
  {
    var args, conditions := start + Args(filters) + paging, Conditions(filters, |start| + 1);
    SatisfiedSplit(head, ClausesOf(conditions), args, row);
    ClausesMean(conditions, args, row);
    SamePredicate(filters, start, paging, row);
  }

  lemma LiveOfProject(project: Arg, filters: seq<Filter>, paging: seq<Arg>, row: Row)
    ensures var args := [project] + Args(filters) + paging;
            var more := [IsNull("deleted_at")] + ClausesOf(Conditions(filters, 2));
            AllSatisfied([Comparison("project_id", "=", 1)] + more, args, row)
            <==> "project_id" in row && row["project_id"] == project && "deleted_at" !in row && Selects(filters, row)
  {
    var args, first, live := [project] + Args(filters) + paging, Comparison("project_id", "=", 1), IsNull("deleted_at");
    SatisfiedSplit([first], [live] + ClausesOf(Conditions(filters, 2)), args, row);
    ClausesSelect([live], filters, [project], paging, row);
    OneSatisfied(first, args, row);
    OneSatisfied(live, args, row);
  }

  lemma InPeriod(project: Arg, from: int, till: int, filters: seq<Filter>, paging: seq<Arg>, row: Row)
    ensures var args := [project, Number(from), Number(till)] + Args(filters) + paging;
            var period := [Comparison("started", ">=", 2), Comparison("finished", "<=", 3)];
            AllSatisfied([Comparison("project_id", "=", 1)] + (period + ClausesOf(Conditions(filters, 4))), args, row)
            <==> "project_id" in row && row["project_id"] == project
                 && Between(row, "started", Some(from), None) && Between(row, "finished", None, Some(till))
                 && Selects(filters, row)
  {
    var start := [project, Number(from), Number(till)];
    var args, first := start + Args(filters) + paging, Comparison("project_id", "=", 1);
    var started, finished := Comparison("started", ">=", 2), Comparison("finished", "<=", 3);
    SatisfiedSplit([first], [started, finished] + ClausesOf(Conditions(filters, 4)), args, row);
    ClausesSelect([started, finished], filters, start, paging, row);
    SatisfiedSplit([started], [finished], args, row);
    assert [started] + [finished] == [started, finished];
    OneSatisfied(first, args, row);
    OneSatisfied(started, args, row);
    OneSatisfied(finished, args, row);
  }

  /** The clauses of a cluster query hold under its arguments exactly of the rows the request means. */
  lemma ClusterClausesMean(req: ClustersReq, paging: seq<Arg>, row: Row)
    ensures var args := [Number(req.projectId)] + Args(ClusterFilters(req)) + paging;
            AllSatisfied([Comparison("project_id", "=", 1)] + ClusterClauses(req), args, row)
            <==> ClusterMatches(req, row)
  {
    LiveOfProject(Number(req.projectId), ClusterFilters(req), paging, row);
    ClusterFiltersMean(req, row);
  }

  lemma OperationClausesMean(req: OperationsReq, paging: seq<Arg>, row: Row)
    ensures var args := OperationArgs(req) + Args(OperationFilters(req)) + paging;
            AllSatisfied([Comparison("project_id", "=", 1)] + OperationClauses(req), args, row)
            <==> OperationMatches(req, row)
  {
    InPeriod(Number(req.projectId), req.startedFrom, req.endedTill, OperationFilters(req), paging, row);
    OperationFiltersMean(req, row);
  }

  /** The count and the page query of clusters, as their texts read, select the same rows: the live
      clusters of the project that have, field by field, what the request gives. */
  lemma ClusterQueriesAgree(req: ClustersReq, sortBy: Option<string>, columns: map<string, string>, limit: int,
                            offset: int, row: Row)
    requires NamedColumns(columns)
    ensures Selected(ClusterCountQuery(req), row) <==> ClusterMatches(req, row)
    ensures Selected(ClusterPageQuery(req, OrderText(sortBy, "cluster_id", columns), limit, offset), row)
            <==> ClusterMatches(req, row)
  {
    var args := [Number(req.projectId)] + Args(ClusterFilters(req));
    ClusterCountRead(req);
    ClusterPageRead(req, sortBy, columns, limit, offset);
    ClusterClausesMean(req, [], row);
    assert args + [] == args;
    ClusterClausesMean(req, [Number(limit), Number(offset)], row);
  }

  lemma OperationQueriesAgree(req: OperationsReq, sortBy: Option<string>, columns: map<string, string>, limit: int,
                              offset: int, row: Row)
    requires NamedColumns(columns)
    ensures Selected(OperationCountQuery(req), row) <==> OperationMatches(req, row)
    ensures Selected(OperationPageQuery(req, OrderText(sortBy, "id desc", columns), limit, offset), row)
            <==> OperationMatches(req, row)
  {
    var args := OperationArgs(req) + Args(OperationFilters(req));
    OperationCountRead(req);
    OperationPageRead(req, sortBy, columns, limit, offset);
    OperationClausesMean(req, [], row);
    assert args + [] == args;
    OperationClausesMean(req, [Number(limit), Number(offset)], row);
  }

  /** What the two cluster queries ask for besides: the number of rows, or the rows in the order of the
      request with the limit and the offset given. */
  lemma ClusterQueriesRead(req: ClustersReq, sortBy: Option<string>, columns: map<string, string>, limit: int,
                           offset: int)
    requires NamedColumns(columns)
    ensures var select := Read(ClusterCountQuery(req).text);
            select.Some? && select.value.what == "count(*)" && select.value.table == "clusters"
            && select.value.order == [] && select.value.paging == []
    ensures var q := ClusterPageQuery(req, OrderText(sortBy, "cluster_id", columns), limit, offset);
            var select := Read(q.text);
            select.Some? && select.value.what == "*" && select.value.table == "clusters"
            && select.value.order == OrderKeys(sortBy, Key("cluster_id", false), columns)
            && LimitOf(q) == Some(Number(limit)) && OffsetOf(q) == Some(Number(offset))
  {
    ClusterCountRead(req);
    ClusterPageRead(req, sortBy, columns, limit, offset);
  }

  lemma OperationQueriesRead(req: OperationsReq, sortBy: Option<string>, columns: map<string, string>, limit: int,
                             offset: int)
    requires NamedColumns(columns)
    ensures var select := Read(OperationCountQuery(req).text);
            select.Some? && select.value.what == "count(*)" && select.value.table == "v_operations"
            && select.value.order == [] && select.value.paging == []
    ensures var q := OperationPageQuery(req, OrderText(sortBy, "id desc", columns), limit, offset);
            var select := Read(q.text);
            select.Some? && select.value.what == "*" && select.value.table == "v_operations"
            && select.value.order == OrderKeys(sortBy, Key("id", true), columns)
            && LimitOf(q) == Some(Number(limit)) && OffsetOf(q) == Some(Number(offset))
  {
    OperationCountRead(req);
    OperationPageRead(req, sortBy, columns, limit, offset);
  }

  // ---------- The whole table in pages ----------

  /** Every cluster has its own identifier. */
  ghost predicate IsClusterTable(table: set<Row>) {
    && (forall row | row in table :: "cluster_id" in row)
    && forall x, y | x in table && y in table && x != y :: x["cluster_id"] != y["cluster_id"]
  }

  /** The order of values, whatever the collation, tells any two values apart. */
  ghost predicate TellsApart(less: (Arg, Arg) -> bool) {
    forall x, y | x != y :: less(x, y) || less(y, x)
  }

  /** What a query may yield: a page of some arrangement of the rows it selects in its order. */
  ghost predicate Yields(table: set<Row>, q: Query, less: (Arg, Arg) -> bool, page: seq<Row>) {
    exists rows: seq<Row> :: Arranged(rows, Rows(table, q), KeysOf(q), less) && page == PageOf(q, rows)
  }

  lemma RowsOfPage(table: set<Row>, req: ClustersReq, sortBy: Option<string>, columns: map<string, string>,
                   limit: nat, offset: nat)
    requires NamedColumns(columns)
    ensures Rows(table, ClusterPageQuery(req, OrderText(sortBy, "cluster_id", columns), limit, offset))
         == Matching(table, req)
    ensures Rows(table, ClusterCountQuery(req)) == Matching(table, req)
  {
    var q := ClusterPageQuery(req, OrderText(sortBy, "cluster_id", columns), limit, offset);
    forall row ensures Selected(ClusterCountQuery(req), row) <==> ClusterMatches(req, row)
               ensures Selected(q, row) <==> ClusterMatches(req, row) {
      ClusterQueriesAgree(req, sortBy, columns, limit, offset, row);
    }
  }

  function Matching(table: set<Row>, req: ClustersReq): set<Row> {
    set row | row in table && ClusterMatches(req, row)
  }

  /** Among rows with different values in one of the keys, any two have an order. */
  lemma {:induction false} OneIsBefore(x: Row, y: Row, keys: seq<Key>, less: (Arg, Arg) -> bool, k: nat)
    requires TellsApart(less) && k < |keys|
    requires keys[k].column in x && keys[k].column in y && x[keys[k].column] != y[keys[k].column]
    ensures Before(x, y, keys, less) || Before(y, x, keys, less)
    decreases |keys|
  {
    if k > 0 {
      OneIsBefore(x, y, keys[1..], less, k - 1);
    }
  }

  ghost predicate Comparable(rows: set<Row>, keys: seq<Key>, less: (Arg, Arg) -> bool) {
    forall x, y | x in rows && y in rows && x != y :: Before(x, y, keys, less) || Before(y, x, keys, less)
  }

  lemma ArrangedHolds(a: seq<Row>, rows: set<Row>, keys: seq<Key>, less: (Arg, Arg) -> bool)
    requires Arranged(a, rows, keys, less)
    ensures |a| == |rows| && forall row :: row in a <==> row in rows
  {
    assert |multiset(a)| == |a| && |multiset(rows)| == |rows|;
    assert forall row :: row in a <==> row in multiset(a);
  }

  /** No row is before the last of an arrangement. */
  lemma LastIsLast(a: seq<Row>, rows: set<Row>, keys: seq<Key>, less: (Arg, Arg) -> bool, row: Row)
    requires Arranged(a, rows, keys, less) && row in rows && a != [] && row != a[|a| - 1]
    ensures !Before(a[|a| - 1], row, keys, less)
  {
    ArrangedHolds(a, rows, keys, less);
    var i :| 0 <= i < |a| && a[i] == row;
    assert !Before(a[|a| - 1], a[i], keys, less);
  }

  lemma WithoutLast(a: seq<Row>, rows: set<Row>, keys: seq<Key>, less: (Arg, Arg) -> bool)
    requires Arranged(a, rows, keys, less) && a != []
    ensures Arranged(a[..|a| - 1], rows - {a[|a| - 1]}, keys, less) && a[|a| - 1] in rows
  {
    var last := a[|a| - 1];
    ArrangedHolds(a, rows, keys, less);
    assert last in a && a == a[..|a| - 1] + [last];
    assert multiset(rows - {last}) == multiset(rows) - multiset{last};
  }

  lemma LastsAgree(a: seq<Row>, b: seq<Row>, rows: set<Row>, keys: seq<Key>, less: (Arg, Arg) -> bool)
    requires Arranged(a, rows, keys, less) && Arranged(b, rows, keys, less) && Comparable(rows, keys, less)
    requires a != [] && b != []
    ensures a[|a| - 1] == b[|b| - 1]
  {
    var x, y := a[|a| - 1], b[|b| - 1];
    WithoutLast(a, rows, keys, less);
    WithoutLast(b, rows, keys, less);
    if x != y {
      LastIsLast(a, rows, keys, less, y);
      LastIsLast(b, rows, keys, less, x);
      assert false;
    }
  }

  /** Rows any two of which have an order can be arranged in one way only. */
  lemma {:induction false} OneArrangement(a: seq<Row>, b: seq<Row>, rows: set<Row>, keys: seq<Key>,
                                          less: (Arg, Arg) -> bool)
    requires Arranged(a, rows, keys, less) && Arranged(b, rows, keys, less) && Comparable(rows, keys, less)
    ensures a == b
    decreases |a|
  {
    ArrangedHolds(a, rows, keys, less);
    ArrangedHolds(b, rows, keys, less);
    if a != [] {
      LastsAgree(a, b, rows, keys, less);
      WithoutLast(a, rows, keys, less);
      WithoutLast(b, rows, keys, less);
      var last := a[|a| - 1];
      OneArrangement(a[..|a| - 1], b[..|b| - 1], rows - {last}, keys, less);
      assert a == a[..|a| - 1] + [last] && b == b[..|b| - 1] + [last];
    }
  }

  /** A page of some arrangement of the rows. */
  ghost predicate IsPage(page: seq<Row>, rows: set<Row>, keys: seq<Key>, less: (Arg, Arg) -> bool, limit: nat,
                         offset: nat) {
    exists all: seq<Row> :: Arranged(all, rows, keys, less) && page == Page(all, limit, offset)
  }

  /** Where the keys tell any two rows apart, pages taken from different arrangements, at the offsets 0, L,
      2L and so on, are together an arrangement of all the rows, as soon as there are pages enough. */
  lemma PagesMakeArrangement(rows: set<Row>, keys: seq<Key>, less: (Arg, Arg) -> bool, limit: nat,
                             pages: seq<seq<Row>>)
    requires Comparable(rows, keys, less) && |pages| * limit >= |rows|
    requires forall i | 0 <= i < |pages| :: IsPage(pages[i], rows, keys, less, limit, Start(i, limit))
    ensures Arranged(Concat(pages), rows, keys, less) && |Concat(pages)| == |rows|
  {
    if pages == [] {
      assert multiset(Concat(pages)) == multiset(rows);
      return;
    }
    assert IsPage(pages[0], rows, keys, less, limit, Start(0, limit));
    var all: seq<Row> :| Arranged(all, rows, keys, less) && pages[0] == Page(all, limit, Start(0, limit));
    forall i | 0 <= i < |pages| ensures pages[i] == Page(all, limit, Start(i, limit)) {
      var other: seq<Row> :| Arranged(other, rows, keys, less) && pages[i] == Page(other, limit, Start(i, limit));
      OneArrangement(all, other, rows, keys, less);
    }
    ArrangedHolds(all, rows, keys, less);
    PagesOfRows(all, limit, pages);
  }

  /** Pages read one by one, each by its own query at the offsets 0, L, 2L and so on, in any order that
      has the identifier among its keys, are together the live clusters of the project that have what
      the request gives: each once, in that order, as many as the count query counts, as soon as there
      are pages enough for that number. */
  lemma PagesAreTheTable(table: set<Row>, req: ClustersReq, sortBy: Option<string>, columns: map<string, string>,
                         less: (Arg, Arg) -> bool, limit: nat, pages: seq<seq<Row>>)
    requires IsClusterTable(table) && NamedColumns(columns) && TellsApart(less)
    requires exists key :: key in OrderKeys(sortBy, Key("cluster_id", false), columns) && key.column == "cluster_id"
    requires forall i | 0 <= i < |pages| ::
               Yields(table, ClusterPageQuery(req, OrderText(sortBy, "cluster_id", columns), limit, Start(i, limit)),
                      less, pages[i])
    requires |pages| * limit >= |Rows(table, ClusterCountQuery(req))|
    ensures Arranged(Concat(pages), (set row | row in table && ClusterMatches(req, row)),
                     OrderKeys(sortBy, Key("cluster_id", false), columns), less)
    ensures |Concat(pages)| == |Rows(table, ClusterCountQuery(req))|
  {
    var keys, matching := OrderKeys(sortBy, Key("cluster_id", false), columns), Matching(table, req);
    RowsOfPage(table, req, sortBy, columns, limit, 0);
    IdentifiersCompare(table, req, keys, less);
    forall i | 0 <= i < |pages| ensures IsPage(pages[i], matching, keys, less, limit, Start(i, limit)) {
      YieldsPage(table, req, sortBy, columns, less, limit, Start(i, limit), pages[i]);
    }
    PagesMakeArrangement(matching, keys, less, limit, pages);
  }

  lemma IdentifiersCompare(table: set<Row>, req: ClustersReq, keys: seq<Key>, less: (Arg, Arg) -> bool)
    requires IsClusterTable(table) && TellsApart(less) && exists key :: key in keys && key.column == "cluster_id"
    ensures Comparable(Matching(table, req), keys, less)
  {
    var key :| key in keys && key.column == "cluster_id";
    var k :| 0 <= k < |keys| && keys[k] == key;
    forall x, y | x in Matching(table, req) && y in Matching(table, req) && x != y
      ensures Before(x, y, keys, less) || Before(y, x, keys, less)
    {
      OneIsBefore(x, y, keys, less, k);
    }
  }

  lemma YieldsPage(table: set<Row>, req: ClustersReq, sortBy: Option<string>, columns: map<string, string>,
                   less: (Arg, Arg) -> bool, limit: nat, offset: nat, page: seq<Row>)
    requires NamedColumns(columns)
    requires Yields(table, ClusterPageQuery(req, OrderText(sortBy, "cluster_id", columns), limit, offset), less, page)
    ensures var keys := OrderKeys(sortBy, Key("cluster_id", false), columns);
            IsPage(page, Matching(table, req), keys, less, limit, offset)
  {
    var q := ClusterPageQuery(req, OrderText(sortBy, "cluster_id", columns), limit, offset);
    RowsOfPage(table, req, sortBy, columns, limit, offset);
    ClusterQueriesRead(req, sortBy, columns, limit, offset);
    var rows: seq<Row> :| Arranged(rows, Rows(table, q), KeysOf(q), less) && page == PageOf(q, rows);
    assert page == Page(rows, limit, offset);
  }

  // ---------- The columns of the two lists ----------

  const CLUSTER_NAMES := map[
    "name" := "cluster_name", "id" := "cluster_id", "created_at" := "created_at", "updated_at" := "updated_at"]
  const CLUSTER_PLACES := map[
    "environment" := "environment_id", "project" := "project_id", "location" := "cluster_location"]
  const CLUSTER_STATES := map[
    "status" := "cluster_status", "server_count" := "server_count", "postgres_version" := "postgres_version"]

  /** `clusterSortFields`. */
  const CLUSTER_SORT_FIELDS := CLUSTER_NAMES + CLUSTER_PLACES + CLUSTER_STATES

  /** `operationSortFields`. */
  const OPERATION_SORT_FIELDS := map[
    "cluster_name" := "cluster", "type" := "type", "status" := "status", "id" := "id", "started" := "started",
    "finished" := "finished", "cluster" := "cluster", "environment" := "environment"]

  lemma NamedTogether(a: map<string, string>, b: map<string, string>, c: map<string, string>)
    requires NamedColumns(a) && NamedColumns(b) && NamedColumns(c)
    ensures NamedColumns(a + b + c)
  {
  }

  lemma NamesAreNamed()
    ensures NamedColumns(CLUSTER_NAMES)
  {
  }

  lemma PlacesAreNamed()
    ensures NamedColumns(CLUSTER_PLACES)
  {
  }

  lemma StatesAreNamed()
    ensures NamedColumns(CLUSTER_STATES)
  {
  }

  /** The lists of the source are of the kind the laws on orders speak of. */
  lemma ClusterListIsNamed()
    ensures NamedColumns(CLUSTER_SORT_FIELDS)
  {
    NamesAreNamed();
    PlacesAreNamed();
    StatesAreNamed();
    NamedTogether(CLUSTER_NAMES, CLUSTER_PLACES, CLUSTER_STATES);
  }

  lemma OperationListIsNamed()
    ensures NamedColumns(OPERATION_SORT_FIELDS)
  {
  }
}
