/**
 A reader for the statements of the list queries, from their text alone: the tokens, the clauses after
 `where`, the keys after `order by`, and the placeholders of `limit` and `offset`; and which rows of a
 table such a statement selects under its arguments. It knows nothing of how the texts are built.
 */
module SqlText {
  import opened Wrappers
  import opened Decimal
  import opened Paging
  import opened Texts

  datatype Arg = Number(n: int) | Text(s: string)

  /** A row by column name; a column that is not there is null. */
  type Row = map<string, Arg>

  datatype Query = Query(text: string, args: seq<Arg>)

  // ---------- Tokens ----------

  predicate IsWordChar(c: char) {
    c != ' ' && c != ','
  }

  predicate IsPlain(s: string) {
    forall i | 0 <= i < |s| :: IsWordChar(s[i])
  }

  /** Words and commas. */
  function Tokens(s: string): seq<string>
    decreases |s|
  {
    if s == "" then []
    else if s[0] == ' ' then Tokens(s[1..])
    else if s[0] == ',' then [","] + Tokens(s[1..])
    else
      var n := Span(IsWordChar, s);
      [s[..n]] + Tokens(s[n..])
  }

  // ---------- Statements ----------

  datatype Clause = Comparison(column: string, op: string, placeholder: nat) | IsNull(column: string)

  datatype Key = Key(column: string, descending: bool)

  datatype Select = Select(what: string, table: string, clauses: seq<Clause>, order: seq<Key>, paging: seq<nat>)

  /** A placeholder, as in `$12`. */
  predicate IsPlaceholder(t: string) {
    |t| > 1 && t[0] == '$' && forall i | 0 <= i < |t[1..]| :: IsDigit(t[1..][i])
  }

  function NumberOf(t: string): nat
    requires IsPlaceholder(t)
  {
    ParseNat(t[1..])
  }

  /** Three tokens: `column is null`, or a column compared with a placeholder. */
  function ReadClause(tokens: seq<string>): Option<Clause>
    requires |tokens| >= 3
  {
    if tokens[1] == "is" then if tokens[2] == "null" then Some(IsNull(tokens[0])) else None
    else if IsPlaceholder(tokens[2]) then Some(Comparison(tokens[0], tokens[1], NumberOf(tokens[2])))
    else None
  }

  datatype Where = Where(clauses: seq<Clause>, rest: seq<string>)

  /** Clauses joined by `and`, and what follows them. */
  function ReadWhere(tokens: seq<string>): Option<Where>
    decreases |tokens|
  {
    if |tokens| < 3 || ReadClause(tokens).None? then None else
      var first := ReadClause(tokens).value;
      if |tokens| == 3 || tokens[3] != "and" then Some(Where([first], tokens[3..])) else
        var more := ReadWhere(tokens[4..]);
        if more.None? then None else Some(Where([first] + more.value.clauses, more.value.rest))
  }

  datatype Order = Order(keys: seq<Key>, rest: seq<string>)

  /** Columns with an optional `asc` or `desc`, joined by commas, and what follows them. */
  function ReadOrder(tokens: seq<string>): Order
    decreases |tokens|
  {
    if tokens == [] then Order([], []) else
      var directed := |tokens| > 1 && tokens[1] in {"asc", "desc"};
      var key := Key(tokens[0], directed && tokens[1] == "desc");
      var rest := if directed then tokens[2..] else tokens[1..];
      if rest != [] && rest[0] == "," then
        var more := ReadOrder(rest[1..]);
        Order([key] + more.keys, more.rest)
      else Order([key], rest)
  }

  function ReadTokens(tokens: seq<string>): Option<Select> {
    if |tokens| < 5 || tokens[0] != "select" || tokens[2] != "from" || tokens[4] != "where" then None else
      var where := ReadWhere(tokens[5..]);
      if where.None? then None
      else ReadTail(Select(tokens[1], tokens[3], where.value.clauses, [], []), where.value.rest)
  }

  /** Nothing more, or an order with `limit` and `offset`. */
  function ReadTail(select: Select, tokens: seq<string>): Option<Select> {
    if tokens == [] then Some(select)
    else if |tokens| < 2 || tokens[0] != "order" || tokens[1] != "by" then None else
      var order := ReadOrder(tokens[2..]);
      var rest := order.rest;
      if |rest| == 4 && rest[0] == "limit" && IsPlaceholder(rest[1]) && rest[2] == "offset" && IsPlaceholder(rest[3])
      then Some(select.(order := order.keys, paging := [NumberOf(rest[1]), NumberOf(rest[3])]))
      else None
  }

  function Read(text: string): Option<Select> {
    ReadTokens(Tokens(text))
  }

  // ---------- What a statement selects ----------

  /** A comparison with null does not hold. */
  predicate Satisfies(clause: Clause, args: seq<Arg>, row: Row) {
    match clause
    case IsNull(column) => column !in row
    case Comparison(column, op, n) =>
      1 <= n <= |args| && column in row &&
      var value, arg := row[column], args[n - 1];
      if op == "=" then value == arg
      else value.Number? && arg.Number? && if op == ">=" then value.n >= arg.n else op == "<=" && value.n <= arg.n
  }

  /** The query can be read, and the row satisfies all its clauses. */
  predicate Selected(q: Query, row: Row) {
    var select := Read(q.text);
    select.Some? && forall clause | clause in select.value.clauses :: Satisfies(clause, q.args, row)
  }

  function ArgumentAt(q: Query, n: nat): Option<Arg> {
    if 1 <= n <= |q.args| then Some(q.args[n - 1]) else None
  }

  function LimitOf(q: Query): Option<Arg> {
    var select := Read(q.text);
    if select.Some? && |select.value.paging| == 2 then ArgumentAt(q, select.value.paging[0]) else None
  }

  function OffsetOf(q: Query): Option<Arg> {
    var select := Read(q.text);
    if select.Some? && |select.value.paging| == 2 then ArgumentAt(q, select.value.paging[1]) else None
  }

  function KeysOf(q: Query): seq<Key> {
    var select := Read(q.text);
    if select.Some? then select.value.order else []
  }

  function Rows(table: set<Row>, q: Query): set<Row> {
    set row | row in table && Selected(q, row)
  }

  /** One row is below another by a key; null is above all values. */
  predicate Below(x: Row, y: Row, key: Key, less: (Arg, Arg) -> bool) {
    var (a, b) := if key.descending then (y, x) else (x, y);
    key.column in a && (key.column in b ==> less(a[key.column], b[key.column]))
  }

  /** The keys decide one after the other. */
  predicate Before(x: Row, y: Row, keys: seq<Key>, less: (Arg, Arg) -> bool) {
    keys != [] && (Below(x, y, keys[0], less) || (!Below(y, x, keys[0], less) && Before(x, y, keys[1..], less)))
  }

  /** A sequence of some rows, each once, no row before one that is in front of it. */
  ghost predicate Arranged(rows: seq<Row>, of: set<Row>, keys: seq<Key>, less: (Arg, Arg) -> bool) {
    && multiset(rows) == multiset(of)
    && forall i, j | 0 <= i < j < |rows| :: !Before(rows[j], rows[i], keys, less)
  }

  /** The part of the rows that the limit and the offset of a query give; all of them without. */
  function PageOf(q: Query, rows: seq<Row>): seq<Row> {
    match (LimitOf(q), OffsetOf(q))
    case (Some(Number(limit)), Some(Number(offset))) =>
      if limit >= 0 && offset >= 0 then Page(rows, limit, offset) else rows
    case _ => rows
  }

  // ---------- Tokens of composed texts ----------

  lemma TokensOfWord(word: string, rest: string)
    requires word != "" && IsPlain(word) && (rest == "" || !IsWordChar(rest[0]))
    ensures Tokens(word + rest) == [word] + Tokens(rest)
  {
    SpanOfRun(IsWordChar, word, rest);
    assert (word + rest)[0] == word[0] && (word + rest)[..|word|] == word && (word + rest)[|word|..] == rest;
  }

  lemma TokensOfSpace(rest: string)
    ensures Tokens(" " + rest) == Tokens(rest)
  {
    assert (" " + rest)[1..] == rest;
  }

  lemma TokensOfComma(rest: string)
    ensures Tokens("," + rest) == [","] + Tokens(rest)
  {
    assert ("," + rest)[1..] == rest;
  }

  /** Words with a space after each; the empty word leaves a space alone. */
  function Spaced(words: seq<string>): string {
    if words == [] then "" else words[0] + (" " + Spaced(words[1..]))
  }

  function NonEmpty(words: seq<string>): seq<string> {
    if words == [] then [] else (if words[0] == "" then [] else [words[0]]) + NonEmpty(words[1..])
  }

  lemma {:induction false} NonEmptyOfNames(words: seq<string>)
    requires "" !in words
    ensures NonEmpty(words) == words && NonEmpty([""] + words) == words
    decreases |words|
  {
    assert ([""] + words)[1..] == words;
    if words != [] {
      assert words[0] in words;
      NonEmptyOfNames(words[1..]);
      assert words == [words[0]] + words[1..];
    }
  }

  predicate PlainWords(words: seq<string>) {
    forall i | 0 <= i < |words| :: IsPlain(words[i])
  }

  lemma TokensOfWordAndSpace(word: string, rest: string)
    requires IsPlain(word)
    ensures Tokens(word + (" " + rest)) == (if word == "" then [] else [word]) + Tokens(rest)
  {
    TokensOfSpace(rest);
    if word == "" {
      assert word + (" " + rest) == " " + rest;
    } else {
      TokensOfWord(word, " " + rest);
    }
  }

  lemma {:induction false} TokensOfSpaced(words: seq<string>, rest: string)
    requires PlainWords(words)
    ensures Tokens(Spaced(words) + rest) == NonEmpty(words) + Tokens(rest)
    decreases |words|
  {
    if words == [] {
      assert Spaced(words) + rest == rest;
    } else {
      var more := Spaced(words[1..]) + rest;
      assert Spaced(words) + rest == words[0] + (" " + more);
      TokensOfWordAndSpace(words[0], more);
      TokensOfSpaced(words[1..], rest);
    }
  }

  /** The token of a placeholder. */
  function Dollar(n: nat): string {
    "$" + PrintNat(n)
  }

  lemma DollarIsPlaceholder(n: nat)
    ensures IsPlain(Dollar(n)) && IsPlaceholder(Dollar(n)) && NumberOf(Dollar(n)) == n
  {
    assert Dollar(n)[1..] == PrintNat(n);
    ParsePrintNat(n);
  }

  /** Words, a placeholder, and a text that does not go on with the same word. */
  lemma TokensOfMarked(words: seq<string>, n: nat, rest: string)
    requires PlainWords(words) && (rest == "" || !IsWordChar(rest[0]))
    ensures Tokens(Spaced(words) + ("$" + (PrintNat(n) + rest))) == NonEmpty(words) + ([Dollar(n)] + Tokens(rest))
  {
    assert "$" + (PrintNat(n) + rest) == Dollar(n) + rest;
    DollarIsPlaceholder(n);
    TokensOfSpaced(words, Dollar(n) + rest);
    TokensOfWord(Dollar(n), rest);
  }

  // ---------- Statements of composed tokens ----------

  function ClauseTokens(clause: Clause): (tokens: seq<string>)
    ensures |tokens| == 3
  {
    match clause
    case IsNull(column) => [column, "is", "null"]
    case Comparison(column, op, n) => [column, op, Dollar(n)]
  }

  /** More clauses, each after an `and`. */
  function AndTokens(clauses: seq<Clause>): seq<string> {
    if clauses == [] then [] else ["and"] + (ClauseTokens(clauses[0]) + AndTokens(clauses[1..]))
  }

  predicate Readable(clause: Clause) {
    clause.Comparison? ==> clause.op != "is"
  }

  lemma ClauseReadsBack(clause: Clause, rest: seq<string>)
    requires Readable(clause)
    ensures ReadClause(ClauseTokens(clause) + rest) == Some(clause)
    ensures (ClauseTokens(clause) + rest)[3..] == rest
  {
    if clause.Comparison? {
      DollarIsPlaceholder(clause.placeholder);
    }
  }

  function Prepend(clause: Clause, where: Option<Where>): Option<Where> {
    if where.None? then None else Some(Where([clause] + where.value.clauses, where.value.rest))
  }

  lemma WhereGoesOn(clause: Clause, rest: seq<string>)
    requires Readable(clause)
    ensures ReadWhere(ClauseTokens(clause) + (["and"] + rest)) == Prepend(clause, ReadWhere(rest))
  {
    var tokens := ClauseTokens(clause) + (["and"] + rest);
    ClauseReadsBack(clause, ["and"] + rest);
    assert tokens[3] == "and" && tokens[4..] == rest;
  }

  lemma WhereEnds(clause: Clause, rest: seq<string>)
    requires Readable(clause) && (rest == [] || rest[0] != "and")
    ensures ReadWhere(ClauseTokens(clause) + rest) == Some(Where([clause], rest))
  {
    ClauseReadsBack(clause, rest);
    assert rest != [] ==> (ClauseTokens(clause) + rest)[3] == rest[0];
  }

  lemma AndTokensFirst(more: seq<Clause>, rest: seq<string>)
    requires more != []
    ensures AndTokens(more) + rest == ["and"] + (ClauseTokens(more[0]) + (AndTokens(more[1..]) + rest))
  {
  }

  lemma {:induction false} WhereReadsBack(clause: Clause, more: seq<Clause>, rest: seq<string>)
    requires Readable(clause) && (forall c | c in more :: Readable(c)) && (rest == [] || rest[0] != "and")
    ensures ReadWhere(ClauseTokens(clause) + (AndTokens(more) + rest)) == Some(Where([clause] + more, rest))
    decreases |more|
  {
    if more == [] {
      assert AndTokens(more) + rest == rest && [clause] + more == [clause];
      WhereEnds(clause, rest);
    } else {
      AndTokensFirst(more, rest);
      WhereGoesOn(clause, ClauseTokens(more[0]) + (AndTokens(more[1..]) + rest));
      WhereReadsBack(more[0], more[1..], rest);
      assert [more[0]] + more[1..] == more;
    }
  }

  function KeyTokens(key: Key): seq<string> {
    [key.column, if key.descending then "desc" else "asc"]
  }

  /** Keys joined by commas. */
  function OrderTokens(keys: seq<Key>): seq<string> {
    if keys == [] then []
    else if |keys| == 1 then KeyTokens(keys[0])
    else KeyTokens(keys[0]) + ([","] + OrderTokens(keys[1..]))
  }

  lemma KeyGoesOn(key: Key, rest: seq<string>)
    ensures ReadOrder(KeyTokens(key) + ([","] + rest)) == Order([key] + ReadOrder(rest).keys, ReadOrder(rest).rest)
  {
    var tokens := KeyTokens(key) + ([","] + rest);
    assert tokens[2..] == [","] + rest && tokens[2..][1..] == rest;
  }

  lemma KeyEnds(key: Key, rest: seq<string>)
    requires rest == [] || rest[0] != ","
    ensures ReadOrder(KeyTokens(key) + rest) == Order([key], rest)
  {
    assert (KeyTokens(key) + rest)[2..] == rest;
  }

  lemma OrderTokensGrow(keys: seq<Key>, rest: seq<string>)
    requires |keys| > 1
    ensures KeyTokens(keys[0]) + ([","] + (OrderTokens(keys[1..]) + rest)) == OrderTokens(keys) + rest
  {
  }

  lemma {:induction false} OrderReadsBack(keys: seq<Key>, rest: seq<string>)
    requires keys != [] && (rest == [] || rest[0] != ",")
    ensures ReadOrder(OrderTokens(keys) + rest) == Order(keys, rest)
    decreases |keys|
  {
    if |keys| == 1 {
      KeyEnds(keys[0], rest);
      assert keys == [keys[0]];
    } else {
      OrderTokensGrow(keys, rest);
      KeyGoesOn(keys[0], OrderTokens(keys[1..]) + rest);
      OrderReadsBack(keys[1..], rest);
      assert keys == [keys[0]] + keys[1..];
    }
  }
}
