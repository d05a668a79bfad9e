/**
 The text of configuration parameters in the cluster form: the validator's two regular
 expressions and the parser that turns an accepted text into option and value pairs.
 */
module ConfigText {
  import opened Wrappers
  import opened Decimal
  import opened Texts

  predicate IsDelimiter(c: char) {
    c == ':' || c == '='
  }

  predicate IsBreak(c: char) {
    c == '\n' || c == '\r'
  }

  /** The class `[^:=\n\r]`. */
  predicate IsPlain(c: char) {
    !IsDelimiter(c) && !IsBreak(c)
  }

  // ---------- The validator ----------

  /** `^[^:=\n\r]+d[^:=\n\r]+([\n\r][^:=\n\r]+d[^:=\n\r]+)*$` for a delimiter d. A run of the class
      ends only where the class ends, so that there is one way to match. */
  predicate Matches(s: string, d: char)
    decreases |s|
  {
    var n := Span(IsPlain, s);
    0 < n < |s| && s[n] == d &&
    var rest := s[n + 1..];
    var m := Span(IsPlain, rest);
    0 < m && (m == |rest| || (IsBreak(rest[m]) && Matches(rest[m + 1..], d)))
  }

  /** `configValidationSchema`. */
  predicate Accepts(s: string) {
    Matches(s, ':') || Matches(s, '=') || s == ""
  }

  /** A line as the validator means it: a key, one delimiter, a value. */
  predicate IsPlainText(s: string) {
    s != "" && forall i | 0 <= i < |s| :: IsPlain(s[i])
  }

  ghost predicate IsLine(line: string, d: char) {
    exists k, v :: IsPlainText(k) && IsPlainText(v) && line == k + ([d] + v)
  }

  // ---------- The parser ----------

  /** White space and line terminators that `trim` strips. */
  predicate IsSpace(c: char) {
    var n := c as int;
    9 <= n <= 13 || n == 0x20 || n == 0xa0 || n == 0x1680 || 0x2000 <= n <= 0x200a || n == 0x2028 || n == 0x2029
    || n == 0x202f || n == 0x205f || n == 0x3000 || n == 0xfeff
  }

  function Trim(s: string): string {
    if s != "" && IsSpace(s[0]) then Trim(s[1..])
    else if s != "" && IsSpace(s[|s| - 1]) then Trim(s[..|s| - 1])
    else s
  }

  predicate AllSpace(s: string) {
    forall i | 0 <= i < |s| :: IsSpace(s[i])
  }

  lemma Regroup(a: string, b: string, c: string, d: string)
    ensures a + (b + c + d) == (a + b) + c + d
    ensures (b + c) + d == b + (c + d)
  {
  }

  /** What is stripped at either end is white space, and what is left neither begins nor ends with any. */
  lemma {:induction false} TrimStrips(s: string) returns (lead: string, trail: string)
    ensures s == lead + Trim(s) + trail && AllSpace(lead) && AllSpace(trail)
    ensures Trim(s) != "" ==> !IsSpace(Trim(s)[0]) && !IsSpace(Trim(s)[|Trim(s)| - 1])
    decreases |s|
  {
    lead, trail := "", "";
    if s != "" && IsSpace(s[0]) {
      lead, trail := TrimStrips(s[1..]);
      Regroup([s[0]], lead, Trim(s), trail);
      lead := [s[0]] + lead;
      assert s == [s[0]] + s[1..];
    } else if s != "" && IsSpace(s[|s| - 1]) {
      lead, trail := TrimStrips(s[..|s| - 1]);
      Regroup([], lead + Trim(s), trail, [s[|s| - 1]]);
      trail := trail + [s[|s| - 1]];
      assert s == s[..|s| - 1] + [s[|s| - 1]];
    }
  }

  datatype Pair = Pair(option: string, value: string)

  /** One line; where there is no delimiter the second piece is undefined and trimming it throws. */
  function ParseLine(line: string): Option<Pair> {
    var pieces := Split(IsDelimiter, line);
    if |pieces| < 2 then None else Some(Pair(Trim(pieces[0]), Trim(pieces[1])))
  }

  function ParseLines(lines: seq<string>): Option<seq<Pair>> {
    if lines == [] then Some([]) else
      var first, rest := ParseLine(lines[0]), ParseLines(lines[1..]);
      if first.Some? && rest.Some? then Some([first.value] + rest.value) else None
  }

  /** `convertModalParametersToArray` on a non-empty text; None is the exception. */
  function Parse(s: string): Option<seq<Pair>> {
    ParseLines(Split(IsBreak, s))
  }

  // ---------- The validator means lines ----------

  lemma SpanIsFirstPiece(k: string, c: char, rest: string)
    requires IsPlainText(k) && !IsPlain(c)
    ensures Span(IsPlain, k + ([c] + rest)) == |k|
  {
    SpanOfRun(IsPlain, k, [c] + rest);
  }

  /** A last line matches. */
  lemma MatchesLastLine(k: string, v: string, d: char)
    requires IsPlainText(k) && IsPlainText(v) && IsDelimiter(d)
    ensures Matches(k + ([d] + v), d)
  {
    SpanIsFirstPiece(k, d, v);
    CutAt(k, d, v);
    SpanOfRun(IsPlain, v, "");
    assert v + "" == v;
  }

  /** A line in front of a text that matches. */
  lemma MatchesLineFirst(k: string, v: string, d: char, c: char, rest: string)
    requires IsPlainText(k) && IsPlainText(v) && IsDelimiter(d) && IsBreak(c) && Matches(rest, d)
    ensures Matches(k + ([d] + (v + ([c] + rest))), d)
  {
    SpanIsFirstPiece(k, d, v + ([c] + rest));
    CutAt(k, d, v + ([c] + rest));
    SpanIsFirstPiece(v, c, rest);
    CutAt(v, c, rest);
  }

  lemma CutSelf(s: string, n: nat)
    requires n < |s|
    ensures s == s[..n] + ([s[n]] + s[n + 1..])
  {
  }

  datatype Tail = End | More(newline: char, rest: string)

  /** What a match begins with: one line, and then the end or a break and a match. */
  lemma MatchesParts(s: string, d: char) returns (k: string, v: string, tail: Tail)
    requires Matches(s, d) && IsDelimiter(d)
    ensures IsPlainText(k) && IsPlainText(v)
    ensures tail.End? ==> s == k + ([d] + v)
    ensures tail.More? ==>
              && IsBreak(tail.newline) && Matches(tail.rest, d) && |tail.rest| < |s|
              && s == k + ([d] + (v + ([tail.newline] + tail.rest)))
  {
    var n := Span(IsPlain, s);
    var after := s[n + 1..];
    var m := Span(IsPlain, after);
    CutSelf(s, n);
    k, v := s[..n], after[..m];
    if m < |after| {
      CutSelf(after, m);
      tail := More(after[m], after[m + 1..]);
    } else {
      tail := End;
    }
  }

  lemma LineIsOnePiece(k: string, v: string, d: char)
    requires IsPlainText(k) && IsPlainText(v) && IsDelimiter(d)
    ensures FreeOf(IsBreak, k + ([d] + v))
    ensures Split(IsDelimiter, k + ([d] + v)) == [k, v]
  {
    SplitPiece(IsDelimiter, v);
    SplitFirst(IsDelimiter, k, d, v);
  }

  ghost predicate AllLines(lines: seq<string>, d: char) {
    forall i | 0 <= i < |lines| :: IsLine(lines[i], d)
  }

  lemma LineAssoc(k: string, v: string, d: char, c: char, rest: string)
    ensures k + ([d] + (v + ([c] + rest))) == (k + ([d] + v)) + ([c] + rest)
  {
  }

  lemma {:induction false} MatchGivesLines(s: string, d: char)
    requires IsDelimiter(d) && Matches(s, d)
    ensures AllLines(Split(IsBreak, s), d)
    decreases |s|
  {
    var k, v, tail := MatchesParts(s, d);
    var line := k + ([d] + v);
    LineIsOnePiece(k, v, d);
    assert IsLine(line, d);
    match tail
    case More(c, more) =>
      LineAssoc(k, v, d, c, more);
      MatchGivesLines(more, d);
      SplitFirst(IsBreak, line, c, more);
      OneLineMore(line, Split(IsBreak, more), d);
    case End =>
      SplitPiece(IsBreak, line);
      OneLineMore(line, [], d);
      assert [line] + [] == [line];
  }

  lemma OneLineMore(line: string, lines: seq<string>, d: char)
    requires IsLine(line, d) && AllLines(lines, d)
    ensures AllLines([line] + lines, d)
  {
  }

  lemma LineAlone(line: string, d: char)
    requires IsDelimiter(d) && IsLine(line, d)
    ensures Matches(line, d)
  {
    var k, v :| IsPlainText(k) && IsPlainText(v) && line == k + ([d] + v);
    MatchesLastLine(k, v, d);
  }

  lemma LineInFront(line: string, d: char, c: char, rest: string)
    requires IsDelimiter(d) && IsLine(line, d) && IsBreak(c) && Matches(rest, d)
    ensures Matches(line + ([c] + rest), d)
  {
    var k, v :| IsPlainText(k) && IsPlainText(v) && line == k + ([d] + v);
    LineAssoc(k, v, d, c, rest);
    MatchesLineFirst(k, v, d, c, rest);
  }

  lemma {:induction false} LinesGiveMatch(s: string, d: char)
    requires IsDelimiter(d) && AllLines(Split(IsBreak, s), d)
    ensures Matches(s, d)
    decreases |s|
  {
    var lines, n := Split(IsBreak, s), FirstPiece(IsBreak, s);
    assert IsLine(lines[0], d);
    if n == |s| {
      LineAlone(s, d);
    } else {
      var rest := s[n + 1..];
      CutSelf(s, n);
      LinesAfterFirst(s[..n], Split(IsBreak, rest), d);
      LinesGiveMatch(rest, d);
      LineInFront(s[..n], d, s[n], rest);
    }
  }

  lemma LinesAfterFirst(line: string, lines: seq<string>, d: char)
    requires AllLines([line] + lines, d)
    ensures AllLines(lines, d)
  {
    assert forall i | 0 <= i < |lines| :: lines[i] == ([line] + lines)[i + 1];
  }

  /** A text matches with a delimiter exactly when each of its lines is a key, that delimiter and a value. */
  lemma MatchesMeansLines(s: string, d: char)
    requires IsDelimiter(d)
    ensures Matches(s, d) <==> AllLines(Split(IsBreak, s), d)
  {
    if Matches(s, d) {
      MatchGivesLines(s, d);
    }
    if AllLines(Split(IsBreak, s), d) {
      LinesGiveMatch(s, d);
    }
  }

  // ---------- Validator and parser agree ----------

  /** The pair a line of two pieces stands for. */
  predicate IsPairOf(p: Pair, line: string) {
    var pieces := Split(IsDelimiter, line);
    |pieces| == 2 && p == Pair(Trim(pieces[0]), Trim(pieces[1]))
  }

  lemma LineParses(line: string, d: char)
    requires IsDelimiter(d) && IsLine(line, d)
    ensures ParseLine(line).Some? && IsPairOf(ParseLine(line).value, line)
  {
    var k, v :| IsPlainText(k) && IsPlainText(v) && line == k + ([d] + v);
    LineIsOnePiece(k, v, d);
  }

  lemma {:induction false} LinesParse(lines: seq<string>, d: char)
    requires IsDelimiter(d) && AllLines(lines, d)
    ensures ParseLines(lines).Some? && |ParseLines(lines).value| == |lines|
    ensures forall i | 0 <= i < |lines| :: IsPairOf(ParseLines(lines).value[i], lines[i])
    decreases |lines|
  {
    if lines != [] {
      LineParses(lines[0], d);
      LinesParse(lines[1..], d);
    }
  }

  /** On every non-empty text the validator accepts, the parser is defined and yields exactly one
      pair for each line, from the two pieces the line has. */
  lemma AcceptedParses(s: string)
    requires Accepts(s) && s != ""
    ensures var lines := Split(IsBreak, s);
            && Parse(s).Some? && |Parse(s).value| == |lines|
            && forall i | 0 <= i < |lines| :: IsPairOf(Parse(s).value[i], lines[i])
  {
    var d := if Matches(s, ':') then ':' else '=';
    MatchesMeansLines(s, d);
    LinesParse(Split(IsBreak, s), d);
  }

  // ---------- Printing ----------

  predicate IsTrimmed(s: string) {
    IsPlainText(s) && !IsSpace(s[0]) && !IsSpace(s[|s| - 1])
  }

  function PrintPair(p: Pair, d: char): string {
    p.option + ([d] + p.value)
  }

  function PrintPairs(pairs: seq<Pair>, d: char): seq<string> {
    seq(|pairs|, i requires 0 <= i < |pairs| => PrintPair(pairs[i], d))
  }

  lemma {:induction false} PrintedLinesParse(pairs: seq<Pair>, d: char)
    requires IsDelimiter(d) && forall i | 0 <= i < |pairs| :: IsTrimmed(pairs[i].option) && IsTrimmed(pairs[i].value)
    ensures ParseLines(PrintPairs(pairs, d)) == Some(pairs)
    decreases |pairs|
  {
    if pairs != [] {
      LineIsOnePiece(pairs[0].option, pairs[0].value, d);
      assert PrintPairs(pairs, d)[1..] == PrintPairs(pairs[1..], d);
      PrintedLinesParse(pairs[1..], d);
      assert pairs == [pairs[0]] + pairs[1..];
    }
  }

  /** Printing trimmed pairs with one delimiter, a pair a line, gives a text that is accepted and
      parses back to the pairs. */
  lemma PrintParse(pairs: seq<Pair>, d: char, newline: char)
    requires pairs != [] && IsDelimiter(d) && IsBreak(newline)
    requires forall i | 0 <= i < |pairs| :: IsTrimmed(pairs[i].option) && IsTrimmed(pairs[i].value)
    ensures var text := Join(PrintPairs(pairs, d), newline); Accepts(text) && Parse(text) == Some(pairs)
  {
    var lines := PrintPairs(pairs, d);
    forall i | 0 <= i < |lines| ensures FreeOf(IsBreak, lines[i]) && IsLine(lines[i], d) {
      LineIsOnePiece(pairs[i].option, pairs[i].value, d);
    }
    SplitJoin(IsBreak, lines, newline);
    MatchesMeansLines(Join(lines, newline), d);
    PrintedLinesParse(pairs, d);
  }

  /** Any line with a delimiter gives what is in front of the first one and what is behind it, up to the
      next one or the end, both trimmed. */
  lemma LineMeans(k: string, d: char, v: string, rest: string)
    requires FreeOf(IsDelimiter, k) && IsDelimiter(d) && FreeOf(IsDelimiter, v)
    requires rest == "" || IsDelimiter(rest[0])
    ensures ParseLine(k + ([d] + (v + rest))) == Some(Pair(Trim(k), Trim(v)))
  {
    SplitFirst(IsDelimiter, k, d, v + rest);
    if rest == "" {
      assert v + rest == v;
      SplitPiece(IsDelimiter, v);
    } else {
      assert rest == [rest[0]] + rest[1..];
      SplitFirst(IsDelimiter, v, rest[0], rest[1..]);
    }
  }

  lemma OnePieceIff(line: string)
    ensures |Split(IsDelimiter, line)| < 2 <==> FreeOf(IsDelimiter, line)
  {
    if FreeOf(IsDelimiter, line) {
      SplitPiece(IsDelimiter, line);
    }
  }

  ghost predicate SomeWithout(lines: seq<string>) {
    exists i :: 0 <= i < |lines| && FreeOf(IsDelimiter, lines[i])
  }

  lemma {:induction false} LinesThrowIff(lines: seq<string>)
    ensures ParseLines(lines) == None <==> SomeWithout(lines)
    decreases |lines|
  {
    if lines != [] {
      OnePieceIff(lines[0]);
      LinesThrowIff(lines[1..]);
      assert forall i | 1 <= i < |lines| :: lines[i] == lines[1..][i - 1];
      if i :| 0 <= i < |lines[1..]| && FreeOf(IsDelimiter, lines[1..][i]) {
        assert FreeOf(IsDelimiter, lines[i + 1]);
      }
    }
  }

  /** The parser throws exactly if some line, be it an empty one, has no delimiter. */
  lemma ParseThrowsIff(s: string)
    ensures Parse(s) == None <==> SomeWithout(Split(IsBreak, s))
  {
    LinesThrowIff(Split(IsBreak, s));
  }

  /** The parser alone is more lenient: a second delimiter is not refused, and what follows it is lost. */
  lemma ParserLosesText(k: string, v: string, lost: string, d: char)
    requires IsTrimmed(k) && IsTrimmed(v) && IsTrimmed(lost) && IsDelimiter(d)
    ensures var s := k + ([d] + (v + ([d] + lost))); !Accepts(s) && Parse(s) == Some([Pair(k, v)])
  {
    var s := k + ([d] + (v + ([d] + lost)));
    TwoDelimiters(s, k, v, lost, d);
    ThreePieces(s, k, v, lost);
    if Accepts(s) {
      AcceptedParses(s);
      SplitPiece(IsBreak, s);
    }
  }

  lemma TwoDelimiters(s: string, k: string, v: string, lost: string, d: char)
    requires s == k + ([d] + (v + ([d] + lost)))
    requires IsPlainText(k) && IsPlainText(v) && IsPlainText(lost) && IsDelimiter(d)
    ensures Split(IsDelimiter, s) == [k] + ([v] + [lost]) && FreeOf(IsBreak, s)
  {
    var rest := v + ([d] + lost);
    LineIsOnePiece(v, lost, d);
    assert [v, lost] == [v] + [lost];
    SplitFirst(IsDelimiter, k, d, rest);
    FreeOfBreaks(k, d, rest);
  }

  lemma FreeOfBreaks(k: string, d: char, rest: string)
    requires FreeOf(IsBreak, k) && !IsBreak(d) && FreeOf(IsBreak, rest)
    ensures FreeOf(IsBreak, k + ([d] + rest))
  {
    var s := k + ([d] + rest);
    forall i | 0 <= i < |s| ensures !IsBreak(s[i]) {
      if i > |k| {
        assert s[i] == rest[i - |k| - 1];
      }
    }
  }

  lemma OneLineParses(line: string)
    requires FreeOf(IsBreak, line)
    ensures var first := ParseLine(line); Parse(line) == if first.Some? then Some([first.value]) else None
  {
    SplitPiece(IsBreak, line);
    var lines := [line];
    assert lines[1..] == [];
    assert ParseLines(lines[1..]) == Some([]);
    if ParseLine(line).Some? {
      assert [ParseLine(line).value] + [] == [ParseLine(line).value];
    }
  }

  lemma ThreePieces(s: string, k: string, v: string, lost: string)
    requires Split(IsDelimiter, s) == [k] + ([v] + [lost]) && FreeOf(IsBreak, s)
    requires IsTrimmed(k) && IsTrimmed(v)
    ensures |Split(IsDelimiter, s)| == 3 && Parse(s) == Some([Pair(k, v)])
  {
    OneLineParses(s);
    assert Trim(k) == k && Trim(v) == v;
    assert Split(IsDelimiter, s)[0] == k && Split(IsDelimiter, s)[1] == v;
  }
}
