/**
 Keys of the document editor: `a.b[0].c`.
 The tokeniser and the validator follow the two regular expressions of the Yedit class,
 over ASCII digits; a separator is any string, as in the module's arguments.
 */
module YeditKey {
  import opened Decimal
  import opened Texts
  import opened Wrappers

  /** One match of `re_key`: either group 1 (an index) or group 2 (a dictionary key) is non-empty. */
  datatype Segment = Index(i: int) | Key(k: string)

  predicate IsBaseChar(c: char) {
    IsDigit(c) || 'a' <= c <= 'z' || 'A' <= c <= 'Z' || c in "/_-"
  }

  /** The character class of `re_key`: the common separators are key characters unless chosen. */
  predicate IsKeyChar(c: char, sep: string) {
    IsBaseChar(c) || (c in ".#|:" && [c] != sep)
  }

  /** `\[(-?\d+)\]` at the start of s: the number and the length of the match. */
  function MatchIndex(s: string): (r: Option<(int, nat)>)
    ensures r.Some? ==> 3 <= r.value.1 <= |s| && s[0] == '['
  {
    if s == "" || s[0] != '[' then None else
      var start := if |s| > 1 && s[1] == '-' then 2 else 1;
      var n := Span(IsDigit, s[start..]);
      if n == 0 || start + n == |s| || s[start + n] != ']' then None else
        var magnitude: int := ParseNat(s[start..][..n]);
        Some((if start == 2 then -magnitude else magnitude, start + n + 1))
  }

  /** `parse_key`: all matches of `re_key`, left to right; text that matches nothing is skipped. */
  function ParseKey(s: string, sep: string): (path: seq<Segment>)
    ensures forall i | 0 <= i < |path| :: path[i].Key? ==> path[i].k != ""
    decreases |s|
  {
    if s == "" then [] else
      var index := MatchIndex(s);
      if index.Some? then [Index(index.value.0)] + ParseKey(s[index.value.1..], sep) else
        var n := Span(c => IsKeyChar(c, sep), s);
        if n > 0 then [Key(s[..n])] + ParseKey(s[n..], sep) else ParseKey(s[1..], sep)
  }

  /** One repetition of the inner group of `re_valid_key`, up to its optional last character.
      The class holds a literal `%` and `s`; it is never filled with separators. */
  function MatchUnit(s: string): (n: nat)
    ensures n <= |s|
  {
    if s == "" then 0
    else if IsBaseChar(s[0]) || s[0] == '%' then 1
    else if MatchIndex(s).Some? then MatchIndex(s).value.1
    else 0
  }

  /** `valid_key`: `(unit.?)+$`, where `.` is any character but a line feed and `$` also
      matches before a final line feed. A run of class characters is a run of one-character
      units, so units of one character lose no match. */
  predicate ValidKey(s: string)
    decreases |s|, 0
  {
    var n := MatchUnit(s);
    n > 0 && (ValidTail(s[n..]) || (n < |s| && s[n] != '\n' && ValidTail(s[n + 1..])))
  }

  predicate ValidTail(s: string)
    decreases |s|, 1
  {
    s == "" || s == "\n" || ValidKey(s)
  }

  function RenderInt(i: int): string {
    if i < 0 then "-" + PrintNat(-i) else PrintNat(i)
  }

  function RenderSegment(x: Segment): string {
    match x
    case Index(i) => "[" + RenderInt(i) + "]"
    case Key(k) => k
  }

  /** The text of a path: keys are set off by the separator, indices by their brackets. */
  function Render(path: seq<Segment>, sep: string): string {
    if path == [] then "" else RenderSegment(path[0]) + RenderRest(path[1..], sep)
  }

  function RenderRest(path: seq<Segment>, sep: string): string {
    if path == [] then "" else
      (if path[0].Key? then sep else "") + RenderSegment(path[0]) + RenderRest(path[1..], sep)
  }

  /** Text without key characters. */
  predicate HoldsNoKey(s: string, sep: string) {
    forall i | 0 <= i < |s| :: !IsKeyChar(s[i], sep)
  }

  /** A separator the tokeniser skips as a whole: it holds no key character, and two of them
      around a number do not make an index of it. */
  predicate Separates(sep: string) {
    sep != "" && HoldsNoKey(sep, sep) && !(sep[0] == ']' && sep[|sep| - 1] == '[')
  }

  /** A key the tokeniser takes as a whole. */
  predicate IsKey(k: string, sep: string) {
    k != "" && forall i | 0 <= i < |k| :: IsKeyChar(k[i], sep)
  }

  predicate IsBaseKey(k: string) {
    k != "" && forall i | 0 <= i < |k| :: IsBaseChar(k[i])
  }

  predicate IsPath(path: seq<Segment>, sep: string) {
    forall i | 0 <= i < |path| :: path[i].Key? ==> IsKey(path[i].k, sep)
  }

  // ---------- Single tokens ----------

  lemma MatchBracketed(s: string, start: nat, digits: string, after: string)
    requires s != "" && s[0] == '[' && 1 <= start <= |s|
    requires start == if |s| > 1 && s[1] == '-' then 2 else 1
    requires digits != "" && forall i | 0 <= i < |digits| :: IsDigit(digits[i])
    requires after != "" && after[0] == ']'
    requires s[start..] == digits + after
    ensures var n: int := ParseNat(digits);
            MatchIndex(s) == Some((if start == 2 then -n else n, start + |digits| + 1))
  {
    SpanOfRun(IsDigit, digits, after);
    assert s[start..][..|digits|] == digits;
    assert s[start + |digits|] == (digits + after)[|digits|];
  }

  lemma MatchRenderedIndex(i: int, rest: string)
    ensures var t := RenderSegment(Index(i));
            MatchIndex(t + rest) == Some((i, |t|))
  {
    var t := RenderSegment(Index(i));
    var n: int := if i < 0 then -i else i;
    var digits := PrintNat(n);
    var start := if i < 0 then 2 else 1;
    assert t[start..] == digits + "]";
    var s := t + rest;
    assert s[start..] == t[start..] + rest == digits + ("]" + rest);
    assert s[1] == t[1] == if i < 0 then '-' else digits[0];
    MatchBracketed(s, start, digits, "]" + rest);
    ParsePrintNat(n);
  }

  lemma ParseIndexFirst(i: int, rest: string, sep: string)
    ensures ParseKey(RenderSegment(Index(i)) + rest, sep) == [Index(i)] + ParseKey(rest, sep)
  {
    var t := RenderSegment(Index(i));
    MatchRenderedIndex(i, rest);
    assert (t + rest)[|t|..] == rest;
  }

  lemma ParseKeyFirst(k: string, rest: string, sep: string)
    requires IsKey(k, sep)
    requires rest == "" || !IsKeyChar(rest[0], sep)
    ensures ParseKey(k + rest, sep) == [Key(k)] + ParseKey(rest, sep)
  {
    assert (k + rest)[0] == k[0] && IsKeyChar(k[0], sep);
    SpanOfRun(c => IsKeyChar(c, sep), k, rest);
    assert (k + rest)[..|k|] == k && (k + rest)[|k|..] == rest;
  }

  /** An opening bracket in front of a text that does not go on as an index. */
  predicate OpensNothing(rest: string) {
    MatchIndex("[" + rest).None?
  }

  lemma {:induction false} ParseSkips(skip: string, rest: string, sep: string)
    requires HoldsNoKey(skip, sep)
    requires skip != "" && skip[|skip| - 1] == '[' ==> OpensNothing(rest)
    ensures ParseKey(skip + rest, sep) == ParseKey(rest, sep)
    decreases |skip|
  {
    if skip == "" {
      assert skip + rest == rest;
    } else {
      var s := skip + rest;
      assert s[0] == skip[0];
      assert s[1..] == skip[1..] + rest;
      if |skip| == 1 {
        assert skip == [skip[0]];
      } else {
        assert s[1] == skip[1] && !IsDigit(s[1]);
      }
      ParseSkips(skip[1..], rest, sep);
    }
  }

  /** A key behind an opening bracket is no index, unless a closing bracket follows it. */
  lemma KeyIsNoIndex(k: string, rest: string, sep: string)
    requires IsKey(k, sep)
    requires rest == "" || (!IsKeyChar(rest[0], sep) && rest[0] != ']')
    ensures OpensNothing(k + rest)
  {
    var s := "[" + (k + rest);
    forall i | 0 < i < |s| ensures s[i] == (if i <= |k| then k[i - 1] else rest[i - 1 - |k|]) {
      assert s[i] == (k + rest)[i - 1];
    }
    var start := if |s| > 1 && s[1] == '-' then 2 else 1;
    var n := Span(IsDigit, s[start..]);
    if |k| + 1 < |s| {
      assert s[start..][|k| + 1 - start] == rest[0];
      SpanStopsAt(IsDigit, s[start..], |k| + 1 - start);
    }
  }

  /** A text of one character is a key, or holds nothing: letters, digits, slash, underscore and hyphen
      are keys, and so are the four common separators that are not the separator in use. */
  lemma OneCharacter(c: char, sep: string)
    ensures ParseKey([c], sep)
         == if 'a' <= c <= 'z' || 'A' <= c <= 'Z' || '0' <= c <= '9' || c == '/' || c == '_' || c == '-'
               || ((c == '.' || c == '#' || c == '|' || c == ':') && sep != [c])
            then [Key([c])] else []
  {
    assert [c] + "" == [c];
    if IsKeyChar(c, sep) {
      ParseKeyFirst([c], "", sep);
    } else {
      assert MatchIndex([c]).None?;
    }
  }

  // ---------- The round trip ----------

  lemma RestStartsOutsideKeys(path: seq<Segment>, sep: string)
    requires Separates(sep)
    ensures var r := RenderRest(path, sep);
            r == "" || (!IsKeyChar(r[0], sep) && (r[0] == sep[0] || r[0] == '['))
  {
    if path != [] {
      var r := RenderRest(path, sep);
      assert r[0] == if path[0].Key? then sep[0] else '[';
    }
  }

  lemma ParseSegmentFirst(x: Segment, rest: string, sep: string)
    requires Separates(sep) && IsPath([x], sep)
    requires rest == "" || !IsKeyChar(rest[0], sep)
    ensures ParseKey(RenderSegment(x) + rest, sep) == [x] + ParseKey(rest, sep)
  {
    assert IsPath([x], sep) ==> [x][0].Key? ==> IsKey([x][0].k, sep);
    match x
    case Index(i) => ParseIndexFirst(i, rest, sep);
    case Key(k) => ParseKeyFirst(k, rest, sep);
  }

  lemma {:induction false} ParseRenderRest(path: seq<Segment>, sep: string)
    requires Separates(sep) && IsPath(path, sep)
    ensures ParseKey(RenderRest(path, sep), sep) == path
  {
    if path != [] {
      var x, rest := path[0], RenderRest(path[1..], sep);
      ParseRenderRest(path[1..], sep);
      RestStartsOutsideKeys(path[1..], sep);
      ParseSegmentFirst(x, rest, sep);
      if x.Key? && sep[|sep| - 1] == '[' {
        KeyIsNoIndex(x.k, rest, sep);
      }
      ParseSkips(if x.Key? then sep else "", RenderSegment(x) + rest, sep);
      RenderRestSplits(path, sep);
      assert path == [x] + path[1..];
    }
  }

  lemma RenderRestSplits(path: seq<Segment>, sep: string)
    requires path != []
    ensures RenderRest(path, sep)
         == (if path[0].Key? then sep else "") + (RenderSegment(path[0]) + RenderRest(path[1..], sep))
  {
  }

  /** Rendering a path and tokenising the text gives the path back, for every integer index
      and every separator that separates. */
  lemma ParseRender(path: seq<Segment>, sep: string)
    requires Separates(sep) && IsPath(path, sep)
    ensures ParseKey(Render(path, sep), sep) == path
  {
    if path != [] {
      ParseRenderRest(path[1..], sep);
      RestStartsOutsideKeys(path[1..], sep);
      ParseSegmentFirst(path[0], RenderRest(path[1..], sep), sep);
      assert path == [path[0]] + path[1..];
    }
  }

  /** A path one longer has one text more. */
  lemma {:induction false} RenderRestGrows(path: seq<Segment>, x: Segment, sep: string)
    ensures RenderRest(path + [x], sep) == RenderRest(path, sep) + ((if x.Key? then sep else "") + RenderSegment(x))
    decreases |path|
  {
    var longer, more := path + [x], (if x.Key? then sep else "") + RenderSegment(x);
    if path == [] {
      assert longer == [x] && longer[1..] == [];
      assert RenderRest(longer[1..], sep) == "" && more + "" == more && "" + more == more;
    } else {
      assert longer[0] == path[0] && longer[1..] == path[1..] + [x];
      RenderRestGrows(path[1..], x, sep);
      TextAssoc((if path[0].Key? then sep else "") + RenderSegment(path[0]), RenderRest(path[1..], sep), more);
    }
  }

  lemma TextAssoc(a: string, b: string, c: string)
    ensures a + (b + c) == (a + b) + c
  {
  }

  lemma RenderGrows(path: seq<Segment>, x: Segment, sep: string)
    requires path != []
    ensures Render(path + [x], sep) == Render(path, sep) + ((if x.Key? then sep else "") + RenderSegment(x))
  {
    assert (path + [x])[0] == path[0] && (path + [x])[1..] == path[1..] + [x];
    RenderRestGrows(path[1..], x, sep);
  }

  // ---------- Which separators the round trip holds for ----------

  ghost predicate RoundTrips(sep: string) {
    forall path | IsPath(path, sep) :: ParseKey(Render(path, sep), sep) == path
  }

  /** The round trip holds for all paths exactly over the separators that separate. */
  lemma WhichSeparate(sep: string)
    ensures RoundTrips(sep) <==> Separates(sep)
  {
    if Separates(sep) {
      forall path | IsPath(path, sep) ensures ParseKey(Render(path, sep), sep) == path {
        ParseRender(path, sep);
      }
    } else {
      SomePathFails("a", 1, "b", sep);
    }
  }

  /** A separator that does not separate fails on two keys, or on a number between two keys. */
  lemma SomePathFails(a: string, i: nat, b: string, sep: string)
    requires IsBaseKey(a) && IsBaseKey(b) && !Separates(sep)
    ensures !RoundTrips(sep)
  {
    var two, three := [Key(a), Key(b)], [Key(a), Key(PrintNat(i)), Key(b)];
    assert IsKey(a, sep) && IsKey(b, sep) && IsKey(PrintNat(i), sep);
    assert IsPath(two, sep) && IsPath(three, sep);
    if sep == "" {
      KeysWithoutSeparator(a, b, sep);
    } else if HoldsNoKey(sep, sep) {
      BracketsCatchNumber(a, i, b, sep);
    } else {
      KeyInSeparatorShows(a, b, sep);
    }
  }

  lemma KeysWithoutSeparator(a: string, b: string, sep: string)
    requires IsKey(a, sep) && IsKey(b, sep) && sep == ""
    ensures ParseKey(Render([Key(a), Key(b)], sep), sep) != [Key(a), Key(b)]
  {
    TwoKeysRendered(a, b, sep);
    ParseKeyFirst(a + b, "", sep);
    assert sep + b == b && (a + b) + "" == a + b;
  }

  /** For one character that means: it is no letter, no digit and none of `/_-`; the four common
      separators and the brackets are all fit. */
  lemma WhichCharactersSeparate(c: char)
    ensures RoundTrips([c]) <==> !IsBaseChar(c)
  {
    WhichSeparate([c]);
    assert [c][0] == c;
    if Separates([c]) {
      assert !IsKeyChar([c][0], [c]);
    }
  }

  lemma TwoKeysRendered(a: string, b: string, sep: string)
    ensures Render([Key(a), Key(b)], sep) == a + (sep + b)
  {
    var tail := [Key(b)];
    assert [Key(a), Key(b)][1..] == tail;
    assert RenderRest(tail[1..], sep) == "";
    assert RenderRest(tail, sep) == sep + b;
  }

  /** With a separator made of key characters alone, two keys fuse into one token. */
  lemma KeySeparatorFuses(a: string, b: string, sep: string)
    requires IsKey(a, sep) && IsKey(b, sep)
    requires IsKey(sep, sep)
    ensures ParseKey(Render([Key(a), Key(b)], sep), sep) == [Key(a + (sep + b))]
  {
    TwoKeysRendered(a, b, sep);
    var text := a + (sep + b);
    ParseKeyFirst(text, "", sep);
    assert text + "" == text;
  }

  function CountKeyChars(s: string, sep: string): nat {
    if s == "" then 0 else (if IsKeyChar(s[0], sep) then 1 else 0) + CountKeyChars(s[1..], sep)
  }

  lemma {:induction false} CountAppends(s: string, t: string, sep: string)
    ensures CountKeyChars(s + t, sep) == CountKeyChars(s, sep) + CountKeyChars(t, sep)
  {
    if s == "" {
      assert s + t == t;
    } else {
      assert (s + t)[0] == s[0] && (s + t)[1..] == s[1..] + t;
      CountAppends(s[1..], t, sep);
    }
  }

  lemma {:induction false} CountOfKey(k: string, sep: string)
    requires forall i | 0 <= i < |k| :: IsKeyChar(k[i], sep)
    ensures CountKeyChars(k, sep) == |k|
  {
    if k != "" {
      CountOfKey(k[1..], sep);
    }
  }

  lemma {:induction false} CountHoldsKey(s: string, i: nat, sep: string)
    requires i < |s| && IsKeyChar(s[i], sep)
    ensures CountKeyChars(s, sep) > 0
  {
    if i > 0 {
      CountHoldsKey(s[1..], i - 1, sep);
    }
  }

  function KeyLength(path: seq<Segment>): nat {
    if path == [] then 0 else (if path[0].Key? then |path[0].k| else 0) + KeyLength(path[1..])
  }

  /** A text of which only keys are taken: the tokens hold its key characters, each of them. */
  lemma {:induction false} KeysHoldKeyChars(s: string, sep: string)
    requires forall i | 0 <= i < |ParseKey(s, sep)| :: ParseKey(s, sep)[i].Key?
    ensures KeyLength(ParseKey(s, sep)) == CountKeyChars(s, sep)
    decreases |s|
  {
    if s != "" {
      var path := ParseKey(s, sep);
      var n := Span(c => IsKeyChar(c, sep), s);
      if n > 0 {
        assert path[1..] == ParseKey(s[n..], sep);
        KeysHoldKeyChars(s[n..], sep);
        assert s == s[..n] + s[n..];
        CountAppends(s[..n], s[n..], sep);
        CountOfKey(s[..n], sep);
      } else {
        KeysHoldKeyChars(s[1..], sep);
      }
    }
  }

  /** A key character in the separator shows up among the tokens. */
  lemma KeyInSeparatorShows(a: string, b: string, sep: string)
    requires IsKey(a, sep) && IsKey(b, sep) && !HoldsNoKey(sep, sep)
    ensures ParseKey(Render([Key(a), Key(b)], sep), sep) != [Key(a), Key(b)]
  {
    var text, path := Render([Key(a), Key(b)], sep), [Key(a), Key(b)];
    TwoKeysRendered(a, b, sep);
    CountAppends(a, sep + b, sep);
    CountAppends(sep, b, sep);
    CountOfKey(a, sep);
    CountOfKey(b, sep);
    var i :| 0 <= i < |sep| && IsKeyChar(sep[i], sep);
    CountHoldsKey(sep, i, sep);
    assert path[1..] == [Key(b)] && path[1..][1..] == [];
    assert KeyLength(path[1..]) == |b|;
    if ParseKey(text, sep) == path {
      KeysHoldKeyChars(text, sep);
    }
  }

  /** A separator that ends with an opening and begins with a closing bracket makes an index of a
      number between two of them. */
  lemma BracketsCatchNumber(a: string, i: nat, b: string, sep: string)
    requires IsKey(a, sep) && sep != "" && HoldsNoKey(sep, sep) && sep[0] == ']' && sep[|sep| - 1] == '['
    ensures var path := [Key(a), Key(PrintNat(i)), Key(b)]; ParseKey(Render(path, sep), sep) != path
  {
    NumberRendered(a, i, b, sep);
    NumberTaken(a + (sep + (PrintNat(i) + (sep + b))), a, i, b, sep);
  }

  lemma NumberTaken(text: string, a: string, i: nat, b: string, sep: string)
    requires IsKey(a, sep) && sep != "" && HoldsNoKey(sep, sep) && sep[0] == ']' && sep[|sep| - 1] == '['
    requires text == a + (sep + (PrintNat(i) + (sep + b)))
    ensures |ParseKey(text, sep)| > 1 && ParseKey(text, sep)[1].Index?
  {
    var open, close := sep[..|sep| - 1], sep[1..];
    SplitBrackets(sep, open, close);
    NumberInBrackets(sep, open, PrintNat(i), close, b);
    IndexAfterKey(a, open, i, close + b, sep);
  }

  lemma SplitBrackets(sep: string, open: string, close: string)
    requires sep != "" && sep[0] == ']' && sep[|sep| - 1] == '[' && HoldsNoKey(sep, sep)
    requires open == sep[..|sep| - 1] && close == sep[1..]
    ensures sep == open + "[" == "]" + close && HoldsNoKey(open, sep)
  {
  }

  lemma NumberInBrackets(sep: string, open: string, digits: string, close: string, b: string)
    requires sep == open + "[" == "]" + close
    ensures sep + (digits + (sep + b)) == open + ((("[" + digits) + "]") + (close + b))
  {
    assert "]" + (close + b) == ("]" + close) + b;
    assert (("[" + digits) + "]") + (close + b) == "[" + (digits + ("]" + (close + b)));
    assert open + ("[" + (digits + (sep + b))) == (open + "[") + (digits + (sep + b));
  }

  lemma IndexAfterKey(a: string, skip: string, i: nat, tail: string, sep: string)
    requires IsKey(a, sep) && HoldsNoKey(skip, sep)
    ensures var index := ("[" + PrintNat(i)) + "]";
            |ParseKey(a + (skip + (index + tail)), sep)| > 1
            && ParseKey(a + (skip + (index + tail)), sep)[1] == Index(i)
  {
    var index := RenderSegment(Index(i));
    var rest := skip + (index + tail);
    assert rest[0] == if skip == "" then '[' else skip[0];
    ParseKeyFirst(a, rest, sep);
    assert ("[" + (index + tail))[1] == '[';
    ParseSkips(skip, index + tail, sep);
    ParseIndexFirst(i, tail, sep);
  }

  lemma NumberRendered(a: string, i: nat, b: string, sep: string)
    ensures Render([Key(a), Key(PrintNat(i)), Key(b)], sep) == a + (sep + (PrintNat(i) + (sep + b)))
  {
    var path := [Key(a), Key(PrintNat(i)), Key(b)];
    assert path[1..] == [Key(PrintNat(i)), Key(b)] && path[1..][1..] == [Key(b)] && path[1..][1..][1..] == [];
    assert RenderRest(path[1..][1..], sep) == sep + b;
    assert RenderRest(path[1..], sep) == sep + (PrintNat(i) + (sep + b));
  }

  // ---------- The validator ----------

  lemma {:induction false} ValidKeyFirst(k: string, rest: string)
    requires IsBaseKey(k) && ValidTail(rest)
    ensures ValidKey(k + rest)
  {
    assert (k + rest)[0] == k[0];
    assert (k + rest)[1..] == k[1..] + rest;
    if |k| == 1 {
      assert (k + rest)[1..] == rest;
    } else {
      ValidKeyFirst(k[1..], rest);
      assert (k[1..] + rest)[0] == k[1];
    }
  }

  lemma {:induction false} ValidKeySeparated(k: string, between: string, rest: string)
    requires IsBaseKey(k) && |between| == 1 && between[0] != '\n' && ValidTail(rest)
    ensures ValidKey(k + (between + rest))
  {
    var after := between + rest;
    var s := k + after;
    assert s[0] == k[0] && s[1..] == k[1..] + after;
    assert after[0] == between[0] && after[1..] == rest;
    if |k| == 1 {
      assert s[1..] == after;
      assert s[1] == after[0] && s[2..] == after[1..];
    } else {
      ValidKeySeparated(k[1..], between, rest);
      assert s[1..][0] == k[1];
    }
  }

  lemma ValidIndexFirst(i: int, between: string, rest: string)
    requires between == "" || (|between| == 1 && between[0] != '\n')
    requires ValidTail(rest)
    ensures ValidKey(RenderSegment(Index(i)) + (between + rest))
  {
    var t := RenderSegment(Index(i));
    var s := t + (between + rest);
    MatchRenderedIndex(i, between + rest);
    SplitTexts(t, between, rest);
    assert !IsBaseChar(s[0]) && s[0] != '%';
    ValidAfterUnit(s, |t|);
  }

  lemma SplitTexts(t: string, between: string, rest: string)
    requires t != "" && |between| <= 1
    ensures var s := t + (between + rest);
            && s[0] == t[0] && s[|t|..] == between + rest
            && (between == "" ==> s[|t|..] == rest)
            && (between != "" ==> s[|t|] == between[0] && s[|t| + 1..] == rest)
  {
  }

  lemma ValidAfterUnit(s: string, n: nat)
    requires 0 < n == MatchUnit(s)
    requires ValidTail(s[n..]) || (n < |s| && s[n] != '\n' && ValidTail(s[n + 1..]))
    ensures ValidKey(s)
  {
  }

  function RenderTail(path: seq<Segment>, sep: string): (between: string)
    requires path != []
  {
    if |path| > 1 && path[1].Key? then sep else ""
  }

  lemma RenderSplits(path: seq<Segment>, sep: string)
    requires path != []
    ensures Render(path, sep) == RenderSegment(path[0]) + (RenderTail(path, sep) + Render(path[1..], sep))
  {
    if |path| > 1 {
      RenderRestSplits(path[1..], sep);
    }
  }

  /** Text made of whole units, each with or without the character `.` takes. */
  predicate Units(s: string)
    decreases |s|
  {
    var n := MatchUnit(s);
    s == "" || (n > 0 && (Units(s[n..]) || (n < |s| && s[n] != '\n' && Units(s[n + 1..]))))
  }

  /** Text the validator crosses behind a unit: the unit's `.` may take its first character. */
  predicate Crosses(sep: string) {
    Units(sep) || (sep != "" && sep[0] != '\n' && Units(sep[1..]))
  }

  /** A unit within a text is matched the same whatever follows the text. */
  lemma UnitAlone(s: string, rest: string)
    requires MatchUnit(s) > 0
    ensures MatchUnit(s + rest) == MatchUnit(s)
  {
    var t := s + rest;
    assert t[0] == s[0];
    if s[0] == '[' {
      IndexAlone(s, rest);
    }
  }

  lemma IndexAlone(s: string, rest: string)
    requires MatchIndex(s).Some?
    ensures MatchIndex(s + rest) == MatchIndex(s)
  {
    var t := s + rest;
    assert forall i | 0 <= i < |s| :: t[i] == s[i];
    var start := if |s| > 1 && s[1] == '-' then 2 else 1;
    var n := Span(IsDigit, s[start..]);
    assert t[start..] == s[start..] + rest;
    SpanWithin(IsDigit, s[start..], rest);
    assert t[start..][..n] == s[start..][..n];
  }

  lemma {:induction false} UnitsThen(s: string, rest: string)
    requires Units(s) && ValidTail(rest)
    ensures ValidTail(s + rest)
    decreases |s|
  {
    if s == "" {
      assert s + rest == rest;
    } else {
      var n := MatchUnit(s);
      UnitAlone(s, rest);
      CutBefore(s, n, rest);
      if Units(s[n..]) {
        UnitsThen(s[n..], rest);
      } else {
        CutBefore(s, n + 1, rest);
        UnitsThen(s[n + 1..], rest);
      }
      ValidAfterUnit(s + rest, n);
    }
  }

  lemma CutBefore(s: string, n: nat, rest: string)
    requires n <= |s|
    ensures (s + rest)[n..] == s[n..] + rest && s[..n] + (s[n..] + rest) == s + rest
    ensures n < |s| ==> (s + rest)[n] == s[n]
  {
  }

  /** `valid_key` accepts the text of every non-empty path with base keys, for every separator the
      validator crosses. */
  lemma {:induction false} RenderedIsValid(path: seq<Segment>, sep: string)
    requires path != [] && Crosses(sep)
    requires forall i | 0 <= i < |path| :: path[i].Key? ==> IsBaseKey(path[i].k)
    ensures ValidKey(Render(path, sep))
    decreases |path|
  {
    var between, rest := RenderTail(path, sep), Render(path[1..], sep);
    if |path| > 1 {
      RenderedIsValid(path[1..], sep);
    }
    RenderSplits(path, sep);
    CrossesThen(path[0], between, rest);
  }

  lemma CrossesThen(x: Segment, between: string, rest: string)
    requires (x.Key? ==> IsBaseKey(x.k)) && Crosses(between) && ValidTail(rest)
    ensures ValidKey(RenderSegment(x) + (between + rest))
  {
    var after := between + rest;
    if Units(between) {
      UnitsThen(between, rest);
      ValidSegmentFirst(x, "", after);
      assert "" + after == after;
    } else {
      UnitsThen(between[1..], rest);
      CutBefore(between, 1, rest);
      ValidSegmentFirst(x, between[..1], between[1..] + rest);
    }
  }

  // ---------- Which separators the validator accepts ----------

  ghost predicate AlwaysValid(sep: string) {
    forall path: seq<Segment> | path != [] && (forall i | 0 <= i < |path| :: path[i].Key? ==> IsBaseKey(path[i].k)) ::
      ValidKey(Render(path, sep))
  }

  /** A text in front of a base character is valid only if it is made of whole units. */
  lemma {:induction false} OnlyUnits(s: string, b: string)
    requires |b| == 1 && IsBaseChar(b[0]) && ValidTail(s + b)
    ensures Units(s)
    decreases |s|
  {
    if s != "" {
      var t := s + b;
      assert t[|t| - 1] == b[0] && t != "\n";
      var n := MatchUnit(t);
      UnitWithin(s, b);
      assert t[n..] == s[n..] + b;
      if ValidTail(t[n..]) {
        OnlyUnits(s[n..], b);
      } else if n < |s| {
        assert t[n + 1..] == s[n + 1..] + b;
        OnlyUnits(s[n + 1..], b);
      }
    }
  }

  /** A unit cannot reach into a base character behind it. */
  lemma UnitWithin(s: string, b: string)
    requires s != "" && |b| == 1 && IsBaseChar(b[0]) && MatchUnit(s + b) > 0
    ensures 0 < MatchUnit(s) == MatchUnit(s + b) <= |s|
  {
    var t := s + b;
    assert t[0] == s[0];
    if !(IsBaseChar(s[0]) || s[0] == '%') {
      IndexWithin(s, b);
    }
  }

  lemma IndexWithin(s: string, b: string)
    requires s != "" && |b| == 1 && IsBaseChar(b[0]) && MatchIndex(s + b).Some?
    ensures MatchIndex(s) == MatchIndex(s + b)
  {
    var t := s + b;
    var start := if |t| > 1 && t[1] == '-' then 2 else 1;
    var n := Span(IsDigit, t[start..]);
    assert t[start + n] == ']' && t[|s|] == b[0] != ']';
    assert 0 < n && start + n < |s|;
    CutBefore(s, start, b);
    CutBefore(s, start + n, b);
    CutBefore(s, 1, b);
    SpanCut(IsDigit, s[start..], b);
    IndexThere(s, start, n);
    IndexAlone(s, b);
  }

  lemma IndexThere(s: string, start: nat, n: nat)
    requires |s| > 2 && s[0] == '[' && start == (if s[1] == '-' then 2 else 1)
    requires n == Span(IsDigit, s[start..]) > 0 && start + n < |s| && s[start + n] == ']'
    ensures MatchIndex(s).Some?
  {
  }

  /** The validator accepts the text of every path over a separator exactly if it accepts that of
      two one-letter keys, and that is exactly if it crosses the separator. Of single characters
      that is all but the line feed. */
  lemma WhichAreValid(sep: string, a: string, b: string)
    requires IsBaseKey(a) && |a| == 1 && IsBaseKey(b) && |b| == 1
    ensures AlwaysValid(sep) <==> ValidKey(a + (sep + b))
    ensures AlwaysValid(sep) <==> Crosses(sep)
    ensures |sep| == 1 ==> (AlwaysValid(sep) <==> sep != "\n")
  {
    if AlwaysValid(sep) {
      TwoKeysRendered(a, b, sep);
      assert ValidKey(Render([Key(a), Key(b)], sep));
    }
    if ValidKey(a + (sep + b)) {
      ValidOnlyIfCrossed(sep, a, b);
    }
    if Crosses(sep) {
      forall path: seq<Segment> | path != [] && (forall i | 0 <= i < |path| :: path[i].Key? ==> IsBaseKey(path[i].k))
        ensures ValidKey(Render(path, sep))
      {
        RenderedIsValid(path, sep);
      }
    }
    if |sep| == 1 {
      assert sep[1..] == "";
      OneCharacterCrosses(sep);
    }
  }

  lemma ValidOnlyIfCrossed(sep: string, a: string, b: string)
    requires IsBaseKey(a) && |a| == 1 && IsBaseKey(b) && |b| == 1 && ValidKey(a + (sep + b))
    ensures Crosses(sep)
  {
    var after := sep + b;
    var s := a + after;
    assert s[0] == a[0] && s[1..] == after;
    if ValidTail(after) {
      OnlyUnits(sep, b);
    } else if sep != "" {
      assert s[1] == sep[0] && s[2..] == sep[1..] + b;
      OnlyUnits(sep[1..], b);
    }
  }

  lemma OneCharacterCrosses(sep: string)
    requires |sep| == 1
    ensures Crosses(sep) <==> sep[0] != '\n'
  {
    assert sep[1..] == "";
  }

  lemma ValidSegmentFirst(x: Segment, between: string, rest: string)
    requires x.Key? ==> IsBaseKey(x.k)
    requires between == "" || (|between| == 1 && between[0] != '\n')
    requires ValidTail(rest)
    ensures ValidKey(RenderSegment(x) + (between + rest))
  {
    match x
    case Index(i) => ValidIndexFirst(i, between, rest);
    case Key(k) =>
      if between == "" {
        ValidKeyFirst(k, rest);
        assert between + rest == rest;
      } else {
        ValidKeySeparated(k, between, rest);
      }
  }

  /** The validator is wider than the tokeniser: `%` is accepted and holds no token. */
  lemma PercentIsValidButEmpty(sep: string)
    ensures ValidKey("%") && ParseKey("%", sep) == []
  {
    assert "%"[1..] == "";
  }

  // ---------- The language of the validator ----------

  /** `[0-9a-zA-Z%s/_-]` */
  predicate IsRunChar(c: char) {
    '0' <= c <= '9' || 'a' <= c <= 'z' || 'A' <= c <= 'Z' || c == '%' || c == '/' || c == '_' || c == '-'
  }

  predicate IsRun(u: string) {
    u != "" && forall i | 0 <= i < |u| :: IsRunChar(u[i])
  }

  predicate IsNumeral(s: string) {
    s != "" && forall i | 0 <= i < |s| :: IsDigit(s[i])
  }

  /** `\[-?\d+\]` */
  predicate IsBracketed(u: string) {
    |u| > 2 && u[0] == '[' && u[|u| - 1] == ']' &&
    var inner := u[1..|u| - 1];
    IsNumeral(if inner[0] == '-' then inner[1..] else inner)
  }

  /** One unit of the pattern, and what `.?` takes behind it. */
  datatype Piece = Piece(unit: string, extra: string)

  predicate IsUnit(u: string) {
    IsRun(u) || IsBracketed(u)
  }

  predicate IsPiece(p: Piece) {
    IsUnit(p.unit) && |p.extra| <= 1 && p.extra != "\n"
  }

  function TextOf(pieces: seq<Piece>): string {
    if pieces == [] then "" else pieces[0].unit + (pieces[0].extra + TextOf(pieces[1..]))
  }

  /** The text consists of pieces, one or more, and at most a line feed behind them. */
  ghost predicate InPieces(s: string, pieces: seq<Piece>, end: string) {
    && pieces != [] && (forall i | 0 <= i < |pieces| :: IsPiece(pieces[i])) && (end == "" || end == "\n")
    && s == TextOf(pieces) + end
  }

  /** The validator accepts exactly the texts that the regular expression describes. */
  lemma ValidMeansPieces(s: string)
    ensures ValidKey(s) <==> exists pieces, end :: InPieces(s, pieces, end)
  {
    if ValidKey(s) {
      var pieces, end := PiecesOf(s);
      assert InPieces(s, pieces, end);
    }
    if pieces, end :| InPieces(s, pieces, end) {
      PiecesAreValid(pieces, end);
    }
  }

  lemma OnePieceMore(first: Piece, rest: string, more: seq<Piece>, end: string)
    requires IsPiece(first) && InPieces(rest, more, end)
    ensures InPieces(first.unit + (first.extra + rest), [first] + more, end)
  {
    assert ([first] + more)[1..] == more;
    var text := TextOf(more);
    assert first.unit + (first.extra + (text + end)) == (first.unit + (first.extra + text)) + end;
  }

  lemma OnePiece(first: Piece, end: string)
    requires IsPiece(first) && (end == "" || end == "\n")
    ensures InPieces(first.unit + (first.extra + end), [first], end)
  {
    assert TextOf([first]) == first.unit + (first.extra + "");
    assert first.unit + (first.extra + end) == (first.unit + (first.extra + "")) + end;
  }

  lemma CutOff(s: string, n: nat, k: nat)
    requires n <= k <= |s|
    ensures s == s[..n] + (s[n..k] + s[k..])
  {
  }

  lemma FirstPieceOfKey(s: string) returns (first: Piece, rest: string)
    requires ValidKey(s)
    ensures IsPiece(first) && s == first.unit + (first.extra + rest) && ValidTail(rest) && |rest| < |s|
  {
    var n := MatchUnit(s);
    UnitIsPiece(s);
    if ValidTail(s[n..]) {
      CutOff(s, n, n);
      first, rest := Piece(s[..n], s[n..n]), s[n..];
    } else {
      CutOff(s, n, n + 1);
      assert s[n..n + 1] == [s[n]];
      first, rest := Piece(s[..n], s[n..n + 1]), s[n + 1..];
    }
  }

  lemma {:induction false} PiecesOf(s: string) returns (pieces: seq<Piece>, end: string)
    requires ValidKey(s)
    ensures InPieces(s, pieces, end)
    decreases |s|
  {
    var first, rest := FirstPieceOfKey(s);
    if rest == "" || rest == "\n" {
      OnePiece(first, rest);
      pieces, end := [first], rest;
    } else {
      var more, after := PiecesOf(rest);
      OnePieceMore(first, rest, more, after);
      pieces, end := [first] + more, after;
    }
  }

  lemma InnerOf(s: string, k: nat)
    requires 2 <= k <= |s|
    ensures s[..k][1..k - 1] == s[1..k - 1]
  {
  }

  lemma UnitIsPiece(s: string)
    requires MatchUnit(s) > 0
    ensures IsUnit(s[..MatchUnit(s)])
  {
    if !(IsBaseChar(s[0]) || s[0] == '%') {
      var start := if |s| > 1 && s[1] == '-' then 2 else 1;
      var n := Span(IsDigit, s[start..]);
      InnerOf(s, start + n + 1);
      assert s[start..start + n] == s[start..][..n];
      assert start == 2 ==> s[1..start + n][1..] == s[2..2 + n];
    }
  }

  lemma {:induction false} PiecesAreValid(pieces: seq<Piece>, end: string)
    requires pieces != [] && (forall i | 0 <= i < |pieces| :: IsPiece(pieces[i])) && (end == "" || end == "\n")
    ensures ValidKey(TextOf(pieces) + end)
    decreases |pieces|
  {
    var p, rest := pieces[0], TextOf(pieces[1..]) + end;
    if |pieces| == 1 {
      assert TextOf(pieces[1..]) == "";
      assert rest == end;
    } else {
      PiecesAreValid(pieces[1..], end);
    }
    var after := p.extra + rest;
    assert TextOf(pieces) + end == p.unit + after;
    assert p.extra == "" ==> after == rest;
    assert p.extra != "" ==> after[0] == p.extra[0] && p.extra == [p.extra[0]] && after[1..] == rest;
    if IsRun(p.unit) {
      RunIsValid(p.unit, after);
    } else {
      BracketIsValid(p.unit, after);
    }
  }

  /** What may stand behind a unit. */
  predicate FollowsUnit(after: string) {
    ValidTail(after) || (after != "" && after[0] != '\n' && ValidTail(after[1..]))
  }

  lemma {:induction false} RunIsValid(run: string, after: string)
    requires IsRun(run) && FollowsUnit(after)
    ensures ValidKey(run + after)
    decreases |run|
  {
    var s := run + after;
    assert s[0] == run[0] && s[1..] == run[1..] + after;
    if |run| == 1 {
      assert s[1..] == after && (after != "" ==> s[1] == after[0] && s[2..] == after[1..]);
    } else {
      RunIsValid(run[1..], after);
    }
    ValidAfterUnit(s, 1);
  }

  lemma BracketMatches(u: string, after: string)
    requires IsBracketed(u)
    ensures MatchUnit(u + after) == |u|
  {
    var s, inner := u + after, u[1..|u| - 1];
    assert s[0] == u[0] && s[1] == u[1] == inner[0];
    var start, digits := if inner[0] == '-' then 2 else 1, if inner[0] == '-' then inner[1..] else inner;
    BracketSplits(u, start, digits, after);
    MatchBracketed(s, start, digits, "]" + after);
  }

  lemma BracketSplits(u: string, start: nat, digits: string, after: string)
    requires |u| > 2 && u[|u| - 1] == ']' && 1 <= start < |u| && digits == u[start..|u| - 1]
    ensures (u + after)[start..] == digits + ("]" + after)
  {
  }

  lemma BracketIsValid(u: string, after: string)
    requires IsBracketed(u) && FollowsUnit(after)
    ensures ValidKey(u + after)
  {
    var s := u + after;
    BracketMatches(u, after);
    assert s[|u|..] == after && (after != "" ==> s[|u|] == after[0] && s[|u| + 1..] == after[1..]);
    ValidAfterUnit(s, |u|);
  }
}
