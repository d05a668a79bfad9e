/**
 Runs of characters in a text, as a greedy character class takes them, and the splitting of text at
 separator characters, as `strings.Split` and a regular-expression split do it.
 */
module Texts {

  /** The length of the longest prefix of s whose characters all satisfy p: a greedy `[...]*`. */
  function Span(p: char -> bool, s: string): (n: nat)
    ensures n <= |s| && forall i | 0 <= i < n :: p(s[i])
    ensures n < |s| ==> !p(s[n])
  {
    if s == "" || !p(s[0]) then 0 else 1 + Span(p, s[1..])
  }

  lemma SpanOfRun(p: char -> bool, run: string, rest: string)
    requires forall i | 0 <= i < |run| :: p(run[i])
    requires rest == "" || !p(rest[0])
    ensures Span(p, run + rest) == |run|
  {
    var s := run + rest;
    assert forall i | 0 <= i < |run| :: s[i] == run[i];
    assert rest != "" ==> s[|run|] == rest[0];
  }

  lemma SpanStopsAt(p: char -> bool, s: string, j: nat)
    requires j < |s| && !p(s[j])
    ensures Span(p, s) <= j
  {
  }

  lemma SpanWithin(p: char -> bool, s: string, rest: string)
    requires Span(p, s) < |s|
    ensures Span(p, s + rest) == Span(p, s)
  {
    var n := Span(p, s);
    assert s + rest == s[..n] + (s[n..] + rest);
    assert (s[n..] + rest)[0] == s[n];
    SpanOfRun(p, s[..n], s[n..] + rest);
  }

  lemma SpanCut(p: char -> bool, s: string, b: string)
    requires Span(p, s + b) < |s|
    ensures Span(p, s) == Span(p, s + b)
  {
    var n := Span(p, s + b);
    assert (s + b)[n] == s[n];
    SpanStopsAt(p, s, n);
    var m := Span(p, s);
    assert (s + b)[m] == s[m];
  }

  /** The length of the text before the first separator. */
  function FirstPiece(isSep: char -> bool, s: string): (n: nat)
    ensures n <= |s| && (forall i | 0 <= i < n :: !isSep(s[i])) && (n < |s| ==> isSep(s[n]))
  {
    Span(c => !isSep(c), s)
  }

  /** The pieces between separators; there is always at least one. */
  function Split(isSep: char -> bool, s: string): (pieces: seq<string>)
    ensures pieces != []
    decreases |s|
  {
    var n := FirstPiece(isSep, s);
    if n == |s| then [s] else [s[..n]] + Split(isSep, s[n + 1..])
  }

  predicate FreeOf(isSep: char -> bool, s: string) {
    forall i | 0 <= i < |s| :: !isSep(s[i])
  }

  lemma FirstPieceOf(isSep: char -> bool, piece: string, rest: string)
    requires FreeOf(isSep, piece) && (rest == "" || isSep(rest[0]))
    ensures FirstPiece(isSep, piece + rest) == |piece|
  {
    var s := piece + rest;
    assert forall i | 0 <= i < |piece| :: s[i] == piece[i];
    assert rest != "" ==> s[|piece|] == rest[0];
  }

  lemma SplitPiece(isSep: char -> bool, piece: string)
    requires FreeOf(isSep, piece)
    ensures Split(isSep, piece) == [piece]
  {
    FirstPieceOf(isSep, piece, "");
    assert piece + "" == piece;
  }

  lemma CutAt(piece: string, c: char, rest: string)
    ensures var s := piece + ([c] + rest);
            s[..|piece|] == piece && s[|piece|] == c && s[|piece| + 1..] == rest
  {
  }

  lemma SplitFirst(isSep: char -> bool, piece: string, c: char, rest: string)
    requires FreeOf(isSep, piece) && isSep(c)
    ensures Split(isSep, piece + ([c] + rest)) == [piece] + Split(isSep, rest)
  {
    FirstPieceOf(isSep, piece, [c] + rest);
    CutAt(piece, c, rest);
  }

  /** Pieces joined by one separator. */
  function Join(pieces: seq<string>, c: char): string {
    if pieces == [] then "" else if |pieces| == 1 then pieces[0] else pieces[0] + ([c] + Join(pieces[1..], c))
  }

  lemma {:induction false} SplitJoin(isSep: char -> bool, pieces: seq<string>, c: char)
    requires pieces != [] && isSep(c) && forall i | 0 <= i < |pieces| :: FreeOf(isSep, pieces[i])
    ensures Split(isSep, Join(pieces, c)) == pieces
    decreases |pieces|
  {
    if |pieces| == 1 {
      SplitPiece(isSep, pieces[0]);
    } else {
      SplitJoin(isSep, pieces[1..], c);
      SplitFirst(isSep, pieces[0], c, Join(pieces[1..], c));
      assert pieces == [pieces[0]] + pieces[1..];
    }
  }

  /** One piece more at the end. */
  lemma {:induction false} JoinGrows(pieces: seq<string>, last: string, c: char)
    ensures Join(pieces + [last], c) == (if pieces == [] then last else Join(pieces, c) + [c] + last)
    decreases |pieces|
  {
    if |pieces| == 0 {
      assert pieces + [last] == [last];
    } else {
      assert (pieces + [last])[0] == pieces[0] && (pieces + [last])[1..] == pieces[1..] + [last];
      JoinGrows(pieces[1..], last, c);
    }
  }
}
