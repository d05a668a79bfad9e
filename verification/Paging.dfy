/** Pages of an ordered result: `limit l offset o`, and what the pages are together. */
module Paging {

  function Least(a: nat, b: nat): nat {
    if a < b then a else b
  }

  /** `limit l offset o` of an ordered result. */
  function Page<T>(rows: seq<T>, limit: nat, offset: nat): seq<T> {
    rows[Least(offset, |rows|)..Least(offset + limit, |rows|)]
  }

  /** The offset of page number i. */
  function Start(i: nat, limit: nat): nat {
    i * limit
  }

  /** The pages at the offsets 0, L, 2L and so on, one after the other. */
  function Pages<T>(rows: seq<T>, limit: nat, n: nat): seq<T> {
    if n == 0 then [] else Pages(rows, limit, n - 1) + Page(rows, limit, Start(n - 1, limit))
  }

  lemma {:induction false} PagesArePrefix<T>(rows: seq<T>, limit: nat, n: nat)
    ensures Pages(rows, limit, n) == rows[..Least(n * limit, |rows|)]
    decreases n
  {
    if n > 0 {
      PagesArePrefix(rows, limit, n - 1);
      assert n * limit == (n - 1) * limit + limit;
    }
  }

  /** Enough pages are the whole result, each row once and in order. */
  lemma PagesConcatenate<T>(rows: seq<T>, limit: nat, n: nat)
    requires n * limit >= |rows|
    ensures Pages(rows, limit, n) == rows
  {
    PagesArePrefix(rows, limit, n);
  }

  function Concat<T>(pages: seq<seq<T>>): seq<T> {
    if pages == [] then [] else Concat(pages[..|pages| - 1]) + pages[|pages| - 1]
  }

  lemma {:induction false} ConcatIsPages<T>(rows: seq<T>, limit: nat, pages: seq<seq<T>>)
    requires forall i | 0 <= i < |pages| :: pages[i] == Page(rows, limit, Start(i, limit))
    ensures Concat(pages) == Pages(rows, limit, |pages|)
    decreases |pages|
  {
    if pages != [] {
      ConcatIsPages(rows, limit, pages[..|pages| - 1]);
    }
  }

  lemma PagesOfRows<T>(rows: seq<T>, limit: nat, pages: seq<seq<T>>)
    requires forall i | 0 <= i < |pages| :: pages[i] == Page(rows, limit, Start(i, limit))
    requires |pages| * limit >= |rows|
    ensures Concat(pages) == rows
  {
    ConcatIsPages(rows, limit, pages);
    PagesConcatenate(rows, limit, |pages|);
  }
}
