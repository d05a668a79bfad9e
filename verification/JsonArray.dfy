/**
 JSON arrays as sequences of tokens: the structural characters of section 2 of RFC 8259 and
 one token per complete document, without the insignificant whitespace.
 */
module JsonArray {
  import opened Wrappers

  datatype Token<T> = BeginArray | EndArray | Separator | Document(entry: T)

  /** Section 5 of RFC 8259: an array is its values set off by separators. A decoder reads one
      array and leaves what follows it. */
  function Decode<T>(tokens: seq<Token<T>>): Option<seq<T>> {
    if |tokens| < 2 || !tokens[0].BeginArray? then None
    else if tokens[1].EndArray? then Some([])
    else Values(tokens[1..])
  }

  function Values<T>(tokens: seq<Token<T>>): Option<seq<T>>
    decreases |tokens|
  {
    if |tokens| < 2 || !tokens[0].Document? then None
    else if tokens[1].EndArray? then Some([tokens[0].entry])
    else if !tokens[1].Separator? then None
    else
      var rest := Values(tokens[2..]);
      if rest.Some? then Some([tokens[0].entry] + rest.value) else None
  }

  /** Documents set off by separators. */
  function Listed<T>(docs: seq<T>): seq<Token<T>> {
    if docs == [] then []
    else if |docs| == 1 then [Document(docs[0])]
    else [Document(docs[0]), Separator] + Listed(docs[1..])
  }

  lemma Concat<T>(a: seq<T>, b: seq<T>, c: seq<T>)
    ensures (a + b) + c == a + (b + c)
  {
  }

  lemma {:induction false} ListedGrows<T>(docs: seq<T>, last: T)
    requires docs != []
    ensures Listed(docs + [last]) == Listed(docs) + [Separator, Document(last)]
    decreases |docs|
  {
    assert (docs + [last])[0] == docs[0];
    if |docs| == 1 {
      assert (docs + [last])[1..] == [last];
    } else {
      assert (docs + [last])[1..] == docs[1..] + [last];
      ListedGrows(docs[1..], last);
      Concat([Document(docs[0]), Separator], Listed(docs[1..]), [Separator, Document(last)]);
    }
  }

  lemma ValuesStep<T>(doc: T, rest: seq<Token<T>>)
    ensures Values([Document(doc), Separator] + rest)
         == (var more := Values(rest); if more.Some? then Some([doc] + more.value) else None)
  {
    assert ([Document(doc), Separator] + rest)[2..] == rest;
  }

  /** A closed list of documents decodes to them, whatever follows. */
  lemma {:induction false} ValuesOfListed<T>(docs: seq<T>, rest: seq<Token<T>>)
    requires docs != []
    ensures Values(Listed(docs) + ([EndArray] + rest)) == Some(docs)
    decreases |docs|
  {
    var end := [EndArray] + rest;
    if |docs| == 1 {
      assert docs == [docs[0]];
    } else {
      Concat([Document(docs[0]), Separator], Listed(docs[1..]), end);
      ValuesOfListed(docs[1..], rest);
      ValuesStep(docs[0], Listed(docs[1..]) + end);
      assert docs == [docs[0]] + docs[1..];
    }
  }

  /** A list that is not closed does not decode. */
  lemma {:induction false} ValuesUnfinished<T>(docs: seq<T>)
    ensures Values(Listed(docs)) == None
    decreases |docs|
  {
    if |docs| > 1 {
      ValuesUnfinished(docs[1..]);
      ValuesStep(docs[0], Listed(docs[1..]));
    }
  }

  lemma DecodeBegun<T>(tokens: seq<Token<T>>)
    ensures Decode([BeginArray] + tokens)
         == if tokens == [] then None else if tokens[0].EndArray? then Some([]) else Values(tokens)
  {
    assert ([BeginArray] + tokens)[1..] == tokens;
  }

  lemma ListedBegins<T>(docs: seq<T>, rest: seq<Token<T>>)
    requires docs != []
    ensures Listed(docs) != [] && (Listed(docs) + rest)[0] == Document(docs[0])
  {
  }
}
