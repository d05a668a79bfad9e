/**
 Edit lists and module runs: `process_edits` and the states of `run_ansible`.
 A run is stated on the document that is loaded and on the content of the file it may write.
 */
module YeditEdits {
  import opened Wrappers
  import opened YeditKey
  import opened YeditDocument
  import opened YeditLaws
  import opened YeditRemoval

  datatype Edit =
    | PutEdit(key: string, value: Value)
    | AppendEdit(key: string, value: Value)
    | UpdateEdit(key: string, value: Value, index: Option<int>, current: Value)

  function Apply(doc: Value, edit: Edit, sep: string): Result<Change> {
    match edit
    case PutEdit(key, value) => Put(doc, key, value, sep)
    case AppendEdit(key, value) => Append(doc, key, value, sep)
    case UpdateEdit(key, value, index, current) => UpdateEntry(doc, key, value, index, current, sep)
  }

  /** The whole list, in order; the flag says whether any edit reported a change. */
  function ApplyAll(doc: Value, edits: seq<Edit>, sep: string): Result<Change>
    decreases |edits|
  {
    if edits == [] then Ok(Change(false, doc)) else
      var before :- ApplyAll(doc, edits[..|edits| - 1], sep);
      var last :- Apply(before.doc, edits[|edits| - 1], sep);
      Ok(Change(before.changed || last.changed, last.doc))
  }

  lemma ApplyOneMore(doc: Value, edits: seq<Edit>, i: nat, sep: string)
    requires i < |edits|
    ensures var before, after := ApplyAll(doc, edits[..i], sep), ApplyAll(doc, edits[..i + 1], sep);
            before.Ok? ==>
              var last := Apply(before.value.doc, edits[i], sep);
              after == if last.Ok? then Ok(Change(before.value.changed || last.value.changed, last.value.doc))
                       else Raise(last.error)
  {
    assert edits[..i + 1][..i] == edits[..i];
  }

  /** An exception in a prefix is the exception of the whole list. */
  lemma {:induction false} RaiseStops(doc: Value, edits: seq<Edit>, n: nat, sep: string)
    requires n <= |edits| && ApplyAll(doc, edits[..n], sep).Raise?
    ensures ApplyAll(doc, edits, sep) == ApplyAll(doc, edits[..n], sep)
    decreases |edits|
  {
    if n == |edits| {
      assert edits[..n] == edits;
    } else {
      var front := edits[..|edits| - 1];
      assert front[..n] == edits[..n];
      RaiseStops(doc, front, n, sep);
    }
  }

  // ---------- Unchanged means unchanged ----------

  lemma NoChangeNoEffect(doc: Value, edit: Edit, sep: string)
    requires var r := Apply(doc, edit, sep); r.Ok? && !r.value.changed
    ensures Apply(doc, edit, sep).value.doc == doc
  {
    match edit
    case PutEdit(_, _) =>
    case AppendEdit(key, value) => NoAppendNoEffect(doc, key, value, sep);
    case UpdateEdit(key, value, index, current) =>
      NoUpdateNoEffect(doc, ParseKey(key, sep), Get(doc, key, sep).value, value, index, current);
  }

  lemma NoAppendNoEffect(doc: Value, key: string, value: Value, sep: string)
    requires var r := Append(doc, key, value, sep); r.Ok? && !r.value.changed
    ensures Append(doc, key, value, sep).value.doc == doc
  {
    var entry := Get(doc, key, sep).value;
    if entry.Null? {
      var put := Put(doc, key, List([]), sep).value;
      if put.changed {
        PutGet(doc, key, List([]), sep);
      } else {
        assert put.doc == doc;
      }
    }
  }

  lemma NoUpdateNoEffect(doc: Value, path: seq<Segment>, entry: Value, value: Value, index: Option<int>, current: Value)
    ensures var r := UpdateAt(doc, path, entry, value, index, current);
            r.Ok? && !r.value.changed ==> r.value.doc == doc
  {
  }

  /** A list of edits that reports no change has left the document as it was. */
  lemma {:induction false} UnchangedIsUnchanged(doc: Value, edits: seq<Edit>, sep: string)
    requires var r := ApplyAll(doc, edits, sep); r.Ok? && !r.value.changed
    ensures ApplyAll(doc, edits, sep).value.doc == doc
    decreases |edits|
  {
    if edits != [] {
      var front := edits[..|edits| - 1];
      UnchangedIsUnchanged(doc, front, sep);
      NoChangeNoEffect(ApplyAll(doc, front, sep).value.doc, edits[|edits| - 1], sep);
    }
  }

  /** An `update` that merges into the dictionary it finds only what is there already. */
  ghost predicate MergesNothingNew(doc: Value, edit: Edit, sep: string) {
    edit.UpdateEdit? && edit.value.Dict? &&
    var entry := Get(doc, edit.key, sep);
    && entry.Ok? && entry.value.Dict?
    && forall k | k in edit.value.entries :: k in entry.value.entries && entry.value.entries[k] == edit.value.entries[k]
  }

  /** An edit that completes reports a change exactly when the document is another one afterwards,
      or when it merges nothing new into a dictionary: then it reports a change that is none. */
  lemma FlagIsExact(doc: Value, edit: Edit, sep: string)
    requires Apply(doc, edit, sep).Ok?
    ensures var r := Apply(doc, edit, sep).value;
            r.changed <==> r.doc != doc || MergesNothingNew(doc, edit, sep)
    ensures MergesNothingNew(doc, edit, sep) ==> Apply(doc, edit, sep).value.doc == doc
  {
    if !Apply(doc, edit, sep).value.changed {
      NoChangeNoEffect(doc, edit, sep);
    } else {
      match edit
      case PutEdit(key, value) => PutGet(doc, key, value, sep);
      case AppendEdit(key, value) => AppendHasEffect(doc, key, value, sep);
      case UpdateEdit(key, value, index, current) => UpdateHasEffect(doc, edit, sep);
    }
  }

  /** The failing family has members: any dictionary merged into itself. */
  lemma MergeReportsChange(entries: map<string, Value>, sep: string)
    ensures var doc := Dict(entries);
            Apply(doc, UpdateEdit("", doc, None, Null), sep) == Ok(Change(true, doc))
  {
    assert entries + entries == entries;
  }

  lemma AppendHasEffect(doc: Value, key: string, value: Value, sep: string)
    requires var r := Append(doc, key, value, sep); r.Ok? && r.value.changed
    ensures Append(doc, key, value, sep).value.doc != doc
  {
    var path, entry, after := ParseKey(key, sep), Get(doc, key, sep).value, Append(doc, key, value, sep).value.doc;
    if entry.Null? {
      var put := Put(doc, key, List([]), sep).value;
      ListIsPut(doc, key, sep);
      assert after == AppendTo(put.doc, path, List([]), value).doc;
      AppendIsFound(put.doc, path, List([]), value);
      assert GetPath(after, path) == Ok(List([] + [value])) != GetPath(doc, path);
    } else {
      assert after == AppendTo(doc, path, entry, value).doc && GetPath(doc, path) == Ok(entry);
      AppendIsFound(doc, path, entry, value);
      assert |entry.items + [value]| == |entry.items| + 1;
      assert GetPath(after, path) == Ok(List(entry.items + [value])) != GetPath(doc, path);
    }
  }

  /** Where `append` finds nothing and then does append, it has put an empty list there first. */
  lemma ListIsPut(doc: Value, key: string, sep: string)
    requires Get(doc, key, sep) == Ok(Null)
    requires var put := Put(doc, key, List([]), sep);
             put.Ok? && Get(put.value.doc, key, sep).Ok? && Get(put.value.doc, key, sep).value.List?
    ensures var put := Put(doc, key, List([]), sep).value;
            && Get(put.doc, key, sep) == Ok(List([])) && GetPath(put.doc, ParseKey(key, sep)) == Ok(List([]))
            && GetPath(doc, ParseKey(key, sep)) == Ok(Null)
  {
    if Put(doc, key, List([]), sep).value.changed {
      PutGet(doc, key, List([]), sep);
    }
  }

  lemma AppendIsFound(doc: Value, path: seq<Segment>, entry: Value, value: Value)
    requires entry.List? && GetPath(doc, path) == Ok(entry)
    ensures GetPath(AppendTo(doc, path, entry, value).doc, path) == Ok(List(entry.items + [value]))
  {
    GetAfterUpdate(doc, path, List(entry.items + [value]));
  }

  lemma UpdateHasEffect(doc: Value, edit: Edit, sep: string)
    requires edit.UpdateEdit?
    requires var r := Apply(doc, edit, sep); r.Ok? && r.value.changed
    ensures Apply(doc, edit, sep).value.doc == doc <==> MergesNothingNew(doc, edit, sep)
  {
    var path, entry := ParseKey(edit.key, sep), Get(doc, edit.key, sep).value;
    if entry.Dict? {
      var merged := entry.entries + edit.value.entries;
      GetAfterUpdate(doc, path, Dict(merged));
      UpdateWithFound(doc, path);
      if MergesNothingNew(doc, edit, sep) {
        assert merged == entry.entries;
      } else {
        var k :| k in edit.value.entries && !(k in entry.entries && entry.entries[k] == edit.value.entries[k]);
        assert merged[k] == edit.value.entries[k];
      }
    } else {
      var items := UpdateItems(entry.items, edit.value, edit.index, edit.current).value.value;
      GetAfterUpdate(doc, path, List(items));
      UpdateItemsHasEffect(entry.items, edit.value, edit.index, edit.current);
    }
  }

  lemma UpdateItemsHasEffect(items: seq<Value>, value: Value, index: Option<int>, current: Value)
    requires var r := UpdateItems(items, value, index, current); r.Ok? && r.value.Some?
    ensures UpdateItems(items, value, index, current).value.value != items
  {
    var updated := UpdateItems(items, value, index, current).value.value;
    if Truthy(current) {
      assert updated[FirstIndex(items, current)] == value;
    } else if index.Some? {
      assert updated[Slot(|items|, index.value)] == value;
    }
  }

  /** Replacing a found entry by itself changes nothing. */
  lemma UpdateWithFound(doc: Value, path: seq<Segment>)
    requires GetPath(doc, path).Ok? && !GetPath(doc, path).value.Null?
    ensures Update(doc, path, GetPath(doc, path).value) == doc
  {
    if path != [] {
      AddIsUpdate(doc, path, GetPath(doc, path).value);
      AddFound(doc, path);
    }
  }

  // ---------- The same update again and again ----------

  function Repeated(edit: Edit, n: nat): (edits: seq<Edit>)
    ensures |edits| == n && forall i | 0 <= i < n :: edits[i] == edit
  {
    seq(n, i => edit)
  }

  /** On a document: n copies of an `update` with a truthy current value, at a key where a list is
      found, replace n occurrences in that list, or all there are, and nothing else; a further copy
      reports a change exactly if occurrences are left. */
  lemma UpdateEditsConverge(doc: Value, edit: Edit, items: seq<Value>, sep: string, n: nat)
    requires edit.UpdateEdit? && Truthy(edit.current) && edit.current != edit.value
    requires Get(doc, edit.key, sep) == Ok(List(items))
    ensures var left := UpdateRepeatedly(items, edit.value, edit.current, n);
            var after := Update(doc, ParseKey(edit.key, sep), List(left));
            && ApplyAll(doc, Repeated(edit, n), sep) == Ok(Change(n > 0 && edit.current in items, after))
            && Get(after, edit.key, sep) == Ok(List(left)) && Apply(after, edit, sep).Ok?
            && (Apply(after, edit, sep).value.changed <==> multiset(items)[edit.current] > n)
  {
    var left := UpdateRepeatedly(items, edit.value, edit.current, n);
    RepeatedUpdates(doc, edit, items, sep, n);
    GetUpdatedList(doc, edit.key, items, left, sep);
    UpdateFoundList(Update(doc, ParseKey(edit.key, sep), List(left)), edit, left, sep);
    OccurrencesLeft(items, edit.value, edit.current, n);
  }

  lemma OccurrencesLeft(items: seq<Value>, value: Value, current: Value, n: nat)
    requires Truthy(current) && current != value
    ensures current in UpdateRepeatedly(items, value, current, n) <==> multiset(items)[current] > n
  {
    UpdateConverges(items, value, current, n);
    var after := UpdateRepeatedly(items, value, current, n);
    assert current in after <==> current in multiset(after);
  }

  lemma GetUpdatedList(doc: Value, key: string, items: seq<Value>, left: seq<Value>, sep: string)
    requires Get(doc, key, sep) == Ok(List(items))
    ensures Get(Update(doc, ParseKey(key, sep), List(left)), key, sep) == Ok(List(left))
  {
    GetAfterUpdate(doc, ParseKey(key, sep), List(left));
  }

  lemma {:induction false} RepeatedUpdates(doc: Value, edit: Edit, items: seq<Value>, sep: string, n: nat)
    requires edit.UpdateEdit? && Truthy(edit.current) && edit.current != edit.value
    requires Get(doc, edit.key, sep) == Ok(List(items))
    ensures ApplyAll(doc, Repeated(edit, n), sep)
         == Ok(Change(n > 0 && edit.current in items,
                      Update(doc, ParseKey(edit.key, sep), List(UpdateRepeatedly(items, edit.value, edit.current, n)))))
    decreases n
  {
    var path := ParseKey(edit.key, sep);
    if n == 0 {
      UpdateWithFound(doc, path);
    } else {
      RepeatedUpdates(doc, edit, items, sep, n - 1);
      OneUpdateMore(doc, edit, items, UpdateRepeatedly(items, edit.value, edit.current, n - 1), sep, n - 1);
      UpdateOnceMore(items, edit.value, edit.current, n - 1);
      OccurrencesLeft(items, edit.value, edit.current, n - 1);
      OccurrencesLeft(items, edit.value, edit.current, 0);
    }
  }

  lemma OneUpdateMore(doc: Value, edit: Edit, items: seq<Value>, once: seq<Value>, sep: string, n: nat)
    requires edit.UpdateEdit? && Truthy(edit.current) && edit.current != edit.value
    requires Get(doc, edit.key, sep) == Ok(List(items))
    requires var before := ApplyAll(doc, Repeated(edit, n), sep);
             before.Ok? && before.value.doc == Update(doc, ParseKey(edit.key, sep), List(once))
    ensures ApplyAll(doc, Repeated(edit, n + 1), sep)
         == Ok(Change(ApplyAll(doc, Repeated(edit, n), sep).value.changed || edit.current in once,
                      Update(doc, ParseKey(edit.key, sep), List(UpdateOnce(once, edit.value, edit.current)))))
  {
    var path := ParseKey(edit.key, sep);
    GetUpdatedList(doc, edit.key, items, once, sep);
    UpdateFoundList(Update(doc, path, List(once)), edit, once, sep);
    UpdateTwice(doc, path, List(once), List(UpdateOnce(once, edit.value, edit.current)));
    RepeatedOneMore(doc, edit, n, sep);
  }

  lemma RepeatedOneMore(doc: Value, edit: Edit, n: nat, sep: string)
    requires ApplyAll(doc, Repeated(edit, n), sep).Ok?
    ensures var before := ApplyAll(doc, Repeated(edit, n), sep).value;
            var last := Apply(before.doc, edit, sep);
            ApplyAll(doc, Repeated(edit, n + 1), sep)
              == if last.Ok? then Ok(Change(before.changed || last.value.changed, last.value.doc))
                 else Raise(last.error)
  {
    assert Repeated(edit, n + 1)[..n] == Repeated(edit, n);
    ApplyOneMore(doc, Repeated(edit, n + 1), n, sep);
    assert Repeated(edit, n + 1)[..n + 1] == Repeated(edit, n + 1);
  }

  /** One copy, at a key where a list is found. */
  lemma UpdateFoundList(doc: Value, edit: Edit, items: seq<Value>, sep: string)
    requires edit.UpdateEdit? && Truthy(edit.current) && edit.current != edit.value
    requires Get(doc, edit.key, sep) == Ok(List(items))
    ensures Apply(doc, edit, sep)
         == Ok(Change(edit.current in items,
                      Update(doc, ParseKey(edit.key, sep), List(UpdateOnce(items, edit.value, edit.current)))))
  {
    UpdateMovesOne(items, edit.value, edit.index, edit.current);
    UpdateWithFound(doc, ParseKey(edit.key, sep));
  }

  /** Of two replacements of a found entry the second is left. */
  lemma {:induction false} UpdateTwice(doc: Value, path: seq<Segment>, x: Value, y: Value)
    ensures Update(Update(doc, path, x), path, y) == Update(doc, path, y)
    decreases |path|
  {
    if path != [] {
      match path[0]
      case Key(k) =>
        if doc.Dict? && k in doc.entries {
          UpdateTwice(doc.entries[k], path[1..], x, y);
          var z := Update(doc.entries[k], path[1..], y);
          assert doc.entries[k := Update(doc.entries[k], path[1..], x)][k := z] == doc.entries[k := z];
        }
      case Index(i) =>
        if doc.List? && -|doc.items| <= i < |doc.items| {
          var s := Slot(|doc.items|, i);
          UpdateTwice(doc.items[s], path[1..], x, y);
          var z := Update(doc.items[s], path[1..], y);
          assert doc.items[s := Update(doc.items[s], path[1..], x)][s := z] == doc.items[s := z];
        }
    }
  }

  // ---------- A second run finds nothing to do ----------

  /** A put that has nothing left to do. */
  predicate Settled(doc: Value, edit: Edit, sep: string) {
    Apply(doc, edit, sep) == Ok(Change(false, doc))
  }

  predicate Puts(edits: seq<Edit>, sep: string) {
    forall i | 0 <= i < |edits| :: edits[i].PutEdit? && NonNegative(ParseKey(edits[i].key, sep))
  }

  predicate PairwiseDiverge(edits: seq<Edit>, sep: string) {
    forall i, j | 0 <= i < j < |edits| :: Diverge(ParseKey(edits[i].key, sep), ParseKey(edits[j].key, sep))
  }

  lemma SettledSurvives(doc: Value, done: Edit, edit: Edit, sep: string)
    requires done.PutEdit? && edit.PutEdit? && Settled(doc, done, sep) && Apply(doc, edit, sep).Ok?
    requires var p, q := ParseKey(done.key, sep), ParseKey(edit.key, sep);
             Diverge(p, q) && NonNegative(p) && NonNegative(q)
    ensures Settled(Apply(doc, edit, sep).value.doc, done, sep)
  {
    var p, q := ParseKey(done.key, sep), ParseKey(edit.key, sep);
    DivergeSymmetric(p, q);
    PutFrame(doc, edit.key, edit.value, done.key, sep);
    if Put(doc, edit.key, edit.value, sep).value.changed {
      AddKeepsContainer(doc, q, edit.value);
      if Get(doc, done.key, sep) != Ok(done.value) {
        assert Refused(doc, done.key);
      }
    }
  }

  lemma {:induction false} AllSettle(doc: Value, edits: seq<Edit>, sep: string)
    requires Puts(edits, sep) && PairwiseDiverge(edits, sep) && ApplyAll(doc, edits, sep).Ok?
    ensures forall i | 0 <= i < |edits| :: Settled(ApplyAll(doc, edits, sep).value.doc, edits[i], sep)
    decreases |edits|
  {
    if edits != [] {
      var front, last := edits[..|edits| - 1], edits[|edits| - 1];
      AllSettle(doc, front, sep);
      var mid := ApplyAll(doc, front, sep).value.doc;
      SplitLast(edits);
      AllSurvive(mid, front, last, sep);
      assert ApplyAll(doc, edits, sep).value.doc == Apply(mid, last, sep).value.doc;
    }
  }

  lemma SplitLast<T>(s: seq<T>)
    requires s != []
    ensures s == s[..|s| - 1] + [s[|s| - 1]]
  {
  }

  lemma AllSurvive(doc: Value, front: seq<Edit>, last: Edit, sep: string)
    requires Puts(front + [last], sep) && PairwiseDiverge(front + [last], sep)
    requires forall i | 0 <= i < |front| :: Settled(doc, front[i], sep)
    requires Apply(doc, last, sep).Ok?
    ensures forall i | 0 <= i < |front| + 1 :: Settled(Apply(doc, last, sep).value.doc, (front + [last])[i], sep)
  {
    var edits := front + [last];
    assert edits[|front|] == last;
    PutTwice(doc, last.key, last.value, sep);
    forall i | 0 <= i < |front| ensures Settled(Apply(doc, last, sep).value.doc, edits[i], sep) {
      assert edits[i] == front[i];
      SettledSurvives(doc, front[i], last, sep);
    }
  }

  lemma {:induction false} SettledListDoesNothing(doc: Value, edits: seq<Edit>, sep: string)
    requires forall i | 0 <= i < |edits| :: Settled(doc, edits[i], sep)
    ensures ApplyAll(doc, edits, sep) == Ok(Change(false, doc))
    decreases |edits|
  {
    if edits != [] {
      SettledListDoesNothing(doc, edits[..|edits| - 1], sep);
    }
  }

  /** A list of puts at pairwise parting paths that completes once reports no change on a
      second run, and leaves the document as the first run made it. */
  lemma SecondRunDoesNothing(doc: Value, edits: seq<Edit>, sep: string)
    requires Puts(edits, sep) && PairwiseDiverge(edits, sep) && ApplyAll(doc, edits, sep).Ok?
    ensures var once := ApplyAll(doc, edits, sep).value.doc;
            ApplyAll(once, edits, sep) == Ok(Change(false, once))
  {
    AllSettle(doc, edits, sep);
    SettledListDoesNothing(ApplyAll(doc, edits, sep).value.doc, edits, sep);
  }

  /** Below a truthy scalar nothing can be added, however the path goes on. */
  lemma {:induction false} AddBelowScalarRaises(v: Value, path: seq<Segment>, rest: seq<Segment>, x: Value)
    requires GetPath(v, path).Ok? && Truthy(GetPath(v, path).value) && !IsContainer(GetPath(v, path).value)
    requires rest != []
    ensures AddPath(v, path + rest, x) == Raise(YeditException)
    decreases |path|
  {
    if path == [] {
      assert path + rest == rest;
    } else {
      assert (path + rest)[0] == path[0] && (path + rest)[1..] == path[1..] + rest;
      match path[0]
      case Key(k) =>
        AddBelowScalarRaises(Lookup(v.entries, k), path[1..], rest, x);
        if |path| > 1 {
          FoundIsTruthy(Lookup(v.entries, k), path[1..]);
        }
      case Index(i) => AddBelowScalarRaises(v.items[Slot(|v.items|, i)], path[1..], rest, x);
    }
  }

  /** After a put at a valid key, the value is there, whether it was written or found. */
  lemma PutIsFound(doc: Value, key: string, value: Value, sep: string)
    requires ValidKey(key) && Put(doc, key, value, sep).Ok?
    ensures GetPath(Put(doc, key, value, sep).value.doc, ParseKey(key, sep)) == Ok(value)
  {
    assert key != "";
    if Put(doc, key, value, sep).value.changed {
      PutGet(doc, key, value, sep);
    }
  }

  /** What a put below a found value meets: a falsy dictionary entry is made an empty dictionary. */
  function Ground(path: seq<Segment>, s: Value): Value {
    if path != [] && path[|path| - 1].Key? && !Truthy(s) then Dict(map[]) else s
  }

  lemma {:induction false} TakesBelow(v: Value, path: seq<Segment>, rest: seq<Segment>)
    requires GetPath(v, path).Ok? && !GetPath(v, path).value.Null? && rest != []
    ensures Takes(v, path + rest) <==> Takes(Ground(path, GetPath(v, path).value), rest)
    decreases |path|
  {
    if path == [] {
      assert path + rest == rest;
    } else {
      assert (path + rest)[0] == path[0] && (path + rest)[1..] == path[1..] + rest;
      match path[0]
      case Key(k) =>
        if |path| == 1 {
          assert (path + rest)[1..] == rest;
        } else {
          TakesBelow(v.entries[k], path[1..], rest);
          FoundIsTruthy(v.entries[k], path[1..]);
        }
      case Index(i) => TakesBelow(v.items[Slot(|v.items|, i)], path[1..], rest);
    }
  }

  /** When a put below a non-null value just put completes: when the rest of its path can be taken
      from that value, or from an empty dictionary where the value is a falsy dictionary entry; or
      when it has nothing to do. */
  lemma PutBelowCompletesIff(doc: Value, key: string, s: Value, below: string, x: Value, sep: string)
    requires ValidKey(key) && ValidKey(below) && !s.Null?
    requires ParseKey(key, sep) < ParseKey(below, sep)
    requires Put(doc, key, s, sep).Ok?
    ensures var path := ParseKey(key, sep);
            var rest := ParseKey(below, sep)[|path|..];
            Put(Put(doc, key, s, sep).value.doc, below, x, sep).Ok? <==>
            Takes(Ground(path, s), rest) || GetPath(s, rest) == Ok(x)
  {
    var path := ParseKey(key, sep);
    var rest := ParseKey(below, sep)[|path|..];
    var doc' := Put(doc, key, s, sep).value.doc;
    assert ParseKey(below, sep) == path + rest && below != "";
    PutIsFound(doc, key, s, sep);
    GetComposes(doc', path, rest);
    TakesBelow(doc', path, rest);
    PutCompletesIff(doc', below, x, sep);
  }

  /** After a put of a truthy scalar, a put below it raises, on any document. */
  lemma PutBelowScalarRaises(doc: Value, key: string, s: Value, below: string, x: Value, sep: string)
    requires ValidKey(key) && ValidKey(below) && Truthy(s) && !IsContainer(s) && !x.Null?
    requires ParseKey(key, sep) < ParseKey(below, sep)
    requires Put(doc, key, s, sep).Ok?
    ensures Put(Put(doc, key, s, sep).value.doc, below, x, sep) == Raise(YeditException)
  {
    var path := ParseKey(key, sep);
    var rest := ParseKey(below, sep)[|path|..];
    PutIsFound(doc, key, s, sep);
    PutBelowFoundScalar(Put(doc, key, s, sep).value.doc, path, rest, below, s, x, sep);
  }

  lemma PutBelowFoundScalar(doc: Value, path: seq<Segment>, rest: seq<Segment>, below: string, s: Value, x: Value,
                            sep: string)
    requires ValidKey(below) && ParseKey(below, sep) == path + rest && rest != []
    requires GetPath(doc, path) == Ok(s) && Truthy(s) && !IsContainer(s) && !x.Null?
    ensures Put(doc, below, x, sep) == Raise(YeditException)
  {
    GetComposes(doc, path, rest);
    AddBelowScalarRaises(doc, path, rest, x);
    PutAdds(doc, below, Null, x, sep);
  }

  /** So two such edits raise on every document. */
  lemma EditBelowScalarRaises(doc: Value, key: string, d: Value, below: string, e: Value, sep: string)
    requires ValidKey(key) && ValidKey(below) && ParseKey(key, sep) < ParseKey(below, sep)
    requires Truthy(d) && !IsContainer(d) && !e.Null?
    ensures ApplyAll(doc, [PutEdit(key, d), PutEdit(below, e)], sep).Raise?
  {
    if Put(doc, key, d, sep).Ok? {
      PutBelowScalarRaises(doc, key, d, below, e, sep);
    }
    TwoEdits(doc, PutEdit(key, d), PutEdit(below, e), sep);
  }

  lemma TwoEdits(doc: Value, first: Edit, second: Edit, sep: string)
    requires Apply(doc, first, sep).Ok? ==> Apply(Apply(doc, first, sep).value.doc, second, sep).Raise?
    ensures ApplyAll(doc, [first, second], sep).Raise?
  {
    var edits := [first, second];
    assert ApplyAll(doc, edits[..0], sep) == Ok(Change(false, doc));
    ApplyOneMore(doc, edits, 0, sep);
    assert edits[..0 + 1] == edits[..|edits| - 1];
  }

  /** The two documented edits, a text at `a.b.c` and then one at `a.b.c.d`, are of this kind. */
  lemma DocumentedEditsRaise(doc: Value, d: Value, e: Value)
    requires d.Str? && Truthy(d) && !e.Null?
    ensures ApplyAll(doc, [PutEdit("a.b.c", d), PutEdit("a.b.c.d", e)], ".").Raise?
  {
    DocumentedTexts();
    EditsAtTextsRaise(doc, [Key("a"), Key("b"), Key("c")], "a.b.c", d, [Key("d")], "a.b.c.d", e, ".");
  }

  lemma DocumentedTexts()
    ensures var path := [Key("a"), Key("b"), Key("c")];
            && Render(path, ".") == "a.b.c" && Render(path + [Key("d")], ".") == "a.b.c.d"
            && forall i | 0 <= i < 4 :: (path + [Key("d")])[i].Key? && IsBaseKey((path + [Key("d")])[i].k)
  {
    var a, b, c := [Key("a")], [Key("a"), Key("b")], [Key("a"), Key("b"), Key("c")];
    assert Render(a, ".") == "a" by { assert a[1..] == []; }
    assert b == a + [Key("b")] && c == b + [Key("c")];
    RenderGrows(a, Key("b"), ".");
    RenderGrows(b, Key("c"), ".");
    RenderGrows(c, Key("d"), ".");
  }

  lemma EditsAtTextsRaise(doc: Value, path: seq<Segment>, key: string, d: Value,
                          rest: seq<Segment>, below: string, e: Value, sep: string)
    requires sep == "." && path != [] && rest != [] && Render(path, sep) == key && Render(path + rest, sep) == below
    requires forall i | 0 <= i < |path + rest| :: (path + rest)[i].Key? && IsBaseKey((path + rest)[i].k)
    requires d.Str? && Truthy(d) && !e.Null?
    ensures ApplyAll(doc, [PutEdit(key, d), PutEdit(below, e)], sep).Raise?
  {
    assert forall i | 0 <= i < |path| :: path[i] == (path + rest)[i];
    TextOfKeys(path, sep);
    TextOfKeys(path + rest, sep);
    EditBelowScalarRaises(doc, key, d, below, e, sep);
  }

  lemma TextOfKeys(path: seq<Segment>, sep: string)
    requires sep == "." && path != [] && forall i | 0 <= i < |path| :: path[i].Key? && IsBaseKey(path[i].k)
    ensures ParseKey(Render(path, sep), sep) == path && ValidKey(Render(path, sep))
  {
    assert sep[0] == '.' && !IsKeyChar('.', sep);
    assert forall i | 0 <= i < |path| :: IsKey(path[i].k, sep);
    ParseRender(path, sep);
    assert sep[1..] == "" && Crosses(sep);
    RenderedIsValid(path, sep);
  }

  lemma PutAdds(doc: Value, key: string, entry: Value, x: Value, sep: string)
    requires ValidKey(key) && ParseKey(key, sep) != []
    requires GetPath(doc, ParseKey(key, sep)) == Ok(entry) && entry != x
    ensures var added := AddPath(doc, ParseKey(key, sep), x);
            Put(doc, key, x, sep) == if added.Ok? then Ok(Change(true, added.value)) else Raise(added.error)
  {
    assert key != "";
  }

  // ---------- Runs of the module ----------

  /** The arguments that decide a run; None is an argument not given. `value` belongs to `key`. */
  datatype Params = Params(
    src: bool, content: Option<Value>, key: string, value: Option<Value>, edits: Option<seq<Edit>>,
    update: bool, append: bool, index: Option<int>, current: Value, sep: string)

  /** What a run leaves: its report (the `changed` flag), or the exception; and the file. */
  datatype Run = Run(report: Result<bool>, file: Value)

  function SingleEdit(p: Params): Edit
    requires p.value.Some?
  {
    if p.update then UpdateEdit(p.key, p.value.value, p.index, p.current)
    else if p.append then AppendEdit(p.key, p.value.value)
    else PutEdit(p.key, p.value.value)
  }

  function EditsOf(p: Params): seq<Edit> {
    if p.value.Some? then [SingleEdit(p)] else if p.edits.Some? then p.edits.value else []
  }

  /** The document held after loading: a run without a file holds an empty dictionary. */
  function Held(p: Params, file: Value): Value {
    if p.src then file else Dict(map[])
  }

  /** The document the edits start from. */
  function Loaded(p: Params, file: Value): Value {
    if p.content.Some? then p.content.value else Held(p, file)
  }

  /** The early return: content that is the document already, and no single value. */
  predicate EditsIgnored(p: Params, file: Value) {
    p.content == Some(Held(p, file)) && p.value.None?
  }

  /** `state: present`. */
  function Present(p: Params, file: Value): Run {
    if EditsIgnored(p, file) then Run(Ok(false), file)
    else if EditsOf(p) != [] then
      match ApplyAll(Loaded(p, file), EditsOf(p), p.sep)
      case Raise(e) => Run(Raise(e), file)
      case Ok(c) => Run(Ok(c.changed), if c.changed && p.src then c.doc else file)
    else if p.src then Run(Ok(true), Loaded(p, file))
    else Run(Ok(false), file)
  }

  /** `state: absent`. A file that holds no document makes the run fail; it is shown as a raise. */
  function Absent(p: Params, file: Value): Run {
    if Held(p, file).Null? then Run(Raise(YeditException), file) else
      match Removed(p, Loaded(p, file))
      case Raise(e) => Run(Raise(e), file)
      case Ok(c) => Run(Ok(c.changed), if c.changed && p.src then c.doc else file)
  }

  function Removed(p: Params, doc: Value): Result<Change> {
    var value := if p.value.Some? then p.value.value else Null;
    if p.update then Pop(doc, p.key, value, p.sep) else Delete(doc, p.key, p.index, value, p.sep)
  }

  /** A run that raises, or reports no change, has not written the file. */
  lemma FileWrittenOnlyOnChange(p: Params, file: Value)
    ensures var r := Present(p, file); r.report != Ok(true) ==> r.file == file
    ensures var r := Absent(p, file); r.report != Ok(true) ==> r.file == file
  {
  }

  /** Once a prefix of the edits raises, the run raises as that prefix does and the file is as
      before, whatever the edits in front have done and whichever edits follow. */
  lemma FailedEditsWriteNothing(p: Params, file: Value, n: nat)
    requires n <= |EditsOf(p)| && ApplyAll(Loaded(p, file), EditsOf(p)[..n], p.sep).Raise?
    requires !EditsIgnored(p, file)
    ensures Present(p, file) == Run(Raise(ApplyAll(Loaded(p, file), EditsOf(p)[..n], p.sep).error), file)
  {
    RaiseStops(Loaded(p, file), EditsOf(p), n, p.sep);
  }

  /** Content equal to the file hides an edit list given with it: the run does nothing, although
      the same edits without the content reach the file. */
  lemma EqualContentHidesEdits(p: Params, file: Value)
    requires p.src && EditsIgnored(p, file)
    ensures Present(p, file) == Run(Ok(false), file)
    ensures var edited := ApplyAll(file, EditsOf(p), p.sep);
            EditsOf(p) != [] && edited.Ok? ==>
              Present(p.(content := None), file) == Run(Ok(edited.value.changed), edited.value.doc)
  {
    var edited := ApplyAll(file, EditsOf(p), p.sep);
    if edited.Ok? && !edited.value.changed {
      UnchangedIsUnchanged(file, EditsOf(p), p.sep);
    }
  }

  /** Running the same puts at pairwise parting paths twice leaves the file as the first run made
      it. The second run reports no change, unless content is given: then it starts from the
      content again, and a change is reported as often as the run is repeated. */
  lemma PresentIsIdempotent(p: Params, file: Value)
    requires p.src && EditsOf(p) != []
    requires Puts(EditsOf(p), p.sep) && PairwiseDiverge(EditsOf(p), p.sep)
    requires Present(p, file).report.Ok?
    ensures var once := Present(p, file);
            Present(p, once.file) == Run(Ok(p.content.Some? && once.report.value), once.file)
  {
    var once := Present(p, file);
    if p.content.Some? {
      PresentTwice(p, file);
      if once.report.value && EditsIgnored(p, once.file) {
        SecondRunDoesNothing(p.content.value, EditsOf(p), p.sep);
      }
    } else {
      SecondRunDoesNothing(file, EditsOf(p), p.sep);
      if !once.report.value {
        UnchangedIsUnchanged(file, EditsOf(p), p.sep);
      }
    }
  }

  /** A run given content and any edits, repeated: outcome and file are the same again, except
      that the edits are ignored when the first run has written the content itself. */
  lemma PresentTwice(p: Params, file: Value)
    requires p.src && p.content.Some? && EditsOf(p) != []
    ensures var once := Present(p, file);
            Present(p, once.file)
              == Run(if once.report.Ok? && EditsIgnored(p, once.file) then Ok(false) else once.report, once.file)
  {
  }

  /** With content and a file, the file ends up as the edited content exactly when, if the edits are
      ignored, they would not alter the content, and otherwise they change something or the content
      is in the file already. So new content is dropped, and no change is reported, when the edits
      change nothing in it. */
  lemma ContentReachesFile(p: Params, file: Value)
    requires p.src && p.content.Some? && EditsOf(p) != []
    requires ApplyAll(p.content.value, EditsOf(p), p.sep).Ok?
    ensures var content, edited := p.content.value, ApplyAll(p.content.value, EditsOf(p), p.sep).value;
            Present(p, file).file == edited.doc
            <==> if EditsIgnored(p, file) then edited.doc == content else edited.changed || content == file
  {
    var edited := ApplyAll(p.content.value, EditsOf(p), p.sep).value;
    if !edited.changed {
      UnchangedIsUnchanged(p.content.value, EditsOf(p), p.sep);
    }
  }

  /** A run with a file and nothing to do reports a change every time, unless the content given
      is already the file's. */
  lemma PresentWithoutEdits(p: Params, file: Value)
    requires p.src && EditsOf(p) == []
    ensures Present(p, Present(p, file).file).report == Ok(p.content.None?)
  {
  }
}