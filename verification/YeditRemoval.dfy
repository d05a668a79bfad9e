/**
 The laws of removal and of in-place change: `delete` against `get` and `put`,
 and the convergence of `update` on lists.
 */
module YeditRemoval {
  import opened Wrappers
  import opened YeditKey
  import opened YeditDocument
  import opened YeditLaws

  // ---------- Replacing the value at a location ----------

  lemma {:induction false} GetAfterUpdate(v: Value, path: seq<Segment>, x: Value)
    requires GetPath(v, path).Ok? && !GetPath(v, path).value.Null?
    ensures GetPath(Update(v, path, x), path) == Ok(x)
    decreases |path|
  {
    if path != [] {
      match path[0]
      case Key(k) => GetAfterUpdate(v.entries[k], path[1..], x);
      case Index(i) => GetAfterUpdate(v.items[Slot(|v.items|, i)], path[1..], x);
    }
  }

  lemma {:induction false} UpdateFrame(v: Value, p: seq<Segment>, x: Value, q: seq<Segment>)
    requires Diverge(p, q) && NonNegative(p) && NonNegative(q)
    ensures GetPath(Update(v, p, x), q) == GetPath(v, q)
    decreases |p|
  {
    if p[0] == q[0] {
      assert NonNegative(p[1..]) && NonNegative(q[1..]);
      match p[0]
      case Key(k) =>
        if v.Dict? && k in v.entries {
          UpdateFrame(v.entries[k], p[1..], x, q[1..]);
        }
      case Index(i) =>
        if v.List? && i < |v.items| {
          UpdateFrame(v.items[i], p[1..], x, q[1..]);
        }
    }
  }

  /** Where a non-null entry is found, adding is replacing: no step on the way is falsy. */
  lemma {:induction false} AddIsUpdate(v: Value, path: seq<Segment>, x: Value)
    requires path != [] && GetPath(v, path).Ok? && !GetPath(v, path).value.Null?
    ensures AddPath(v, path, x) == Ok(Update(v, path, x))
    decreases |path|
  {
    if |path| > 1 {
      match path[0]
      case Key(k) =>
        assert Truthy(v.entries[k]) by { FoundIsTruthy(v.entries[k], path[1..]); }
        AddIsUpdate(v.entries[k], path[1..], x);
      case Index(i) => AddIsUpdate(v.items[Slot(|v.items|, i)], path[1..], x);
    }
  }

  lemma FoundIsTruthy(v: Value, path: seq<Segment>)
    requires path != [] && GetPath(v, path).Ok? && !GetPath(v, path).value.Null?
    ensures Truthy(v)
  {
    if path[0].Key? {
      assert path[0].k in v.entries;
    }
  }

  lemma {:induction false} GetComposes(v: Value, p: seq<Segment>, q: seq<Segment>)
    requires GetPath(v, p).Ok?
    ensures GetPath(v, p + q) == GetPath(GetPath(v, p).value, q)
    decreases |p|
  {
    if p == [] {
      assert p + q == q;
    } else {
      assert (p + q)[0] == p[0] && (p + q)[1..] == p[1..] + q;
      match p[0]
      case Key(k) => if v.Dict? { GetComposes(Lookup(v.entries, k), p[1..], q); }
      case Index(i) => if v.List? && i < |v.items| { GetComposes(v.items[Slot(|v.items|, i)], p[1..], q); }
    }
  }

  // ---------- Delete ----------

  function Parent(path: seq<Segment>): seq<Segment>
    requires path != []
  {
    path[..|path| - 1]
  }

  function Last(path: seq<Segment>): Segment
    requires path != []
  {
    path[|path| - 1]
  }

  /** A found entry is removed, and the removal is a replacement of its parent alone. */
  lemma {:induction false} RemoveFound(v: Value, path: seq<Segment>)
    requires path != [] && GetPath(v, path).Ok? && !GetPath(v, path).value.Null?
    ensures var parent := GetPath(v, Parent(path));
            parent.Ok? && !parent.value.Null?
            && RemoveLast(parent.value, Last(path)).Ok? && RemoveLast(parent.value, Last(path)).value.Some?
            && RemovePath(v, path)
                 == Ok(Some(Update(v, Parent(path), RemoveLast(parent.value, Last(path)).value.value)))
    decreases |path|
  {
    if |path| > 1 {
      assert Parent(path)[0] == path[0] && Parent(path)[1..] == Parent(path[1..]);
      match path[0]
      case Key(k) => RemoveFound(v.entries[k], path[1..]);
      case Index(i) => RemoveFound(v.items[Slot(|v.items|, i)], path[1..]);
    }
  }

  /** For every non-empty key, `delete` raises only where `get` raises, or where a key text
      without tokens meets a document; and it reports a change exactly when `get` finds an entry. */
  lemma DeleteIsTotal(doc: Value, key: string, index: Option<int>, value: Value, sep: string)
    requires key != ""
    ensures var found, r := Get(doc, key, sep), Delete(doc, key, index, value, sep);
            (r.Ok? <==> found.Ok? && (found.value.Null? || ParseKey(key, sep) != []))
            && (r.Ok? ==> (r.value.changed <==> !found.value.Null?) && (!r.value.changed ==> r.value.doc == doc))
  {
    var path := ParseKey(key, sep);
    if Get(doc, key, sep).Ok? && !Get(doc, key, sep).value.Null? && path != [] {
      RemoveFound(doc, path);
    }
  }

  /** Token number n is an index below the range of the list that the tokens before it lead to. */
  predicate MeetsBelowRange(v: Value, path: seq<Segment>, n: nat) {
    n < |path| && path[n].Index? &&
    var met := GetPath(v, path[..n]);
    met.Ok? && met.value.List? && path[n].i < -|met.value.items|
  }

  /** `get` raises exactly where some token is an index below the range of the list it meets, and
      then an index error. */
  lemma GetRaisesIff(v: Value, path: seq<Segment>)
    ensures GetPath(v, path).Raise? <==> exists n: nat :: MeetsBelowRange(v, path, n)
    ensures GetPath(v, path).Raise? ==> GetPath(v, path) == Raise(IndexError)
  {
    if GetPath(v, path).Raise? {
      var n := WhereGetRaises(v, path);
    }
    forall n: nat | MeetsBelowRange(v, path, n) ensures GetPath(v, path).Raise? {
      BelowRangeRaises(v, path, n);
    }
  }

  lemma {:induction false} WhereGetRaises(v: Value, path: seq<Segment>) returns (n: nat)
    requires GetPath(v, path).Raise?
    ensures MeetsBelowRange(v, path, n) && GetPath(v, path) == Raise(IndexError)
    decreases |path|
  {
    var next := match path[0] case Key(k) => Lookup(v.entries, k)
                              case Index(i) => if i < -|v.items| then v else v.items[Slot(|v.items|, i)];
    if path[0].Index? && path[0].i < -|v.items| {
      n := 0;
    } else {
      var m := WhereGetRaises(next, path[1..]);
      assert path[..m + 1][0] == path[0] && path[..m + 1][1..] == path[1..][..m];
      n := m + 1;
    }
  }

  lemma {:induction false} BelowRangeRaises(v: Value, path: seq<Segment>, n: nat)
    requires MeetsBelowRange(v, path, n)
    ensures GetPath(v, path).Raise?
    decreases |path|
  {
    if n > 0 {
      assert path[..n][0] == path[0] && path[..n][1..] == path[1..][..n - 1];
      match path[0]
      case Key(k) => BelowRangeRaises(Lookup(v.entries, k), path[1..], n - 1);
      case Index(i) => BelowRangeRaises(v.items[Slot(|v.items|, i)], path[1..], n - 1);
    }
  }

  /** So `get` does not raise on paths without negative indices. */
  lemma {:induction false} GetRaisesBelowRange(v: Value, path: seq<Segment>)
    requires NonNegative(path)
    ensures GetPath(v, path).Ok?
    decreases |path|
  {
    if path != [] {
      assert NonNegative(path[1..]);
      match path[0]
      case Key(k) => if v.Dict? { GetRaisesBelowRange(Lookup(v.entries, k), path[1..]); }
      case Index(i) => if v.List? && i < |v.items| { GetRaisesBelowRange(v.items[i], path[1..]); }
    }
  }

  lemma {:induction false} RemoveAfterAdd(v: Value, path: seq<Segment>, x: Value)
    requires path != [] && Last(path).Key?
    requires var parent := GetPath(v, Parent(path));
             parent.Ok? && parent.value.Dict? && Last(path).k !in parent.value.entries
    ensures AddPath(v, path, x).Ok?
    ensures RemovePath(AddPath(v, path, x).value, path) == Ok(Some(v))
    decreases |path|
  {
    if |path| == 1 {
      assert v.entries[path[0].k := x] - {path[0].k} == v.entries;
    } else {
      assert Parent(path)[0] == path[0] && Parent(path)[1..] == Parent(path[1..]);
      match path[0]
      case Key(k) =>
        RemoveAfterAdd(v.entries[k], path[1..], x);
        if |path| > 2 {
          FoundIsTruthy(v.entries[k], Parent(path[1..]));
        }
        assert Child(v.entries, k) == v.entries[k];
        var child := AddPath(v.entries[k], path[1..], x).value;
        assert v.entries[k := child][k := v.entries[k]] == v.entries;
      case Index(i) =>
        var s := Slot(|v.items|, i);
        RemoveAfterAdd(v.items[s], path[1..], x);
        var child := AddPath(v.items[s], path[1..], x).value;
        assert v.items[s := child][s := v.items[s]] == v.items;
    }
  }

  /** `delete` undoes `put`: a non-null value put under a new key of an existing dictionary
      and deleted again leaves the document as it was. */
  lemma DeleteUndoesPut(doc: Value, key: string, x: Value, index: Option<int>, value: Value, sep: string)
    requires key != "" && !Refused(doc, key) && !x.Null?
    requires var path := ParseKey(key, sep);
             path != [] && Last(path).Key?
             && var parent := GetPath(doc, Parent(path));
                parent.Ok? && parent.value.Dict? && Last(path).k !in parent.value.entries
    ensures var put := Put(doc, key, x, sep);
            put.Ok? && put.value.changed
            && Delete(put.value.doc, key, index, value, sep) == Ok(Change(true, doc))
  {
    var path := ParseKey(key, sep);
    RemoveAfterAdd(doc, path, x);
    GetComposes(doc, Parent(path), [Last(path)]);
    assert Parent(path) + [Last(path)] == path;
    PutGet(doc, key, x, sep);
    AddKeepsContainer(doc, path, x);
  }

  /** Deleting a list slot shifts the later elements down by one, at any depth below them,
      and changes nothing at any path that parts from the list's. */
  lemma DeleteSlot(doc: Value, key: string, j: nat, rest: seq<Segment>, other: seq<Segment>, sep: string)
    requires key != "" && NonNegative(ParseKey(key, sep)) && NonNegative(other)
    requires ParseKey(key, sep) != [] && Last(ParseKey(key, sep)).Index?
    requires Get(doc, key, sep).Ok? && !Get(doc, key, sep).value.Null?
    ensures var path := ParseKey(key, sep);
            var list, i := Parent(path), Last(path).i;
            var r := Delete(doc, key, None, Null, sep);
            r.Ok? && r.value.changed
            && GetPath(r.value.doc, list + [Index(j)] + rest)
                 == GetPath(doc, list + [Index(if j < i then j else j + 1)] + rest)
            && (Diverge(list, other) ==> GetPath(r.value.doc, other) == GetPath(doc, other))
  {
    var path := ParseKey(key, sep);
    var list, i := Parent(path), Last(path).i;
    RemoveFound(doc, path);
    var items := GetPath(doc, list).value.items;
    var doc' := Delete(doc, key, None, Null, sep).value.doc;
    GetAfterUpdate(doc, list, List(RemoveAt(items, i)));
    var j' := if j < i then j else j + 1;
    assert list + [Index(j)] + rest == list + ([Index(j)] + rest);
    assert list + [Index(j')] + rest == list + ([Index(j')] + rest);
    GetComposes(doc', list, [Index(j)] + rest);
    GetComposes(doc, list, [Index(j')] + rest);
    SlotShift(items, i, j, rest);
    if Diverge(list, other) {
      assert NonNegative(list);
      UpdateFrame(doc, list, List(RemoveAt(items, i)), other);
    }
  }

  lemma SlotShift(items: seq<Value>, i: nat, j: nat, rest: seq<Segment>)
    requires i < |items|
    ensures GetPath(List(RemoveAt(items, i)), [Index(j)] + rest)
         == GetPath(List(items), [Index(if j < i then j else j + 1)] + rest)
  {
    var j' := if j < i then j else j + 1;
    assert ([Index(j)] + rest)[1..] == rest && ([Index(j')] + rest)[1..] == rest;
  }

  // ---------- Update on lists ----------

  /** One changed replacement moves exactly one occurrence from the current value to the new one. */
  lemma UpdateMovesOne(items: seq<Value>, value: Value, index: Option<int>, current: Value)
    requires Truthy(current) && current != value
    ensures var r := UpdateItems(items, value, index, current);
            r.Ok? && (r.value.Some? <==> current in items)
            && (r.value.Some? ==>
                  && |r.value.value| == |items|
                  && multiset(r.value.value) == multiset(items) - multiset{current} + multiset{value})
  {
    if current in items {
      MultisetReplace(items, FirstIndex(items, current), value);
    }
  }

  lemma MultisetReplace<T>(s: seq<T>, i: nat, x: T)
    requires i < |s|
    ensures multiset(s[i := x]) == multiset(s) - multiset{s[i]} + multiset{x}
  {
    assert s == s[..i] + [s[i]] + s[i + 1..];
    assert s[i := x] == s[..i] + [x] + s[i + 1..];
  }

  /** The list after n calls of `update` with the same arguments. */
  function UpdateRepeatedly(items: seq<Value>, value: Value, current: Value, n: nat): seq<Value>
    requires Truthy(current)
    decreases n
  {
    if n == 0 then items else UpdateRepeatedly(UpdateOnce(items, value, current), value, current, n - 1)
  }

  /** `update` converges: as many calls as there are occurrences of the current value change the
      list, each call one occurrence; the list reached holds none and no further call changes it. */
  lemma {:induction false} UpdateConverges(items: seq<Value>, value: Value, current: Value, n: nat)
    requires Truthy(current) && current != value
    ensures var after := UpdateRepeatedly(items, value, current, n);
            var left := if n <= multiset(items)[current] then multiset(items)[current] - n else 0;
            |after| == |items| && multiset(after)[current] == left
            && multiset(after)[value] == multiset(items)[value] + multiset(items)[current] - left
            && (UpdateItems(after, value, None, current) == Ok(None) <==> multiset(items)[current] <= n)
    decreases n
  {
    UpdateMovesOne(items, value, None, current);
    if n > 0 {
      UpdateConverges(UpdateOnce(items, value, current), value, current, n - 1);
      assert current in items <==> multiset(items)[current] > 0;
    }
  }

  function UpdateOnce(items: seq<Value>, value: Value, current: Value): seq<Value>
    requires Truthy(current)
  {
    var r := UpdateItems(items, value, None, current).value;
    if r.Some? then r.value else items
  }

  lemma {:induction false} UpdateOnceMore(items: seq<Value>, value: Value, current: Value, n: nat)
    requires Truthy(current)
    ensures UpdateRepeatedly(items, value, current, n + 1)
         == UpdateOnce(UpdateRepeatedly(items, value, current, n), value, current)
    decreases n
  {
    if n > 0 {
      UpdateOnceMore(UpdateOnce(items, value, current), value, current, n - 1);
    }
  }

  /** Without an index or a current value, `update` inserts if absent, and doing it twice is doing it once. */
  lemma UpdateInserts(items: seq<Value>, value: Value)
    ensures var r := UpdateItems(items, value, None, Null);
            r.Ok? && (r.value.Some? <==> value !in items)
            && (r.value.Some? ==> r.value.value == items + [value]
                                  && UpdateItems(r.value.value, value, None, Null) == Ok(None))
  {
    assert (items + [value])[|items|] == value;
  }
}
