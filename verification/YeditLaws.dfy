/**
 The laws of the document editor: what `put`, `get`, `delete` and `update` promise together.
 Paths are token lists; the laws of the methods are stated for every key text and separator.
 */
module YeditLaws {
  import opened Wrappers
  import opened YeditKey
  import opened YeditDocument

  // ---------- Put then get ----------

  lemma {:induction false} GetAfterAdd(v: Value, path: seq<Segment>, item: Value)
    requires path != [] && AddPath(v, path, item).Ok?
    ensures GetPath(AddPath(v, path, item).value, path) == Ok(item)
    decreases |path|
  {
    if |path| > 1 {
      match path[0]
      case Key(k) => GetAfterAdd(Child(v.entries, k), path[1..], item);
      case Index(i) => GetAfterAdd(v.items[Slot(|v.items|, i)], path[1..], item);
    }
  }

  /** Adding never turns a document into a scalar, and only adds inside lists and dictionaries. */
  lemma AddKeepsContainer(v: Value, path: seq<Segment>, item: Value)
    requires path != [] && AddPath(v, path, item).Ok?
    ensures IsContainer(v) && IsContainer(AddPath(v, path, item).value)
  {
  }

  /** After a `put` that reports a change, `get` at the same key returns the value. */
  lemma PutGet(doc: Value, key: string, value: Value, sep: string)
    requires var r := Put(doc, key, value, sep); r.Ok? && r.value.changed
    ensures Get(Put(doc, key, value, sep).value.doc, key, sep) == Ok(value)
  {
    if key != "" {
      AddKeepsContainer(doc, ParseKey(key, sep), value);
      GetAfterAdd(doc, ParseKey(key, sep), value);
    }
  }

  /** `put` is idempotent: a second identical `put` reports no change and leaves the document alone. */
  lemma PutTwice(doc: Value, key: string, value: Value, sep: string)
    requires Put(doc, key, value, sep).Ok?
    ensures var once := Put(doc, key, value, sep).value.doc;
            Put(once, key, value, sep) == Ok(Change(false, once))
  {
    if Put(doc, key, value, sep).value.changed {
      PutGet(doc, key, value, sep);
    }
  }

  /** Putting back what `get` returns changes nothing. */
  lemma PutBack(doc: Value, key: string, sep: string)
    requires Get(doc, key, sep).Ok?
    ensures Put(doc, key, Get(doc, key, sep).value, sep) == Ok(Change(false, doc))
  {
  }

  // ---------- Two puts at one path ----------

  lemma {:induction false} AddOverwrites(v: Value, path: seq<Segment>, x: Value, y: Value)
    requires path != [] && AddPath(v, path, x).Ok?
    ensures AddPath(AddPath(v, path, x).value, path, y) == AddPath(v, path, y)
    decreases |path|
  {
    if |path| == 1 {
      AddLastOverwrites(v, path, x, y);
    } else {
      match path[0]
      case Key(k) =>
        var child := Child(v.entries, k);
        AddUnderKey(v, k, path, x);
        AddUnderKey(v, k, path, y);
        AddUnderKey(AddPath(v, path, x).value, k, path, y);
        AddOverwrites(child, path[1..], x, y);
        if AddPath(child, path[1..], y).Ok? {
          var z := AddPath(child, path[1..], y).value;
          assert v.entries[k := AddPath(child, path[1..], x).value][k := z] == v.entries[k := z];
        }
      case Index(i) =>
        var s := Slot(|v.items|, i);
        AddUnderIndex(v, i, path, x);
        AddUnderIndex(v, i, path, y);
        AddUnderIndex(AddPath(v, path, x).value, i, path, y);
        AddOverwrites(v.items[s], path[1..], x, y);
        if AddPath(v.items[s], path[1..], y).Ok? {
          var z := AddPath(v.items[s], path[1..], y).value;
          assert v.items[s := AddPath(v.items[s], path[1..], x).value][s := z] == v.items[s := z];
        }
    }
  }

  lemma AddLastOverwrites(v: Value, path: seq<Segment>, x: Value, y: Value)
    requires |path| == 1 && AddPath(v, path, x).Ok?
    ensures AddPath(AddPath(v, path, x).value, path, y) == AddPath(v, path, y)
  {
    var w := AddPath(v, path, x).value;
    match path[0]
    case Key(k) => assert w.entries[k := y] == v.entries[k := y];
    case Index(i) =>
      if i == |v.items| {
        assert w.items[i := y] == v.items + [y];
      } else {
        var s := Slot(|v.items|, i);
        assert w.items[s := y] == v.items[s := y];
      }
  }

  lemma AddIsTruthy(v: Value, path: seq<Segment>, item: Value)
    requires path != [] && AddPath(v, path, item).Ok?
    ensures Truthy(AddPath(v, path, item).value)
  {
    var w := AddPath(v, path, item).value;
    match path[0]
    case Key(k) => assert k in w.entries;
    case Index(i) => assert |w.items| > 0;
  }

  /** Adding the value that is already found, if it is not null, rebuilds the same document. */
  lemma {:induction false} AddFound(v: Value, path: seq<Segment>)
    requires path != [] && GetPath(v, path).Ok? && !GetPath(v, path).value.Null?
    ensures AddPath(v, path, GetPath(v, path).value) == Ok(v)
    decreases |path|
  {
    match path[0]
    case Key(k) =>
      assert k in v.entries;
      if |path| == 1 {
        assert v.entries[k := v.entries[k]] == v.entries;
      } else {
        AddFound(v.entries[k], path[1..]);
        assert Child(v.entries, k) == v.entries[k];
        assert v.entries[k := v.entries[k]] == v.entries;
      }
    case Index(i) =>
      var s := Slot(|v.items|, i);
      if |path| > 1 {
        AddFound(v.items[s], path[1..]);
      }
      assert v.items[s := v.items[s]] == v.items;
  }

  /** The path leads to an entry: each key is present and each index in range. */
  predicate Leads(v: Value, path: seq<Segment>)
    decreases |path|
  {
    path == [] ||
    match path[0]
    case Key(k) => v.Dict? && k in v.entries && Leads(v.entries[k], path[1..])
    case Index(i) => v.List? && -|v.items| <= i < |v.items| && Leads(v.items[Slot(|v.items|, i)], path[1..])
  }

  /** Adding null where null is found leaves the document alone exactly where the null is written. */
  lemma {:induction false} NullIsWritten(v: Value, path: seq<Segment>)
    requires path != [] && GetPath(v, path) == Ok(Null)
    ensures AddPath(v, path, Null) == Ok(v) <==> Leads(v, path)
    decreases |path|
  {
    match path[0]
    case Key(k) =>
      if v.Dict? {
        assert k in v.entries ==> v.entries[k := v.entries[k]] == v.entries;
        if |path| > 1 {
          var child := Child(v.entries, k);
          AddUnderKey(v, k, path, Null);
          if k in v.entries && Truthy(v.entries[k]) {
            NullIsWritten(child, path[1..]);
            assert AddPath(child, path[1..], Null) == Ok(child) <== AddPath(v, path, Null) == Ok(v);
          } else if AddPath(child, path[1..], Null).Ok? {
            AddIsTruthy(child, path[1..], Null);
          }
        }
      }
    case Index(i) =>
      if v.List? && -|v.items| <= i < |v.items| {
        var s := Slot(|v.items|, i);
        assert v.items[s := v.items[s]] == v.items;
        if |path| > 1 {
          AddUnderIndex(v, i, path, Null);
          NullIsWritten(v.items[s], path[1..]);
        }
      }
  }

  /** When two successive puts at one key equal the second alone, as a caller can check it before
      the first: the first has nothing to do, or both can be carried out at the root, or a null does
      not land where nothing was. */
  predicate SecondPutWins(doc: Value, key: string, x: Value, y: Value, sep: string) {
    || Get(doc, key, sep) == Ok(x)
    || Refused(doc, key)
    || (if key == "" then IsContainer(y) || !IsContainer(x)
        else !y.Null? || Get(doc, key, sep) != Ok(Null) || Leads(doc, ParseKey(key, sep)))
  }

  lemma PutPut(doc: Value, key: string, x: Value, y: Value, sep: string)
    requires Put(doc, key, x, sep).Ok?
    ensures var first := Put(doc, key, x, sep).value.doc;
            var both, alone := Put(first, key, y, sep), Put(doc, key, y, sep);
            SecondPutWins(doc, key, x, y, sep) <==>
            both.Ok? == alone.Ok? && (alone.Ok? ==> both.value.doc == alone.value.doc)
  {
    if key != "" && Put(doc, key, x, sep).value.changed {
      var path := ParseKey(key, sep);
      var first := Put(doc, key, x, sep).value.doc;
      PutGet(doc, key, x, sep);
      AddKeepsContainer(doc, path, x);
      AddOverwrites(doc, path, x, y);
      AddSucceeds(doc, path, x, y);
      assert Put(first, key, y, sep).value.doc == AddPath(doc, path, y).value;
      var entry := Get(doc, key, sep).value;
      if entry.Null? {
        NullIsWritten(doc, path);
      } else if entry == y {
        AddFound(doc, path);
      }
    }
  }

  /** The failing case at its smallest: 1 and then null under a new key leave the key with null,
      while null alone writes nothing. */
  lemma NullAfterValueStays(sep: string)
    requires Separates(sep)
    ensures var doc, none := Dict(map[]), Dict(map["a" := Null]);
            && Put(doc, "a", Null, sep) == Ok(Change(false, doc))
            && Put(Put(doc, "a", Int(1), sep).value.doc, "a", Null, sep) == Ok(Change(true, none))
  {
    var doc, one, path := Dict(map[]), Dict(map["a" := Int(1)]), [Key("a")];
    assert IsPath(path, sep) && Render(path, sep) == "a" && path[1..] == [];
    ParseRender(path, sep);
    assert ValidKey("a");
    assert doc.entries["a" := Int(1)] == one.entries;
    assert Put(doc, "a", Int(1), sep) == Ok(Change(true, one));
    assert one.entries["a" := Null] == map["a" := Null];
  }

  /** Whether adding succeeds does not depend on the value added. */
  lemma {:induction false} AddSucceeds(v: Value, path: seq<Segment>, x: Value, y: Value)
    requires path != [] && AddPath(v, path, x).Ok?
    ensures AddPath(v, path, y).Ok?
    decreases |path|
  {
    if |path| > 1 {
      match path[0]
      case Key(k) => AddSucceeds(Child(v.entries, k), path[1..], x, y);
      case Index(i) => AddSucceeds(v.items[Slot(|v.items|, i)], path[1..], x, y);
    }
  }

  // ---------- When a put completes ----------

  /** Every step of the path can be taken or made: a key in a dictionary, where an absent or falsy
      entry counts as an empty dictionary; an index in range of a list, where the last one may
      append. */
  predicate Takes(v: Value, path: seq<Segment>)
    requires path != []
    decreases |path|
  {
    match path[0]
    case Key(k) => v.Dict? && (|path| > 1 ==> Takes(Child(v.entries, k), path[1..]))
    case Index(i) =>
      v.List? && -|v.items| <= i &&
      if |path| == 1 then i <= |v.items| else i < |v.items| && Takes(v.items[Slot(|v.items|, i)], path[1..])
  }

  lemma {:induction false} AddCompletes(v: Value, path: seq<Segment>, x: Value)
    requires path != []
    ensures AddPath(v, path, x).Ok? <==> Takes(v, path)
    decreases |path|
  {
    if |path| > 1 {
      match path[0]
      case Key(k) => if v.Dict? { AddCompletes(Child(v.entries, k), path[1..], x); }
      case Index(i) =>
        if v.List? && -|v.items| <= i < |v.items| { AddCompletes(v.items[Slot(|v.items|, i)], path[1..], x); }
    }
  }

  lemma {:induction false} TakesIsReadable(v: Value, path: seq<Segment>)
    requires path != [] && Takes(v, path)
    ensures GetPath(v, path).Ok?
    decreases |path|
  {
    if |path| > 1 {
      match path[0]
      case Key(k) =>
        TakesIsReadable(Child(v.entries, k), path[1..]);
        if !(k in v.entries && Truthy(v.entries[k])) {
          EmptyTakesKeys(path[1..]);
          FalsyLooksEmpty(Lookup(v.entries, k), path[1..]);
        }
      case Index(i) => TakesIsReadable(v.items[Slot(|v.items|, i)], path[1..]);
    }
  }

  lemma EmptyTakesKeys(path: seq<Segment>)
    requires path != [] && Takes(Dict(map[]), path)
    ensures path[0].Key?
  {
  }

  /** A put completes exactly when the value is there already, when it does nothing because of its
      key, or when every step of its path can be taken. */
  lemma PutCompletesIff(doc: Value, key: string, x: Value, sep: string)
    ensures var path := ParseKey(key, sep);
            Put(doc, key, x, sep).Ok? <==>
            Get(doc, key, sep) == Ok(x) || key == "" || Refused(doc, key) || (path != [] && Takes(doc, path))
  {
    var path := ParseKey(key, sep);
    if path != [] {
      AddCompletes(doc, path, x);
      if Takes(doc, path) {
        TakesIsReadable(doc, path);
      }
    }
  }

  // ---------- Puts at paths that part ways ----------

  predicate NonNegative(path: seq<Segment>) {
    forall i | 0 <= i < |path| :: path[i].Index? ==> path[i].i >= 0
  }

  /** Neither path is a prefix of the other. */
  predicate Diverge(p: seq<Segment>, q: seq<Segment>) {
    p != [] && q != [] && (p[0] != q[0] || Diverge(p[1..], q[1..]))
  }

  lemma {:induction false} DivergeSymmetric(p: seq<Segment>, q: seq<Segment>)
    ensures Diverge(p, q) == Diverge(q, p)
    decreases |p|
  {
    if p != [] && q != [] {
      DivergeSymmetric(p[1..], q[1..]);
    }
  }

  /** An empty dictionary and every falsy value look the same to a non-empty path. */
  lemma FalsyLooksEmpty(v: Value, path: seq<Segment>)
    requires !Truthy(v) && path != []
    ensures GetPath(v, path) == Ok(Null) || (v.List? && path[0].Index? && path[0].i < 0)
    ensures GetPath(Dict(map[]), path) == Ok(Null)
  {
    if v.Dict? {
      assert v.entries == map[];
    }
  }

  lemma {:induction false} AddFrame(v: Value, p: seq<Segment>, item: Value, q: seq<Segment>)
    requires Diverge(p, q) && NonNegative(p) && NonNegative(q)
    requires AddPath(v, p, item).Ok?
    ensures GetPath(AddPath(v, p, item).value, q) == GetPath(v, q)
    decreases |p|
  {
    if |p| > 1 && p[0] == q[0] {
      assert NonNegative(p[1..]) && NonNegative(q[1..]);
      match p[0]
      case Key(k) =>
        var child := Child(v.entries, k);
        AddFrame(child, p[1..], item, q[1..]);
        if k !in v.entries || !Truthy(v.entries[k]) {
          FalsyLooksEmpty(Lookup(v.entries, k), q[1..]);
        }
      case Index(i) =>
        AddFrame(v.items[Slot(|v.items|, i)], p[1..], item, q[1..]);
    }
  }

  /** A successful `put` leaves `get` unchanged at every key whose path parts from the one put. */
  lemma PutFrame(doc: Value, key: string, value: Value, other: string, sep: string)
    requires var p, q := ParseKey(key, sep), ParseKey(other, sep);
             Diverge(p, q) && NonNegative(p) && NonNegative(q)
    requires Put(doc, key, value, sep).Ok?
    ensures Get(Put(doc, key, value, sep).value.doc, other, sep) == Get(doc, other, sep)
  {
    var p := ParseKey(key, sep);
    if Put(doc, key, value, sep).value.changed {
      assert key != "";
      AddKeepsContainer(doc, p, value);
      AddFrame(doc, p, value, ParseKey(other, sep));
    }
  }

  /** The paths part at two different dictionary keys; they may share indices before and use any after. */
  predicate DivergeAtKeys(p: seq<Segment>, q: seq<Segment>) {
    p != [] && q != []
    && if p[0] == q[0] then DivergeAtKeys(p[1..], q[1..]) else p[0].Key? && q[0].Key?
  }

  lemma {:induction false} DivergeAtKeysSymmetric(p: seq<Segment>, q: seq<Segment>)
    ensures DivergeAtKeys(p, q) == DivergeAtKeys(q, p)
    decreases |p|
  {
    if p != [] && q != [] {
      DivergeAtKeysSymmetric(p[1..], q[1..]);
    }
  }

  /** Two additions to one value succeed and commute. */
  predicate Commute(v: Value, p: seq<Segment>, x: Value, q: seq<Segment>, y: Value)
    requires p != [] && q != []
  {
    var first, second := AddPath(v, p, x), AddPath(v, q, y);
    first.Ok? && second.Ok? && AddPath(first.value, q, y).Ok?
    && AddPath(second.value, p, x) == AddPath(first.value, q, y)
  }

  lemma {:induction false} AddCommutes(v: Value, p: seq<Segment>, x: Value, q: seq<Segment>, y: Value)
    requires DivergeAtKeys(p, q)
    requires AddPath(v, p, x).Ok? && AddPath(AddPath(v, p, x).value, q, y).Ok?
    ensures Commute(v, p, x, q, y)
    decreases |p|
  {
    if p[0] != q[0] {
      AddCommutesHere(v, p, x, q, y);
    } else {
      match p[0]
      case Key(k) =>
        AddUnderKey(v, k, p, x);
        AddUnderKey(AddPath(v, p, x).value, k, q, y);
        AddCommutes(Child(v.entries, k), p[1..], x, q[1..], y);
        AddCommutesUnderKey(v, k, p, x, q, y);
      case Index(i) =>
        AddUnderIndex(v, i, p, x);
        AddUnderIndex(AddPath(v, p, x).value, i, q, y);
        AddCommutes(v.items[Slot(|v.items|, i)], p[1..], x, q[1..], y);
        AddCommutesUnderIndex(v, i, p, x, q, y);
    }
  }

  lemma AddCommutesUnderKey(v: Value, k: string, p: seq<Segment>, x: Value, q: seq<Segment>, y: Value)
    requires v.Dict? && |p| > 1 && |q| > 1 && p[0] == Key(k) == q[0]
    requires Commute(Child(v.entries, k), p[1..], x, q[1..], y)
    ensures Commute(v, p, x, q, y)
  {
    var c := Child(v.entries, k);
    var c1, c2 := AddPath(c, p[1..], x).value, AddPath(c, q[1..], y).value;
    var both := AddPath(c1, q[1..], y).value;
    AddUnderKey(v, k, p, x);
    AddUnderKey(AddPath(v, p, x).value, k, q, y);
    AddUnderKey(v, k, q, y);
    AddUnderKey(AddPath(v, q, y).value, k, p, x);
    assert v.entries[k := c1][k := both] == v.entries[k := c2][k := both];
  }

  lemma AddCommutesUnderIndex(v: Value, i: int, p: seq<Segment>, x: Value, q: seq<Segment>, y: Value)
    requires v.List? && -|v.items| <= i < |v.items| && |p| > 1 && |q| > 1 && p[0] == Index(i) == q[0]
    requires Commute(v.items[Slot(|v.items|, i)], p[1..], x, q[1..], y)
    ensures Commute(v, p, x, q, y)
  {
    var s := Slot(|v.items|, i);
    var c1, c2 := AddPath(v.items[s], p[1..], x).value, AddPath(v.items[s], q[1..], y).value;
    var both := AddPath(c1, q[1..], y).value;
    AddUnderIndex(v, i, p, x);
    AddUnderIndex(AddPath(v, p, x).value, i, q, y);
    AddUnderIndex(v, i, q, y);
    AddUnderIndex(AddPath(v, q, y).value, i, p, x);
    assert v.items[s := c1][s := both] == v.items[s := c2][s := both];
  }

  /** One step down through a dictionary: only the entry at the key changes, and it is truthy after. */
  lemma AddUnderKey(v: Value, k: string, path: seq<Segment>, x: Value)
    requires |path| > 1 && path[0] == Key(k) && v.Dict?
    ensures var below, w := AddPath(Child(v.entries, k), path[1..], x), AddPath(v, path, x);
            w.Ok? == below.Ok?
            && (w.Ok? ==> w.value == Dict(v.entries[k := below.value])
                          && Child(w.value.entries, k) == below.value)
  {
    var below := AddPath(Child(v.entries, k), path[1..], x);
    if below.Ok? {
      AddIsTruthy(Child(v.entries, k), path[1..], x);
    }
  }

  lemma AddUnderIndex(v: Value, i: int, path: seq<Segment>, x: Value)
    requires |path| > 1 && path[0] == Index(i) && v.List? && -|v.items| <= i < |v.items|
    ensures var s := Slot(|v.items|, i);
            var below, w := AddPath(v.items[s], path[1..], x), AddPath(v, path, x);
            w.Ok? == below.Ok?
            && (w.Ok? ==> w.value == List(v.items[s := below.value]))
  {
  }

  lemma AddCommutesHere(v: Value, p: seq<Segment>, x: Value, q: seq<Segment>, y: Value)
    requires p != [] && q != [] && p[0].Key? && q[0].Key? && p[0] != q[0]
    requires AddPath(v, p, x).Ok? && AddPath(AddPath(v, p, x).value, q, y).Ok?
    ensures Commute(v, p, x, q, y)
  {
    var j, k := p[0].k, q[0].k;
    var v1 := AddAtKey(v, j, p, x);
    AddElsewhere(v, v1.value, j, k);
    var v12 := AddAtKey(v1.value, k, q, y);
    var v2 := AddAtKey(v, k, q, y);
    AddElsewhere(v, v2.value, k, j);
    var v21 := AddAtKey(v2.value, j, p, x);
    assert v.entries[j := v1.value.entries[j]][k := v2.value.entries[k]]
        == v.entries[k := v2.value.entries[k]][j := v1.value.entries[j]];
  }

  /** What an addition below key k writes at k. */
  function AddedAt(child: Option<Value>, path: seq<Segment>, x: Value): Result<Value>
    requires path != []
  {
    if |path| == 1 then Ok(x)
    else AddPath(if child.Some? && Truthy(child.value) then child.value else Dict(map[]), path[1..], x)
  }

  function EntryAt(entries: map<string, Value>, k: string): Option<Value> {
    if k in entries then Some(entries[k]) else None
  }

  lemma AddAtKey(v: Value, k: string, path: seq<Segment>, x: Value) returns (w: Result<Value>)
    requires path != [] && path[0] == Key(k) && v.Dict?
    ensures w == AddPath(v, path, x)
    ensures var below := AddedAt(EntryAt(v.entries, k), path, x);
            w == if below.Ok? then Ok(Dict(v.entries[k := below.value])) else Raise(below.error)
  {
    w := AddPath(v, path, x);
  }

  lemma AddElsewhere(v: Value, w: Value, j: string, k: string)
    requires v.Dict? && w.Dict? && j != k && j in w.entries && w.entries == v.entries[j := w.entries[j]]
    ensures EntryAt(w.entries, k) == EntryAt(v.entries, k)
  {
  }

  lemma {:induction false} AddFrameAtKeys(v: Value, p: seq<Segment>, item: Value, q: seq<Segment>)
    requires DivergeAtKeys(p, q) && AddPath(v, p, item).Ok?
    ensures GetPath(AddPath(v, p, item).value, q) == GetPath(v, q)
    decreases |p|
  {
    if |p| > 1 && p[0] == q[0] {
      match p[0]
      case Key(k) =>
        AddFrameAtKeys(Child(v.entries, k), p[1..], item, q[1..]);
        if k !in v.entries || !Truthy(v.entries[k]) {
          FalsyLooksEmpty(Lookup(v.entries, k), q[1..]);
        }
      case Index(i) =>
        AddFrameAtKeys(v.items[Slot(|v.items|, i)], p[1..], item, q[1..]);
    }
  }

  /** Two puts that both succeed, at keys whose paths part at dictionary keys, commute. */
  lemma PutsCommute(doc: Value, key1: string, x: Value, key2: string, y: Value, sep: string)
    requires DivergeAtKeys(ParseKey(key1, sep), ParseKey(key2, sep))
    requires var first := Put(doc, key1, x, sep); first.Ok? && Put(first.value.doc, key2, y, sep).Ok?
    ensures var second := Put(doc, key2, y, sep);
            second.Ok? && Put(second.value.doc, key1, x, sep).Ok?
            && Put(second.value.doc, key1, x, sep).value.doc
                 == Put(Put(doc, key1, x, sep).value.doc, key2, y, sep).value.doc
  {
    var p, q := ParseKey(key1, sep), ParseKey(key2, sep);
    var first := Put(doc, key1, x, sep).value;
    PutCases(doc, key1, x, sep);
    PutCases(first.doc, key2, y, sep);
    DivergeAtKeysSymmetric(p, q);
    PutElsewhere(doc, key1, x, key2, y, sep);
    if first.changed && !Idle(first.doc, key2, y, sep) {
      AddFrameAtKeys(doc, p, x, q);
      AddCommutes(doc, p, x, q, y);
    }
    PutCompletes(doc, key2, y, sep);
    PutCases(doc, key2, y, sep);
    PutElsewhere(doc, key2, y, key1, x, sep);
    var second := Put(doc, key2, y, sep).value;
    if second.changed {
      AddFrameAtKeys(doc, q, y, p);
    }
    PutCompletes(second.doc, key1, x, sep);
    PutCases(second.doc, key1, x, sep);
  }

  lemma PutCompletes(doc: Value, key: string, x: Value, sep: string)
    requires var path := ParseKey(key, sep);
             path != [] && (Idle(doc, key, x, sep) || (GetPath(doc, path).Ok? && AddPath(doc, path, x).Ok?))
    ensures Put(doc, key, x, sep).Ok?
  {
  }

  /** A put at a key with tokens has nothing to do. */
  predicate Idle(doc: Value, key: string, x: Value, sep: string) {
    Refused(doc, key) || GetPath(doc, ParseKey(key, sep)) == Ok(x)
  }

  /** Whether a put has nothing to do does not depend on a put elsewhere. */
  lemma PutElsewhere(doc: Value, key: string, y: Value, idle: string, x: Value, sep: string)
    requires DivergeAtKeys(ParseKey(key, sep), ParseKey(idle, sep)) && Put(doc, key, y, sep).Ok?
    ensures Idle(Put(doc, key, y, sep).value.doc, idle, x, sep) <==> Idle(doc, idle, x, sep)
  {
    PutCases(doc, key, y, sep);
    if Put(doc, key, y, sep).value.changed {
      AddFrameAtKeys(doc, ParseKey(key, sep), y, ParseKey(idle, sep));
    }
  }

  /** What a completed put at a key with tokens has done. */
  lemma PutCases(doc: Value, key: string, x: Value, sep: string)
    requires Put(doc, key, x, sep).Ok? && ParseKey(key, sep) != []
    ensures var r := Put(doc, key, x, sep).value;
            if r.changed then
              !Refused(doc, key) && AddPath(doc, ParseKey(key, sep), x) == Ok(r.doc) && !Refused(r.doc, key)
              && IsContainer(doc) && IsContainer(r.doc)
            else r.doc == doc && Idle(doc, key, x, sep)
    ensures Put(doc, key, x, sep).value.changed <==> !Idle(doc, key, x, sep)
    ensures GetPath(doc, ParseKey(key, sep)).Ok? || Refused(doc, key)
  {
    if Put(doc, key, x, sep).value.changed {
      AddKeepsContainer(doc, ParseKey(key, sep), x);
    }
  }
}
