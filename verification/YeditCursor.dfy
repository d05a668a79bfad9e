/**
 The static methods of the Yedit class as they run: a cursor walks down the objects of a
 document and reads, writes or deletes in place. Each is proved against its meaning on values.
 */
module YeditCursor {
  import opened Wrappers
  import opened YeditKey
  import opened YeditDocument
  import opened PyHeap

  // ---------- Between objects and values ----------

  /** Reading out the value a reference stands for. */
  function Read(r: Ref, ghost t: Tree): Value
    requires Rep(r, t)
    reads Nodes(t)
    decreases t
  {
    match r
    case Atom(v) => v
    case DictRef(d) => Dict(map k | k in d.entries :: Read(d.entries[k], t.kids[k]))
    case ListRef(l) => List(ReadAll(l.items, t.elems))
  }

  function ReadAll(rs: seq<Ref>, ghost ts: seq<Tree>): (vs: seq<Value>)
    requires |rs| == |ts| && forall i | 0 <= i < |rs| :: Rep(rs[i], ts[i])
    reads set i, o | 0 <= i < |ts| && o in Nodes(ts[i]) :: o
    ensures |vs| == |rs| && forall i | 0 <= i < |rs| :: vs[i] == Read(rs[i], ts[i])
    decreases ts
  {
    if rs == [] then [] else [Read(rs[0], ts[0])] + ReadAll(rs[1..], ts[1..])
  }

  lemma {:induction false} ReadIsVal(r: Ref, t: Tree)
    requires Rep(r, t)
    ensures Read(r, t) == Val(t)
    decreases t
  {
    match t
    case Leaf(_) =>
    case DictNode(d, kids) =>
      forall k | k in kids ensures Read(d.entries[k], kids[k]) == Val(kids[k]) {
        ReadIsVal(d.entries[k], kids[k]);
      }
    case ListNode(l, elems) =>
      forall i | 0 <= i < |elems| ensures Read(l.items[i], elems[i]) == Val(elems[i]) {
        ReadIsVal(l.items[i], elems[i]);
      }
      assert ReadAll(l.items, elems) == Val(t).items;
  }

  /** A fresh tree of objects for a value. */
  method Build(v: Value) returns (r: Ref, ghost t: Tree)
    ensures Holds(r, t) && Val(t) == v && fresh(Nodes(t))
    decreases v, 2
  {
    match v {
      case Dict(entries) => r, t := BuildDict(v);
      case List(items) => r, t := BuildList(v);
      case _ => r, t := Atom(v), Leaf(v);
    }
  }

  method BuildDict(v: Value) returns (r: Ref, ghost t: Tree)
    requires v.Dict?
    ensures Holds(r, t) && Val(t) == v && fresh(Nodes(t))
    decreases v, 1
  {
    var d := new PyDict(map[]);
    EmptyDictShape(d);
    r, t := DictRef(d), DictNode(d, map[]);
    t := BuildEntries(Top, r, d, t, v);
    assert map[] + v.entries == v.entries;
  }

  /** `data.update(v)`: every entry of v is put, in any order. */
  method BuildEntries(ghost c: Ctx, ghost root: Ref, d: PyDict, ghost t: Tree, v: Value) returns (ghost t': Tree)
    requires t.DictNode? && t.d == d && At(c, root, DictRef(d), t) && v.Dict?
    modifies d
    ensures t'.DictNode? && t'.d == d && At(c, root, DictRef(d), t')
    ensures forall o | o in Nodes(t') :: o in Nodes(t) || fresh(o)
    ensures Val(t') == Dict(Val(t).entries + v.entries)
    decreases v, 0
  {
    var keys := v.entries.Keys;
    t' := t;
    ghost var done := Val(t).entries;
    NothingDone(done, v.entries);
    while keys != {}
      invariant t'.DictNode? && t'.d == d && At(c, root, DictRef(d), t')
      invariant forall o | o in Nodes(t') :: o in Nodes(t) || fresh(o)
      invariant keys <= v.entries.Keys && Val(t') == Dict(done)
      invariant done == Val(t).entries + (v.entries - keys)
      decreases |keys|
    {
      var k :| k in keys;
      OneEntryMore(Val(t).entries, v.entries, keys, k);
      t' := BuildEntry(c, root, d, t', k, v.entries[k]);
      done, keys := done[k := v.entries[k]], keys - {k};
    }
    NoEntryLeft(v.entries, keys);
  }

  lemma NothingDone(before: map<string, Value>, entries: map<string, Value>)
    ensures before + (entries - entries.Keys) == before
  {
  }

  lemma NoEntryLeft(entries: map<string, Value>, keys: set<string>)
    requires keys == {}
    ensures entries - keys == entries
  {
  }

  /** A fresh tree for the value, put under a key of the dictionary at the cursor. */
  method BuildEntry(ghost c: Ctx, ghost root: Ref, d: PyDict, ghost t: Tree, k: string, v: Value)
    returns (ghost t': Tree)
    requires t.DictNode? && t.d == d && At(c, root, DictRef(d), t)
    modifies d
    ensures t'.DictNode? && t'.d == d && At(c, root, DictRef(d), t')
    ensures forall o | o in Nodes(t') :: o in Nodes(t) || fresh(o)
    ensures Val(t') == Dict(Val(t).entries[k := v])
    decreases v, 3
  {
    assert allocated(CtxNodes(c)) && allocated(Nodes(t));
    var child, kid := Build(v);
    assert CtxNodes(c) !! Nodes(kid) && Nodes(t) !! Nodes(kid);
    assert Around(c, root, DictRef(d)) && Rep(DictRef(d), t);
    t' := SetEntry(c, root, d, t, k, child, kid);
  }

  lemma OneEntryMore(before: map<string, Value>, entries: map<string, Value>, keys: set<string>, k: string)
    requires k in keys && keys <= entries.Keys
    ensures (before + (entries - keys))[k := entries[k]] == before + (entries - (keys - {k}))
    ensures |keys - {k}| < |keys|
  {
  }

  method BuildList(v: Value) returns (r: Ref, ghost t: Tree)
    requires v.List?
    ensures Holds(r, t) && Val(t) == v && fresh(Nodes(t))
    decreases v, 0
  {
    var l := new PyList([]);
    r, t := ListRef(l), ListNode(l, []);
    for i := 0 to |v.items|
      invariant t.ListNode? && t.l == l && r == ListRef(l) && Holds(r, t) && fresh(Nodes(t))
      invariant Val(t) == List(v.items[..i])
    {
      t := BuildItem(Top, r, l, t, v.items[i]);
      TakeOneMore(v.items, i);
    }
    assert v.items[..|v.items|] == v.items;
  }

  lemma TakeOneMore<T>(s: seq<T>, i: nat)
    requires i < |s|
    ensures s[..i] + [s[i]] == s[..i + 1]
  {
  }

  /** A fresh tree for the value, appended to the list at the cursor. */
  method BuildItem(ghost c: Ctx, ghost root: Ref, l: PyList, ghost t: Tree, v: Value) returns (ghost t': Tree)
    requires t.ListNode? && t.l == l && At(c, root, ListRef(l), t)
    modifies l
    ensures t'.ListNode? && t'.l == l && At(c, root, ListRef(l), t')
    ensures forall o | o in Nodes(t') :: o in Nodes(t) || fresh(o)
    ensures Val(t') == List(Val(t).items + [v])
    decreases v, 3
  {
    assert allocated(CtxNodes(c)) && allocated(Nodes(t));
    var child, elem := Build(v);
    assert CtxNodes(c) !! Nodes(elem) && Nodes(t) !! Nodes(elem);
    assert Around(c, root, ListRef(l)) && Rep(ListRef(l), t);
    t' := AppendItem(c, root, l, t, child, elem);
  }

  /** A fresh tree for the value, written over one item of the list at the cursor, or appended. */
  method BuildOverItem(ghost c: Ctx, ghost root: Ref, l: PyList, ghost t: Tree, i: nat, v: Value)
    returns (ghost t': Tree)
    requires t.ListNode? && t.l == l && At(c, root, ListRef(l), t) && i <= |t.elems|
    modifies l
    ensures At(c, root, ListRef(l), t')
    ensures forall o | o in Nodes(t') :: o in Nodes(t) || fresh(o)
    ensures var items := Val(t).items; Val(t') == List(if i < |items| then items[i := v] else items + [v])
  {
    if i == |l.items| {
      t' := BuildItem(c, root, l, t, v);
      return;
    }
    assert allocated(CtxNodes(c)) && allocated(Nodes(t));
    var child, elem := Build(v);
    assert CtxNodes(c) !! Nodes(elem) && Nodes(t) !! Nodes(elem);
    assert Around(c, root, ListRef(l)) && Rep(ListRef(l), t);
    t' := SetItem(c, root, l, t, i, child, elem);
  }

  // ---------- Writes at the cursor ----------

  /** `data[k] = child`. */
  method SetEntry(ghost c: Ctx, ghost root: Ref, d: PyDict, ghost t: Tree, k: string, child: Ref, ghost kid: Tree)
    returns (ghost t': Tree)
    requires t.DictNode? && t.d == d && At(c, root, DictRef(d), t)
    requires Holds(child, kid) && Nodes(kid) !! CtxNodes(c) + Nodes(t)
    modifies d
    ensures t' == DictNode(d, t.kids[k := kid])
    ensures At(c, root, DictRef(d), t') && Holds(child, kid)
    ensures forall o | o in Nodes(t') :: o in Nodes(t) || o in Nodes(kid)
    ensures Val(t') == Dict(Val(t).entries[k := Val(kid)])
  {
    d.entries := d.entries[k := child];
    t' := DictNode(d, t.kids[k := kid]);
    SetEntryShape(d, t.kids, k, kid);
  }

  /** `data.append(child)`. */
  method AppendItem(ghost c: Ctx, ghost root: Ref, l: PyList, ghost t: Tree, child: Ref, ghost elem: Tree)
    returns (ghost t': Tree)
    requires t.ListNode? && t.l == l && At(c, root, ListRef(l), t)
    requires Holds(child, elem) && Nodes(elem) !! CtxNodes(c) + Nodes(t)
    modifies l
    ensures t' == ListNode(l, t.elems + [elem])
    ensures At(c, root, ListRef(l), t') && Holds(child, elem)
    ensures forall o | o in Nodes(t') :: o in Nodes(t) || o in Nodes(elem)
    ensures Val(t') == List(Val(t).items + [Val(elem)])
  {
    l.items := l.items + [child];
    t' := ListNode(l, t.elems + [elem]);
    AppendItemShape(l, t.elems, elem);
  }

  /** `data[i] = child`. */
  method SetItem(ghost c: Ctx, ghost root: Ref, l: PyList, ghost t: Tree, i: nat, child: Ref, ghost elem: Tree)
    returns (ghost t': Tree)
    requires t.ListNode? && t.l == l && At(c, root, ListRef(l), t) && i < |t.elems|
    requires Holds(child, elem) && Nodes(elem) !! CtxNodes(c) + Nodes(t)
    modifies l
    ensures t' == ListNode(l, t.elems[i := elem])
    ensures At(c, root, ListRef(l), t') && Holds(child, elem)
    ensures forall o | o in Nodes(t') :: o in Nodes(t) || o in Nodes(elem)
    ensures Val(t') == List(Val(t).items[i := Val(elem)])
  {
    l.items := l.items[i := child];
    t' := ListNode(l, t.elems[i := elem]);
    SetItemShape(l, t.elems, i, elem);
  }

  /** `del data[k]`. */
  method DeleteEntry(ghost c: Ctx, ghost root: Ref, d: PyDict, ghost t: Tree, k: string)
    returns (ghost t': Tree)
    requires t.DictNode? && t.d == d && At(c, root, DictRef(d), t)
    modifies d
    ensures t' == DictNode(d, t.kids - {k})
    ensures At(c, root, DictRef(d), t') && Nodes(t') <= Nodes(t)
    ensures Val(t') == Dict(Val(t).entries - {k})
  {
    d.entries := d.entries - {k};
    t' := DictNode(d, t.kids - {k});
    DeleteEntryShape(d, t.kids, k);
  }

  /** `del data[i]`. */
  method DeleteItem(ghost c: Ctx, ghost root: Ref, l: PyList, ghost t: Tree, i: nat)
    returns (ghost t': Tree)
    requires t.ListNode? && t.l == l && At(c, root, ListRef(l), t) && i < |t.elems|
    modifies l
    ensures t' == ListNode(l, RemoveAt(t.elems, i))
    ensures At(c, root, ListRef(l), t') && Nodes(t') <= Nodes(t)
    ensures Val(t') == List(RemoveAt(Val(t).items, i))
  {
    l.items := RemoveAt(l.items, i);
    t' := ListNode(l, RemoveAt(t.elems, i));
    DeleteItemShape(l, t.elems, i);
  }

  /** `data.clear()`, at the root. */
  method ClearDict(d: PyDict, ghost t: Tree) returns (ghost t': Tree)
    requires t.DictNode? && t.d == d && Holds(DictRef(d), t)
    modifies d
    ensures Holds(DictRef(d), t') && Val(t') == Dict(map[]) && forall o | o in Nodes(t') :: o in Nodes(t)
  {
    d.entries := map[];
    EmptyDictShape(d);
    t' := DictNode(d, map[]);
  }

  /** `del data[:]`, at the root. */
  method ClearList(l: PyList, ghost t: Tree) returns (ghost t': Tree)
    requires t.ListNode? && t.l == l && Holds(ListRef(l), t)
    modifies l
    ensures Holds(ListRef(l), t') && Val(t') == List([]) && forall o | o in Nodes(t') :: o in Nodes(t)
  {
    l.items := [];
    t' := ListNode(l, []);
    assert Below(t') == {};
  }

  // ---------- Walking ----------

  /** What has been found at the cursor is what the whole path finds, and replacing it there is
      replacing it in the whole document. */
  ghost predicate Located(v: Value, path: seq<Segment>, c: Ctx, cur: Tree, rest: seq<Segment>) {
    && GetPath(v, path) == GetPath(Val(cur), rest)
    && forall x :: FillVal(c, Update(Val(cur), rest, x)) == Update(v, path, x)
  }

  /** The state of a walk: the cursor stands in the document, at a known place. */
  ghost predicate Walking(v: Value, path: seq<Segment>, root: Ref, nodes: set<object>,
                          c: Ctx, data: Ref, cur: Tree, rest: seq<Segment>)
    reads CtxNodes(c), Nodes(cur)
  {
    At(c, root, data, cur) && CtxNodes(c) + Nodes(cur) == nodes && Located(v, path, c, cur, rest)
  }

  lemma WalkKey(v: Value, path: seq<Segment>, root: Ref, nodes: set<object>,
                c: Ctx, data: Ref, cur: Tree, rest: seq<Segment>, k: string)
    requires Walking(v, path, root, nodes, c, data, cur, rest) && rest != [] && rest[0] == Key(k)
    ensures (cur.DictNode? && k in cur.kids) || GetPath(v, path) == Ok(Null)
    ensures cur.DictNode? && k in cur.kids ==>
              Walking(v, path, root, nodes, InDict(c, cur.d, cur.kids, k), cur.d.entries[k], cur.kids[k], rest[1..])
  {
    if cur.DictNode? && k in cur.kids {
      Enter(c, root, data, cur, k);
      var c', kid := InDict(c, cur.d, cur.kids, k), cur.kids[k];
      forall x ensures FillVal(c', Update(Val(kid), rest[1..], x)) == Update(v, path, x) {
        assert Update(Val(cur), rest, x) == Dict(Val(cur).entries[k := Update(Val(kid), rest[1..], x)]);
      }
    } else {
      assert GetPath(Null, rest[1..]) == Ok(Null);
    }
  }

  lemma WalkIndex(v: Value, path: seq<Segment>, root: Ref, nodes: set<object>,
                  c: Ctx, data: Ref, cur: Tree, rest: seq<Segment>, i: int)
    requires Walking(v, path, root, nodes, c, data, cur, rest) && rest != [] && rest[0] == Index(i)
    ensures !cur.ListNode? || i >= |cur.elems| ==> GetPath(v, path) == Ok(Null)
    ensures cur.ListNode? && i < -|cur.elems| ==> GetPath(v, path) == Raise(IndexError)
    ensures cur.ListNode? && -|cur.elems| <= i < |cur.elems| ==>
              var s := Slot(|cur.elems|, i);
              s < |cur.l.items|
              && Walking(v, path, root, nodes, InList(c, cur.l, cur.elems, s), cur.l.items[s], cur.elems[s], rest[1..])
  {
    if cur.ListNode? && -|cur.elems| <= i < |cur.elems| {
      var s := Slot(|cur.elems|, i);
      EnterList(c, root, data, cur, s);
      var c', kid := InList(c, cur.l, cur.elems, s), cur.elems[s];
      forall x ensures FillVal(c', Update(Val(kid), rest[1..], x)) == Update(v, path, x) {
        assert Update(Val(cur), rest, x) == List(Val(cur).items[s := Update(Val(kid), rest[1..], x)]);
      }
    }
  }

  /** One step of a walk that reads. None ends the walk with nothing found; a key that is missing
      reads as null, below which nothing is found either. */
  method Descend(data: Ref, segment: Segment, ghost v: Value, ghost path: seq<Segment>, ghost root: Ref,
                 ghost nodes: set<object>, ghost c: Ctx, ghost cur: Tree, ghost rest: seq<Segment>)
    returns (r: Result<Option<Ref>>, ghost c': Ctx, ghost cur': Tree)
    requires Walking(v, path, root, nodes, c, data, cur, rest) && rest != [] && rest[0] == segment
    ensures r.Raise? ==> GetPath(v, path) == Raise(r.error)
    ensures r == Ok(None) ==> GetPath(v, path) == Ok(Null)
    ensures r.Ok? && r.value.Some? ==> Walking(v, path, root, nodes, c', r.value.value, cur', rest[1..])
  {
    c', cur' := c, cur;
    match segment {
      case Key(k) =>
        WalkKey(v, path, root, nodes, c, data, cur, rest, k);
        if !data.DictRef? || k !in data.d.entries {
          return Ok(None), c', cur';
        }
        return Ok(Some(data.d.entries[k])), InDict(c, cur.d, cur.kids, k), cur.kids[k];
      case Index(j) =>
        WalkIndex(v, path, root, nodes, c, data, cur, rest, j);
        if !data.ListRef? || j > |data.l.items| - 1 {
          return Ok(None), c', cur';
        }
        if j < -|data.l.items| {
          return Raise(IndexError), c', cur';
        }
        var s := Slot(|data.l.items|, j);
        return Ok(Some(data.l.items[s])), InList(c, cur.l, cur.elems, s), cur.elems[s];
    }
  }

  /** `get_entry`. A found entry comes with its place; None stands for a missing or null entry. */
  method GetEntry(root: Ref, key: string, sep: string, ghost t: Tree)
    returns (r: Result<Ref>, ghost c: Ctx, ghost cur: Tree)
    requires Holds(root, t)
    ensures match Get(Val(t), key, sep)
            case Raise(e) => r == Raise(e)
            case Ok(v) => r.Ok? && (v.Null? <==> r.value == Atom(Null))
    ensures Get(Val(t), key, sep).Ok? && !Get(Val(t), key, sep).value.Null? ==>
              Walking(Val(t), ParseKey(key, sep), root, Nodes(t), c, r.value, cur, [])
  {
    c, cur := Top, t;
    if key != "" && !ValidKey(key) && !root.Atom? {
      return Ok(Atom(Null)), c, cur;
    }
    var path := ParseKey(key, sep);
    var data := root;
    for i := 0 to |path|
      invariant Walking(Val(t), path, root, Nodes(t), c, data, cur, path[i..])
    {
      assert path[i..][0] == path[i] && path[i..][1..] == path[i + 1..];
      var next, c', cur' := Descend(data, path[i], Val(t), path, root, Nodes(t), c, cur, path[i..]);
      if next.Raise? {
        return Raise(next.error), c, cur;
      }
      if next.value.None? {
        return Ok(Atom(Null)), c, cur;
      }
      data, c, cur := next.value.value, c', cur';
    }
    return Ok(data), c, cur;
  }

  // ---------- Adding ----------

  /** A result at the hole, seen as a result for the whole document. */
  ghost function FillResult(c: Ctx, r: Result<Value>): Result<Value> {
    match r
    case Ok(v) => Ok(FillVal(c, v))
    case Raise(e) => Raise(e)
  }

  /** The state of a walk that builds: what remains to be added at the cursor decides what the
      whole addition yields. `nodes` are the objects the document may hold by now. */
  ghost predicate Adding(goal: Result<Value>, root: Ref, c: Ctx, data: Ref, cur: Tree, rest: seq<Segment>, item: Value)
    reads CtxNodes(c), Nodes(cur)
  {
    At(c, root, data, cur) && rest != [] && goal == FillResult(c, AddPath(Val(cur), rest, item))
  }

  lemma AddKeyStep(goal: Result<Value>, root: Ref, c: Ctx, data: Ref, cur: Tree, rest: seq<Segment>, item: Value,
                   k: string)
    requires Adding(goal, root, c, data, cur, rest, item) && |rest| > 1 && rest[0] == Key(k)
    requires cur.DictNode? && k in cur.kids && Truthy(Val(cur.kids[k]))
    ensures Adding(goal, root, InDict(c, cur.d, cur.kids, k), cur.d.entries[k], cur.kids[k], rest[1..], item)
    ensures CtxNodes(InDict(c, cur.d, cur.kids, k)) + Nodes(cur.kids[k]) == CtxNodes(c) + Nodes(cur)
  {
    Enter(c, root, data, cur, k);
    assert Child(Val(cur).entries, k) == Val(cur.kids[k]);
  }

  lemma AddIndexStep(goal: Result<Value>, root: Ref, c: Ctx, data: Ref, cur: Tree, rest: seq<Segment>, item: Value,
                     i: int)
    requires Adding(goal, root, c, data, cur, rest, item) && |rest| > 1 && rest[0] == Index(i)
    requires cur.ListNode? && -|cur.elems| <= i < |cur.elems|
    ensures var s := Slot(|cur.elems|, i);
            && Adding(goal, root, InList(c, cur.l, cur.elems, s), cur.l.items[s], cur.elems[s], rest[1..], item)
            && CtxNodes(InList(c, cur.l, cur.elems, s)) + Nodes(cur.elems[s]) == CtxNodes(c) + Nodes(cur)
  {
    EnterList(c, root, data, cur, Slot(|cur.elems|, i));
  }

  predicate TruthyRef(r: Ref)
    reads match r case Atom(_) => {} case DictRef(d) => {d as object} case ListRef(l) => {l as object}
  {
    match r
    case Atom(v) => Truthy(v)
    case DictRef(d) => d.entries != map[]
    case ListRef(l) => l.items != []
  }

  lemma TruthyRefIsTruthy(r: Ref, t: Tree)
    requires Rep(r, t)
    ensures TruthyRef(r) == Truthy(Val(t))
  {
    match t
    case Leaf(_) =>
    case DictNode(d, kids) =>
      assert Val(t).entries.Keys == d.entries.Keys;
      if d.entries != map[] {
        assert d.entries.Keys != {};
      }
    case ListNode(l, elems) =>
  }

  lemma AddMissingStep(goal: Result<Value>, c: Ctx, cur: Value, c': Ctx, rest: seq<Segment>, item: Value, k: string)
    requires |rest| > 1 && rest[0] == Key(k) && cur.Dict? && Child(cur.entries, k) == Dict(map[])
    requires goal == FillResult(c, AddPath(cur, rest, item))
    requires forall x :: FillVal(c', x) == FillVal(c, Dict(cur.entries[k := Dict(map[])][k := x]))
    ensures goal == FillResult(c', AddPath(Dict(map[]), rest[1..], item))
  {
    var child := AddPath(Dict(map[]), rest[1..], item);
    if child.Ok? {
      assert cur.entries[k := Dict(map[])][k := child.value] == cur.entries[k := child.value];
    }
  }

  /** `data[k] = {}` for an absent or falsy entry, and the step into it; the item waits untouched. */
  method AddMissingDict(ghost goal: Result<Value>, ghost root: Ref, ghost c: Ctx, d: PyDict, ghost cur: Tree,
                        ghost rest: seq<Segment>, k: string, ghost item: Ref, ghost it: Tree)
    returns (data: Ref, ghost c': Ctx, ghost cur': Tree)
    requires Adding(goal, root, c, DictRef(d), cur, rest, Val(it)) && |rest| > 1 && rest[0] == Key(k)
    requires cur.DictNode? && !(k in cur.kids && Truthy(Val(cur.kids[k])))
    requires Holds(item, it) && Nodes(it) !! CtxNodes(c) + Nodes(cur)
    modifies d
    ensures Adding(goal, root, c', data, cur', rest[1..], Val(it))
    ensures Holds(item, it) && Nodes(it) !! CtxNodes(c') + Nodes(cur')
    ensures forall o | o in CtxNodes(c') + Nodes(cur') :: o in CtxNodes(c) + Nodes(cur) || fresh(o)
  {
    assert allocated(Nodes(it));
    ghost var t';
    data, t' := SetEmptyDict(root, c, d, cur, k);
    assert Rep(item, it);
    Enter(c, root, DictRef(d), t', k);
    c', cur' := InDict(c, d, t'.kids, k), t'.kids[k];
    AddMissingStep(goal, c, Val(cur), c', rest, Val(it), k);
  }

  lemma EmptyDictShape(d: PyDict)
    ensures var t := DictNode(d, map[]);
            Nodes(t) == {d} && Val(t) == Dict(map[]) && Separate(t)
  {
    assert Below(DictNode(d, map[])) == {};
    assert Val(DictNode(d, map[])).entries == map[];
  }

  method SetEmptyDict(ghost root: Ref, ghost c: Ctx, d: PyDict, ghost cur: Tree, k: string)
    returns (data: Ref, ghost t': Tree)
    requires At(c, root, DictRef(d), cur) && cur.DictNode?
    modifies d
    ensures t'.DictNode? && t'.d == d && At(c, root, DictRef(d), t')
    ensures k in d.entries && data == d.entries[k]
    ensures k in t'.kids && Val(t'.kids[k]) == Dict(map[])
    ensures Val(t') == Dict(Val(cur).entries[k := Dict(map[])])
    ensures forall o | o in Nodes(t') :: o in Nodes(cur) || fresh(o)
  {
    assert allocated(CtxNodes(c)) && allocated(Nodes(cur));
    var made := new PyDict(map[]);
    ghost var empty := DictNode(made, map[]);
    EmptyDictShape(made);
    assert Around(c, root, DictRef(d)) && Rep(DictRef(d), cur);
    t' := SetEntry(c, root, d, cur, k, DictRef(made), empty);
    data := d.entries[k];
  }

  /** One step of a walk that builds: into an entry that is there, or into a new dictionary in the
      place of an absent or falsy one. */
  method AddStep(ghost goal: Result<Value>, ghost root: Ref, ghost c: Ctx, data: Ref, ghost cur: Tree,
                 segment: Segment, ghost rest: seq<Segment>, ghost item: Ref, ghost it: Tree)
    returns (r: Result<Ref>, ghost c': Ctx, ghost cur': Tree)
    requires Adding(goal, root, c, data, cur, rest, Val(it)) && |rest| > 1 && rest[0] == segment
    requires Holds(item, it) && Nodes(it) !! CtxNodes(c) + Nodes(cur)
    modifies Nodes(cur)
    ensures r.Raise? ==> goal == Raise(r.error)
    ensures r.Ok? ==> Adding(goal, root, c', r.value, cur', rest[1..], Val(it))
    ensures r.Ok? ==> Holds(item, it) && Nodes(it) !! CtxNodes(c') + Nodes(cur')
    ensures forall o | o in CtxNodes(c') + Nodes(cur') :: o in CtxNodes(c) + Nodes(cur) || fresh(o)
  {
    c', cur' := c, cur;
    match segment {
      case Key(k) =>
        if !data.DictRef? {
          TruthyRefIsTruthy(data, cur);
          return Raise(if TruthyRef(data) then YeditException else TypeError), c, cur;
        }
        if k in data.d.entries {
          TruthyRefIsTruthy(data.d.entries[k], cur.kids[k]);
          if TruthyRef(data.d.entries[k]) {
            AddKeyStep(goal, root, c, data, cur, rest, Val(it), k);
            return Ok(data.d.entries[k]), InDict(c, cur.d, cur.kids, k), cur.kids[k];
          }
        }
        var made;
        made, c', cur' := AddMissingDict(goal, root, c, data.d, cur, rest, k, item, it);
        return Ok(made), c', cur';
      case Index(j) =>
        if !data.ListRef? || j > |data.l.items| - 1 {
          return Raise(YeditException), c, cur;
        }
        if j < -|data.l.items| {
          return Raise(IndexError), c, cur;
        }
        AddIndexStep(goal, root, c, data, cur, rest, Val(it), j);
        var s := Slot(|data.l.items|, j);
        return Ok(data.l.items[s]), InList(c, cur.l, cur.elems, s), cur.elems[s];
    }
  }

  /** `add_entry` on a non-empty token list: the cursor walks down, making dictionaries where
      entries are absent or falsy, and the last step writes the item. On a raise the document may
      hold new empty dictionaries; callers work on a copy. */
  method AddEntry(root: Ref, path: seq<Segment>, item: Ref, ghost t: Tree, ghost it: Tree)
    returns (r: Result<Ref>, ghost t': Tree)
    requires Holds(root, t) && Holds(item, it) && Nodes(it) !! Nodes(t)
    requires path != []
    modifies Nodes(t)
    ensures match AddPath(Val(t), path, Val(it))
            case Raise(e) => r == Raise(e)
            case Ok(v) => r.Ok? && Holds(root, t') && Val(t') == v
    ensures forall o | o in Nodes(t') :: o in Nodes(t) || o in Nodes(it) || fresh(o)
  {
    ghost var goal, before, value := AddPath(Val(t), path, Val(it)), Nodes(t), Val(it);
    ghost var c, cur := Top, t;
    var data := root;
    for i := 0 to |path| - 1
      invariant Adding(goal, root, c, data, cur, path[i..], value)
      invariant Holds(item, it) && Nodes(it) !! CtxNodes(c) + Nodes(cur)
      invariant forall o | o in CtxNodes(c) + Nodes(cur) :: o in before || fresh(o)
    {
      assert path[i..][0] == path[i] && path[i..][1..] == path[i + 1..];
      var next, c', cur' := AddStep(goal, root, c, data, cur, path[i], path[i..], item, it);
      if next.Raise? {
        return Raise(next.error), t;
      }
      data, c, cur := next.value, c', cur';
    }
    assert path[|path| - 1..] == [path[|path| - 1]];
    r, t' := AddLastEntry(root, c, data, cur, path[|path| - 1], item, it);
  }

  /** The last step of `add_entry`. */
  method AddLastEntry(ghost root: Ref, ghost c: Ctx, data: Ref, ghost cur: Tree, last: Segment, item: Ref,
                      ghost it: Tree)
    returns (r: Result<Ref>, ghost t': Tree)
    requires At(c, root, data, cur) && Holds(item, it) && Nodes(it) !! CtxNodes(c) + Nodes(cur)
    modifies Nodes(cur)
    ensures match AddLast(Val(cur), last, Val(it))
            case Raise(e) => r == Raise(e)
            case Ok(v) => r == Ok(data) && Holds(root, t') && Val(t') == FillVal(c, v)
    ensures forall o | o in Nodes(t') :: o in CtxNodes(c) || o in Nodes(cur) || o in Nodes(it)
  {
    ghost var cur' := cur;
    match last {
      case Index(i) =>
        if !data.ListRef? || i > |data.l.items| {
          return Raise(YeditException), cur;
        } else if i > |data.l.items| - 1 {
          cur' := AppendItem(c, root, data.l, cur, item, it);
        } else if i < -|data.l.items| {
          return Raise(IndexError), cur;
        } else {
          cur' := SetItem(c, root, data.l, cur, Slot(|data.l.items|, i), item, it);
        }
      case Key(k) =>
        if data.DictRef? {
          cur' := SetEntry(c, root, data.d, cur, k, item, it);
        } else {
          return Raise(YeditException), cur;
        }
    }
    Close(c, root, data, cur');
    return Ok(data), Fill(c, cur');
  }

  // ---------- Removing ----------

  ghost function FillRemoved(c: Ctx, r: Result<Option<Value>>): Result<Option<Value>> {
    match r
    case Ok(Some(v)) => Ok(Some(FillVal(c, v)))
    case _ => r
  }

  /** The state of a walk that removes. */
  ghost predicate Removing(goal: Result<Option<Value>>, root: Ref, nodes: set<object>,
                           c: Ctx, data: Ref, cur: Tree, rest: seq<Segment>)
    reads CtxNodes(c), Nodes(cur)
  {
    && At(c, root, data, cur) && CtxNodes(c) + Nodes(cur) == nodes
    && rest != [] && goal == FillRemoved(c, RemovePath(Val(cur), rest))
  }

  lemma RemoveKeyStep(goal: Result<Option<Value>>, root: Ref, nodes: set<object>,
                      c: Ctx, data: Ref, cur: Tree, rest: seq<Segment>, k: string)
    requires Removing(goal, root, nodes, c, data, cur, rest) && |rest| > 1 && rest[0] == Key(k)
    ensures (cur.DictNode? && k in cur.kids) || goal == Ok(None)
    ensures cur.DictNode? && k in cur.kids ==>
              Removing(goal, root, nodes, InDict(c, cur.d, cur.kids, k), cur.d.entries[k], cur.kids[k], rest[1..])
  {
    if cur.DictNode? && k in cur.kids {
      Enter(c, root, data, cur, k);
    }
  }

  lemma RemoveIndexStep(goal: Result<Option<Value>>, root: Ref, nodes: set<object>,
                        c: Ctx, data: Ref, cur: Tree, rest: seq<Segment>, i: int)
    requires Removing(goal, root, nodes, c, data, cur, rest) && |rest| > 1 && rest[0] == Index(i)
    requires cur.ListNode? && -|cur.elems| <= i < |cur.elems|
    ensures var s := Slot(|cur.elems|, i);
            Removing(goal, root, nodes, InList(c, cur.l, cur.elems, s), cur.l.items[s], cur.elems[s], rest[1..])
  {
    EnterList(c, root, data, cur, Slot(|cur.elems|, i));
  }

  /** One step of a walk that removes; None ends the walk with nothing removed. */
  method RemoveStep(ghost goal: Result<Option<Value>>, ghost root: Ref, ghost t: Tree, ghost c: Ctx,
                    data: Ref, ghost cur: Tree, segment: Segment, ghost rest: seq<Segment>)
    returns (r: Result<Option<Ref>>, ghost c': Ctx, ghost cur': Tree)
    requires Holds(root, t) && Removing(goal, root, Nodes(t), c, data, cur, rest)
    requires |rest| > 1 && rest[0] == segment
    ensures Holds(root, t)
    ensures r.Raise? ==> goal == Raise(r.error)
    ensures r == Ok(None) ==> goal == Ok(None)
    ensures r.Ok? && r.value.Some? ==> Removing(goal, root, Nodes(t), c', r.value.value, cur', rest[1..])
  {
    c', cur' := c, cur;
    match segment {
      case Key(k) =>
        RemoveKeyStep(goal, root, Nodes(t), c, data, cur, rest, k);
        if !data.DictRef? || k !in data.d.entries {
          return Ok(None), c, cur;
        }
        return Ok(Some(data.d.entries[k])), InDict(c, cur.d, cur.kids, k), cur.kids[k];
      case Index(j) =>
        if !data.ListRef? || j > |data.l.items| - 1 {
          return Ok(None), c, cur;
        }
        if j < -|data.l.items| {
          return Raise(IndexError), c, cur;
        }
        RemoveIndexStep(goal, root, Nodes(t), c, data, cur, rest, j);
        var s := Slot(|data.l.items|, j);
        return Ok(Some(data.l.items[s])), InList(c, cur.l, cur.elems, s), cur.elems[s];
    }
  }

  /** The last step of `remove_entry`, for the document t as a whole. */
  method RemoveLastEntry(ghost goal: Result<Option<Value>>, root: Ref, ghost c: Ctx, data: Ref, ghost cur: Tree,
                         last: Segment, ghost t: Tree)
    returns (r: Result<Option<()>>, ghost t': Tree)
    requires Removing(goal, root, Nodes(t), c, data, cur, [last]) && Holds(root, t)
    modifies Nodes(cur)
    ensures match goal
            case Raise(e) => r == Raise(e) && t' == t
            case Ok(None) => r == Ok(None) && t' == t
            case Ok(Some(v)) => r == Ok(Some(())) && Val(t') == v
    ensures Holds(root, t') && forall o | o in Nodes(t') :: o in Nodes(t)
  {
    ghost var cur' := cur;
    match last {
      case Index(i) =>
        if !data.ListRef? || i > |data.l.items| - 1 {
          return Ok(None), t;
        }
        if i < -|data.l.items| {
          return Raise(IndexError), t;
        }
        cur' := DeleteItem(c, root, data.l, cur, Slot(|data.l.items|, i));
      case Key(k) =>
        if !data.DictRef? {
          return Ok(None), t;
        }
        if k !in data.d.entries {
          return Raise(KeyError), t;
        }
        cur' := DeleteEntry(c, root, data.d, cur, k);
    }
    Close(c, root, data, cur');
    return Ok(Some(())), Fill(c, cur');
  }

  /** `remove_entry` on a non-empty token list; None is the method's `None`. */
  method RemoveEntryAt(root: Ref, path: seq<Segment>, ghost t: Tree)
    returns (r: Result<Option<()>>, ghost t': Tree)
    requires Holds(root, t) && path != []
    modifies Nodes(t)
    ensures match RemovePath(Val(t), path)
            case Raise(e) => r == Raise(e) && t' == t
            case Ok(None) => r == Ok(None) && t' == t
            case Ok(Some(v)) => r == Ok(Some(())) && Val(t') == v
    ensures Holds(root, t') && forall o | o in Nodes(t') :: o in Nodes(t)
  {
    ghost var goal := RemovePath(Val(t), path);
    ghost var c, cur := Top, t;
    var data := root;
    for i := 0 to |path| - 1
      invariant Holds(root, t) && Removing(goal, root, Nodes(t), c, data, cur, path[i..])
    {
      assert path[i..][0] == path[i] && path[i..][1..] == path[i + 1..];
      var next, c', cur' := RemoveStep(goal, root, t, c, data, cur, path[i], path[i..]);
      if next.Raise? {
        return Raise(next.error), t;
      }
      if next.value.None? {
        return Ok(None), t;
      }
      data, c, cur := next.value.value, c', cur';
    }
    assert path[|path| - 1..] == [path[|path| - 1]];
    r, t' := RemoveLastEntry(goal, root, c, data, cur, path[|path| - 1], t);
  }

  /** After a change at a found entry, the whole document is the old one updated there. */
  lemma CloseFound(v: Value, path: seq<Segment>, c: Ctx, root: Ref, data: Ref, found: Value, cur: Tree)
    requires At(c, root, data, cur)
    requires forall x :: FillVal(c, Update(found, [], x)) == Update(v, path, x)
    ensures Holds(root, Fill(c, cur)) && Val(Fill(c, cur)) == Update(v, path, Val(cur))
    ensures Nodes(Fill(c, cur)) == CtxNodes(c) + Nodes(cur)
  {
    Close(c, root, data, cur);
    assert FillVal(c, Update(found, [], Val(cur))) == FillVal(c, Val(cur));
  }
}
