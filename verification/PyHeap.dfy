/**
 Python's lists and dictionaries as objects on the heap, and documents as trees of them.
 A Tree is the ghost shape of a document: which object sits where. A Ctx is a shape with one
 hole, the place of the cursor; the objects of hole and context are disjoint, so a write at the
 cursor leaves the context as it is.
 */
module PyHeap {
  import opened YeditDocument

  class PyDict {
    var entries: map<string, Ref>

    constructor (entries: map<string, Ref>)
      ensures this.entries == entries
    {
      this.entries := entries;
    }
  }

  class PyList {
    var items: seq<Ref>

    constructor (items: seq<Ref>)
      ensures this.items == items
    {
      this.items := items;
    }
  }

  /** A reference as a Python variable holds it; scalars are immutable. */
  datatype Ref = Atom(v: Value) | DictRef(d: PyDict) | ListRef(l: PyList)

  datatype Tree =
    | Leaf(v: Value)
    | DictNode(d: PyDict, kids: map<string, Tree>)
    | ListNode(l: PyList, elems: seq<Tree>)

  /** The objects of a tree. */
  ghost function Nodes(t: Tree): set<object>
    decreases t, 1
  {
    match t
    case Leaf(_) => {}
    case DictNode(d, _) => {d} + Below(t)
    case ListNode(l, _) => {l} + Below(t)
  }

  /** The objects below the root of a tree. */
  ghost function Below(t: Tree): set<object>
    ensures t.DictNode? ==> forall k | k in t.kids :: Nodes(t.kids[k]) <= Below(t)
    ensures t.ListNode? ==> forall i | 0 <= i < |t.elems| :: Nodes(t.elems[i]) <= Below(t)
    decreases t, 0
  {
    match t
    case Leaf(_) => {}
    case DictNode(_, kids) => set k, o | k in kids && o in Nodes(kids[k]) :: o
    case ListNode(_, elems) => set i, o | 0 <= i < |elems| && o in Nodes(elems[i]) :: o
  }

  lemma {:induction false} NodesAreContainers(t: Tree)
    ensures forall o | o in Nodes(t) :: o is PyDict || o is PyList
    decreases t
  {
    match t
    case Leaf(_) =>
    case DictNode(_, kids) =>
      forall k | k in kids ensures forall o | o in Nodes(kids[k]) :: o is PyDict || o is PyList {
        NodesAreContainers(kids[k]);
      }
    case ListNode(_, elems) =>
      forall i | 0 <= i < |elems| ensures forall o | o in Nodes(elems[i]) :: o is PyDict || o is PyList {
        NodesAreContainers(elems[i]);
      }
  }

  /** The document a tree stands for. */
  ghost function Val(t: Tree): Value {
    match t
    case Leaf(v) => v
    case DictNode(_, kids) => Dict(map k | k in kids :: Val(kids[k]))
    case ListNode(_, elems) => List(seq(|elems|, i requires 0 <= i < |elems| => Val(elems[i])))
  }

  /** The heap holds the tree at the reference. */
  ghost predicate Rep(r: Ref, t: Tree)
    reads Nodes(t)
    decreases t
  {
    match t
    case Leaf(v) => r == Atom(v) && !IsContainer(v)
    case DictNode(d, kids) =>
      r == DictRef(d) && d.entries.Keys == kids.Keys && forall k | k in kids :: Rep(d.entries[k], kids[k])
    case ListNode(l, elems) =>
      r == ListRef(l) && |l.items| == |elems| && forall i | 0 <= i < |elems| :: Rep(l.items[i], elems[i])
  }

  /** No object occurs twice. */
  ghost predicate Separate(t: Tree) {
    match t
    case Leaf(_) => true
    case DictNode(d, kids) =>
      && d !in Below(t)
      && (forall k | k in kids :: Separate(kids[k]))
      && (forall j, k | j in kids && k in kids && j != k :: Nodes(kids[j]) !! Nodes(kids[k]))
    case ListNode(l, elems) =>
      && l !in Below(t)
      && (forall i | 0 <= i < |elems| :: Separate(elems[i]))
      && (forall i, j | 0 <= i < j < |elems| :: Nodes(elems[i]) !! Nodes(elems[j]))
  }

  // ---------- Contexts ----------

  /** The way from the root to the hole; what the hole's entry held is ignored. */
  datatype Ctx =
    | Top
    | InDict(up: Ctx, d: PyDict, kids: map<string, Tree>, k: string)
    | InList(up: Ctx, l: PyList, elems: seq<Tree>, i: nat)

  ghost function CtxNodes(c: Ctx): set<object> {
    match c
    case Top => {}
    case InDict(up, d, kids, k) => CtxNodes(up) + Nodes(DictNode(d, kids - {k}))
    case InList(up, l, elems, i) =>
      CtxNodes(up) + {l} + Others(elems, i)
  }

  /** The heap holds the context around the hole. */
  ghost predicate Around(c: Ctx, root: Ref, hole: Ref)
    reads CtxNodes(c)
  {
    match c
    case Top => root == hole
    case InDict(up, d, kids, k) =>
      && k in kids && d.entries.Keys == kids.Keys && d.entries[k] == hole
      && (forall j | j in kids - {k} :: Rep(d.entries[j], (kids - {k})[j]))
      && Around(up, root, DictRef(d))
    case InList(up, l, elems, i) =>
      && i < |elems| && |l.items| == |elems| && l.items[i] == hole
      && (forall j | 0 <= j < |elems| && j != i :: Rep(l.items[j], elems[j]))
      && Around(up, root, ListRef(l))
  }

  ghost predicate CtxSeparate(c: Ctx) {
    match c
    case Top => true
    case InDict(up, d, kids, k) =>
      && CtxSeparate(up)
      && d !in CtxNodes(up)
      && (forall j | j in kids && j != k :: Separate(kids[j]) && Nodes(kids[j]) !! CtxNodes(up) && d !in Nodes(kids[j]))
      && (forall i, j | i in kids && j in kids && i != k && j != k && i != j :: Nodes(kids[i]) !! Nodes(kids[j]))
    case InList(up, l, elems, i) =>
      && CtxSeparate(up)
      && l !in CtxNodes(up)
      && (forall j | 0 <= j < |elems| && j != i ::
            Separate(elems[j]) && Nodes(elems[j]) !! CtxNodes(up) && l !in Nodes(elems[j]))
      && (forall j, k | 0 <= j < k < |elems| && j != i && k != i :: Nodes(elems[j]) !! Nodes(elems[k]))
  }

  ghost function Fill(c: Ctx, t: Tree): Tree {
    match c
    case Top => t
    case InDict(up, d, kids, k) => Fill(up, DictNode(d, kids[k := t]))
    case InList(up, l, elems, i) => Fill(up, ListNode(l, if i < |elems| then elems[i := t] else elems))
  }

  ghost function FillVal(c: Ctx, v: Value): Value {
    match c
    case Top => v
    case InDict(up, _, kids, k) => FillVal(up, Dict((map j | j in kids :: Val(kids[j]))[k := v]))
    case InList(up, _, elems, i) =>
      FillVal(up, List(seq(|elems|, j requires 0 <= j < |elems| => if j == i then v else Val(elems[j]))))
  }

  /** The cursor: a tree in its context, held by the heap. */
  ghost predicate At(c: Ctx, root: Ref, hole: Ref, t: Tree)
    reads CtxNodes(c), Nodes(t)
  {
    && Around(c, root, hole) && Rep(hole, t)
    && CtxSeparate(c) && Separate(t) && CtxNodes(c) !! Nodes(t)
  }

  ghost predicate Holds(root: Ref, t: Tree)
    reads Nodes(t)
  {
    Rep(root, t) && Separate(t)
  }

  /** Closing a context around its hole gives a document again. */
  lemma {:induction false} Close(c: Ctx, root: Ref, hole: Ref, t: Tree)
    requires At(c, root, hole, t)
    ensures Holds(root, Fill(c, t))
    ensures Nodes(Fill(c, t)) == CtxNodes(c) + Nodes(t)
    ensures Val(Fill(c, t)) == FillVal(c, Val(t))
    decreases c
  {
    match c
    case Top =>
    case InDict(up, d, kids, k) =>
      CloseDict(c, root, hole, t);
      Close(up, root, DictRef(d), DictNode(d, kids[k := t]));
    case InList(up, l, elems, i) =>
      CloseList(c, root, hole, t);
      Close(up, root, ListRef(l), ListNode(l, elems[i := t]));
  }

  /** Splitting the objects of a dictionary at one entry. */
  lemma SplitDict(d: PyDict, kids: map<string, Tree>, k: string)
    requires k in kids
    ensures Nodes(DictNode(d, kids)) == Nodes(DictNode(d, kids - {k})) + Nodes(kids[k])
    ensures forall j | j in kids && j != k :: Nodes(kids[j]) <= Below(DictNode(d, kids - {k}))
    ensures forall o | o in Below(DictNode(d, kids - {k})) :: exists j :: j in kids && j != k && o in Nodes(kids[j])
  {
    var rest := kids - {k};
    forall j | j in kids && j != k ensures Nodes(kids[j]) <= Below(DictNode(d, rest)) {
      assert rest[j] == kids[j];
    }
    forall o | o in Below(DictNode(d, rest)) ensures exists j :: j in kids && j != k && o in Nodes(kids[j]) {
      var j :| j in rest && o in Nodes(rest[j]);
      assert o in Nodes(kids[j]);
    }
    assert forall o | o in Nodes(kids[k]) :: o in Below(DictNode(d, kids));
  }

  lemma CloseDict(c: Ctx, root: Ref, hole: Ref, t: Tree)
    requires c.InDict? && At(c, root, hole, t)
    ensures var node := DictNode(c.d, c.kids[c.k := t]);
            && At(c.up, root, DictRef(c.d), node)
            && CtxNodes(c.up) + Nodes(node) == CtxNodes(c) + Nodes(t)
            && FillVal(c, Val(t)) == FillVal(c.up, Val(node))
  {
    FilledDictRep(c, root, hole, t);
    FilledDictNodes(c, t);
    FilledDictVal(c, t);
    assert CtxNodes(c.up) !! Nodes(DictNode(c.d, c.kids[c.k := t])) by {
      SplitDict(c.d, c.kids, c.k);
    }
  }

  lemma FilledDictNodes(c: Ctx, t: Tree)
    requires c.InDict? && c.k in c.kids
    ensures CtxNodes(c.up) + Nodes(DictNode(c.d, c.kids[c.k := t])) == CtxNodes(c) + Nodes(t)
    ensures Nodes(DictNode(c.d, c.kids[c.k := t])) == Nodes(DictNode(c.d, c.kids - {c.k})) + Nodes(t)
  {
    var kids := c.kids[c.k := t];
    assert kids - {c.k} == c.kids - {c.k};
    SplitDict(c.d, kids, c.k);
  }

  lemma FilledDictVal(c: Ctx, t: Tree)
    requires c.InDict? && c.k in c.kids
    ensures FillVal(c, Val(t)) == FillVal(c.up, Val(DictNode(c.d, c.kids[c.k := t])))
  {
    var kids := c.kids[c.k := t];
    assert (map j | j in c.kids :: Val(c.kids[j]))[c.k := Val(t)] == map j | j in kids :: Val(kids[j]);
  }

  lemma FilledDictRep(c: Ctx, root: Ref, hole: Ref, t: Tree)
    requires c.InDict? && At(c, root, hole, t)
    ensures Holds(DictRef(c.d), DictNode(c.d, c.kids[c.k := t]))
  {
    var kids := c.kids[c.k := t];
    forall j | j in kids ensures Rep(c.d.entries[j], kids[j]) {
      if j != c.k {
        assert j in c.kids - {c.k};
      }
    }
    FilledDictSeparate(c, t);
  }

  lemma FilledDictSeparate(c: Ctx, t: Tree)
    requires c.InDict? && c.k in c.kids && CtxSeparate(c) && Separate(t) && CtxNodes(c) !! Nodes(t)
    ensures Separate(DictNode(c.d, c.kids[c.k := t]))
  {
    var kids := c.kids[c.k := t];
    assert kids - {c.k} == c.kids - {c.k};
    SplitDict(c.d, kids, c.k);
    assert c.d !in Nodes(t);
  }

  lemma CloseList(c: Ctx, root: Ref, hole: Ref, t: Tree)
    requires c.InList? && At(c, root, hole, t)
    ensures var node := ListNode(c.l, c.elems[c.i := t]);
            && At(c.up, root, ListRef(c.l), node)
            && CtxNodes(c.up) + Nodes(node) == CtxNodes(c) + Nodes(t)
            && FillVal(c, Val(t)) == FillVal(c.up, Val(node))
  {
    FilledListNodes(c, t);
    FilledListRep(c, root, hole, t);
    FilledListVal(c, t);
    assert CtxNodes(c.up) !! Nodes(ListNode(c.l, c.elems[c.i := t])) by {
      assert CtxNodes(c.up) !! Nodes(t);
      assert CtxNodes(c.up) !! Others(c.elems, c.i);
    }
  }

  /** The objects of all elements but one. */
  ghost function Others(elems: seq<Tree>, i: nat): set<object> {
    set j, o | 0 <= j < |elems| && j != i && o in Nodes(elems[j]) :: o
  }

  lemma FilledListNodes(c: Ctx, t: Tree)
    requires c.InList? && c.i < |c.elems|
    ensures Nodes(ListNode(c.l, c.elems[c.i := t])) == {c.l} + Others(c.elems, c.i) + Nodes(t)
    ensures CtxNodes(c.up) + Nodes(ListNode(c.l, c.elems[c.i := t])) == CtxNodes(c) + Nodes(t)
  {
    var elems := c.elems[c.i := t];
    var node := ListNode(c.l, elems);
    forall o | o in Others(c.elems, c.i) + Nodes(t) ensures o in Below(node) {
      if o in Nodes(t) {
        assert elems[c.i] == t;
      } else {
        var j :| 0 <= j < |c.elems| && j != c.i && o in Nodes(c.elems[j]);
        assert elems[j] == c.elems[j];
      }
    }
  }

  lemma FilledListRep(c: Ctx, root: Ref, hole: Ref, t: Tree)
    requires c.InList? && At(c, root, hole, t)
    ensures Holds(ListRef(c.l), ListNode(c.l, c.elems[c.i := t]))
  {
    FilledListNodes(c, t);
    assert c.l !in Nodes(t);
    forall j | 0 <= j < |c.elems| && j != c.i ensures Nodes(c.elems[j]) <= CtxNodes(c) {
    }
  }

  lemma FilledListVal(c: Ctx, t: Tree)
    requires c.InList? && c.i < |c.elems|
    ensures FillVal(c, Val(t)) == FillVal(c.up, Val(ListNode(c.l, c.elems[c.i := t])))
  {
    var elems := c.elems[c.i := t];
    assert seq(|c.elems|, j requires 0 <= j < |c.elems| => if j == c.i then Val(t) else Val(c.elems[j]))
        == seq(|elems|, j requires 0 <= j < |elems| => Val(elems[j]));
  }

  /** Moving the cursor down to an entry. */
  lemma Enter(c: Ctx, root: Ref, hole: Ref, t: Tree, k: string)
    requires At(c, root, hole, t) && t.DictNode? && k in t.kids
    ensures var c' := InDict(c, t.d, t.kids, k);
            && At(c', root, t.d.entries[k], t.kids[k])
            && CtxNodes(c') + Nodes(t.kids[k]) == CtxNodes(c) + Nodes(t)
            && forall x :: FillVal(c', x) == FillVal(c, Dict(Val(t).entries[k := x]))
  {
    var c' := InDict(c, t.d, t.kids, k);
    SplitDict(t.d, t.kids, k);
    assert Val(t).entries == map j | j in t.kids :: Val(t.kids[j]);
  }

  lemma EnterList(c: Ctx, root: Ref, hole: Ref, t: Tree, i: nat)
    requires At(c, root, hole, t) && t.ListNode? && i < |t.elems|
    ensures var c' := InList(c, t.l, t.elems, i);
            && At(c', root, t.l.items[i], t.elems[i])
            && CtxNodes(c') + Nodes(t.elems[i]) == CtxNodes(c) + Nodes(t)
            && forall x :: FillVal(c', x) == FillVal(c, List(Val(t).items[i := x]))
  {
    var c' := InList(c, t.l, t.elems, i);
    forall j | 0 <= j < |t.elems| ensures Nodes(t.elems[j]) <= Below(t) {
    }
    forall x ensures FillVal(c', x) == FillVal(c, List(Val(t).items[i := x])) {
      assert seq(|t.elems|, j requires 0 <= j < |t.elems| => if j == i then x else Val(t.elems[j]))
          == Val(t).items[i := x];
    }
  }

  // ---------- Changing one entry of a shape ----------

  lemma SetEntryShape(d: PyDict, kids: map<string, Tree>, k: string, kid: Tree)
    requires Separate(DictNode(d, kids)) && Separate(kid) && Nodes(kid) !! Nodes(DictNode(d, kids))
    ensures var t' := DictNode(d, kids[k := kid]);
            && Separate(t') && Nodes(t') <= Nodes(DictNode(d, kids)) + Nodes(kid)
            && Val(t') == Dict(Val(DictNode(d, kids)).entries[k := Val(kid)])
  {
    var t, t' := DictNode(d, kids), DictNode(d, kids[k := kid]);
    assert Below(t') <= Below(t) + Nodes(kid);
    assert Val(t').entries == Val(t).entries[k := Val(kid)];
  }

  lemma DeleteEntryShape(d: PyDict, kids: map<string, Tree>, k: string)
    requires Separate(DictNode(d, kids))
    ensures var t' := DictNode(d, kids - {k});
            && Separate(t') && Nodes(t') <= Nodes(DictNode(d, kids))
            && Val(t') == Dict(Val(DictNode(d, kids)).entries - {k})
  {
    var t, t' := DictNode(d, kids), DictNode(d, kids - {k});
    assert Below(t') <= Below(t);
    assert Val(t').entries == Val(t).entries - {k};
  }

  lemma AppendItemShape(l: PyList, elems: seq<Tree>, elem: Tree)
    requires Separate(ListNode(l, elems)) && Separate(elem) && Nodes(elem) !! Nodes(ListNode(l, elems))
    ensures var t' := ListNode(l, elems + [elem]);
            && Separate(t') && Nodes(t') <= Nodes(ListNode(l, elems)) + Nodes(elem)
            && Val(t') == List(Val(ListNode(l, elems)).items + [Val(elem)])
  {
    var t, t' := ListNode(l, elems), ListNode(l, elems + [elem]);
    assert Below(t') <= Below(t) + Nodes(elem);
    assert Val(t').items == Val(t).items + [Val(elem)];
  }

  lemma SetItemShape(l: PyList, elems: seq<Tree>, i: nat, elem: Tree)
    requires i < |elems|
    requires Separate(ListNode(l, elems)) && Separate(elem) && Nodes(elem) !! Nodes(ListNode(l, elems))
    ensures var t' := ListNode(l, elems[i := elem]);
            && Separate(t') && Nodes(t') <= Nodes(ListNode(l, elems)) + Nodes(elem)
            && Val(t') == List(Val(ListNode(l, elems)).items[i := Val(elem)])
  {
    var t, t' := ListNode(l, elems), ListNode(l, elems[i := elem]);
    assert Below(t') <= Below(t) + Nodes(elem);
    assert Val(t').items == Val(t).items[i := Val(elem)];
  }

  lemma DeleteItemShape(l: PyList, elems: seq<Tree>, i: nat)
    requires i < |elems| && Separate(ListNode(l, elems))
    ensures var t' := ListNode(l, RemoveAt(elems, i));
            && Separate(t') && Nodes(t') <= Nodes(ListNode(l, elems))
            && Val(t') == List(RemoveAt(Val(ListNode(l, elems)).items, i))
  {
    var rest := RemoveAt(elems, i);
    RemoveAtShifts(elems, i);
    assert Below(ListNode(l, rest)) <= Below(ListNode(l, elems)) by {
      forall o | o in Below(ListNode(l, rest)) ensures o in Below(ListNode(l, elems)) {
        var j :| 0 <= j < |rest| && o in Nodes(rest[j]);
        assert o in Nodes(elems[if j < i then j else j + 1]);
      }
    }
    DeleteItemSeparate(l, elems, i);
    DeleteItemVal(l, elems, i);
  }

  lemma RemoveAtShifts<T>(s: seq<T>, i: nat)
    requires i < |s|
    ensures |RemoveAt(s, i)| == |s| - 1
    ensures forall j | 0 <= j < |s| - 1 :: RemoveAt(s, i)[j] == s[if j < i then j else j + 1]
  {
  }

  lemma DeleteItemSeparate(l: PyList, elems: seq<Tree>, i: nat)
    requires i < |elems| && Separate(ListNode(l, elems))
    requires Below(ListNode(l, RemoveAt(elems, i))) <= Below(ListNode(l, elems))
    ensures Separate(ListNode(l, RemoveAt(elems, i)))
  {
    RemoveAtShifts(elems, i);
  }

  lemma DeleteItemVal(l: PyList, elems: seq<Tree>, i: nat)
    requires i < |elems|
    ensures Val(ListNode(l, RemoveAt(elems, i))) == List(RemoveAt(Val(ListNode(l, elems)).items, i))
  {
    RemoveAtShifts(elems, i);
    RemoveAtShifts(Val(ListNode(l, elems)).items, i);
    assert Val(ListNode(l, RemoveAt(elems, i))).items == RemoveAt(Val(ListNode(l, elems)).items, i);
  }
}
