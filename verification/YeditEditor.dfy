/**
 The Yedit class: it holds a document as objects, edits it by key, and writes it to its file.
 `put` works on a copy and swaps it in; the other methods change the objects in place.
 Every method is proved to compute what module YeditDocument says, and an exception or a
 report of no change leaves the held document as it was.
 */
module YeditEditor {
  import opened Wrappers
  import opened YeditKey
  import opened YeditDocument
  import opened PyHeap
  import opened YeditCursor
  import opened YeditLaws
  import opened YeditEdits

  class Yedit {
    var yamlDict: Ref
    var separator: string
    /** What `write` has put into the file. */
    var file: Value
    ghost var tree: Tree

    ghost predicate Valid()
      reads this, Nodes(tree)
    {
      Holds(yamlDict, tree) && this !in Nodes(tree)
    }

    /** The held document. */
    ghost function Doc(): Value
      reads this
    {
      Val(tree)
    }

    constructor (file: Value, separator: string)
      ensures Valid() && Doc() == file && this.file == file && this.separator == separator && fresh(Nodes(tree))
    {
      var r, t := Build(file);
      this.file, this.separator := file, separator;
      yamlDict, tree := r, t;
      new;
      NodesAreContainers(tree);
      assert Rep(yamlDict, tree);
    }

    method Get(key: string) returns (r: Result<Value>)
      requires Valid()
      ensures r == YeditDocument.Get(Doc(), key, separator)
    {
      var entry, c, cur := GetEntry(yamlDict, key, separator, tree);
      if entry.Raise? {
        return Raise(entry.error);
      }
      if entry.value == Atom(Null) {
        return Ok(Null);
      }
      ReadIsVal(entry.value, cur);
      return Ok(Read(entry.value, cur));
    }

    /** `put`. No object of the held document is written, whatever happens. */
    method Put(key: string, value: Value) returns (r: Result<bool>)
      requires Valid()
      modifies this`yamlDict, this`tree
      ensures Valid() && forall o | o in Nodes(tree) :: o in old(Nodes(tree)) || fresh(o)
      ensures match YeditDocument.Put(old(Doc()), key, value, separator)
              case Raise(e) => r == Raise(e) && tree == old(tree) && yamlDict == old(yamlDict)
              case Ok(c) =>
                && r == Ok(c.changed) && Doc() == c.doc
                && (!c.changed ==> tree == old(tree) && yamlDict == old(yamlDict))
    {
      assert allocated(Nodes(tree));
      var entry := Get(key);
      assert Holds(yamlDict, tree);
      if entry.Raise? {
        return Raise(entry.error);
      }
      if entry.value == value {
        return Ok(false);
      }
      if key == "" {
        r := PutRoot(value);
        return;
      }
      if !ValidKey(key) && !yamlDict.Atom? {
        return Ok(false);
      }
      var path := ParseKey(key, separator);
      if path == [] {
        return Raise(IndexError);
      }
      var copy, tree', added := AddToCopy(path, value);
      if added.Raise? {
        return Raise(added.error);
      }
      NodesAreContainers(tree');
      yamlDict, tree := copy, tree';
      return Ok(true);
    }

    method PutRoot(value: Value) returns (r: Result<bool>)
      requires Valid()
      modifies this`yamlDict, this`tree
      ensures Valid() && forall o | o in Nodes(tree) :: o in old(Nodes(tree)) || fresh(o)
      ensures r == Ok(IsContainer(value))
      ensures if r.value then Doc() == value else tree == old(tree) && yamlDict == old(yamlDict)
    {
      assert allocated(Nodes(tree));
      var item, it := Build(value);
      assert Holds(yamlDict, tree);
      NodesAreContainers(it);
      if !item.Atom? {
        yamlDict, tree := item, it;
        return Ok(true);
      }
      return Ok(false);
    }

    /** `tmp_copy` with the value added; the document itself only gives its value to the copy. */
    method AddToCopy(path: seq<Segment>, value: Value) returns (copy: Ref, ghost t: Tree, r: Result<Ref>)
      requires Valid() && path != []
      ensures match AddPath(Doc(), path, value)
              case Raise(e) => r == Raise(e)
              case Ok(v) => r.Ok? && Holds(copy, t) && Val(t) == v
      ensures r.Ok? ==> fresh(Nodes(t))
    {
      ReadIsVal(yamlDict, tree);
      copy, t := Build(Read(yamlDict, tree));
      assert allocated(Nodes(t));
      var item, it := Build(value);
      assert Nodes(t) !! Nodes(it);
      assert Rep(copy, t);
      r, t := AddEntry(copy, path, item, t, it);
    }

    /** `append`. */
    method Append(key: string, value: Value) returns (r: Result<bool>)
      requires Valid()
      modifies this`yamlDict, this`tree, Nodes(tree)
      ensures Valid() && forall o | o in Nodes(tree) :: o in old(Nodes(tree)) || fresh(o)
      ensures Agrees(r, old(Doc()), Doc(), YeditDocument.Append(old(Doc()), key, value, separator))
    {
      assert allocated(Nodes(tree));
      var entry, c, cur := GetEntry(yamlDict, key, separator, tree);
      assert Holds(yamlDict, tree);
      if entry.Raise? {
        return Raise(entry.error);
      }
      if entry.value == Atom(Null) {
        r := AppendMissing(key, value);
      } else {
        r := AppendFound(key, entry.value, c, cur, value);
      }
    }

    /** `append` where nothing is found: an empty list is put first. */
    method AppendMissing(key: string, value: Value) returns (r: Result<bool>)
      requires Valid() && YeditDocument.Get(Doc(), key, separator) == Ok(Null)
      modifies this`yamlDict, this`tree, Nodes(tree)
      ensures Valid() && forall o | o in Nodes(tree) :: o in old(Nodes(tree)) || fresh(o)
      ensures Agrees(r, old(Doc()), Doc(), YeditDocument.Append(old(Doc()), key, value, separator))
    {
      var put := Put(key, Value.List([]));
      if put.Raise? {
        return put;
      }
      if put.value {
        PutGet(old(Doc()), key, Value.List([]), separator);
      }
      assert allocated(Nodes(tree));
      var entry, c, cur := GetEntry(yamlDict, key, separator, tree);
      assert Holds(yamlDict, tree);
      r := AppendFound(key, entry.value, c, cur, value);
    }

    method AppendFound(ghost key: string, entry: Ref, ghost c: Ctx, ghost cur: Tree, value: Value)
      returns (r: Result<bool>)
      requires Valid() && Found(key, entry, c, cur)
      modifies this`tree, Nodes(tree)
      ensures Valid() && forall o | o in Nodes(tree) :: o in old(Nodes(tree)) || fresh(o)
      ensures Agrees(r, old(Doc()), Doc(),
                     Ok(AppendTo(old(Doc()), ParseKey(key, separator), FoundValue(entry, cur), value)))
    {
      if !entry.ListRef? {
        return Ok(false);
      }
      ghost var cur' := BuildItem(c, yamlDict, entry.l, cur, value);
      Settle(key, entry, c, Val(cur), cur');
      return Ok(true);
    }

    /** `update`. */
    method Update(key: string, value: Value, index: Option<int>, current: Value) returns (r: Result<bool>)
      requires Valid()
      modifies this`tree, Nodes(tree)
      ensures Valid() && forall o | o in Nodes(tree) :: o in old(Nodes(tree)) || fresh(o)
      ensures Agrees(r, old(Doc()), Doc(), UpdateEntry(old(Doc()), key, value, index, current, separator))
    {
      assert allocated(Nodes(tree));
      var entry, c, cur := GetEntry(yamlDict, key, separator, tree);
      assert Holds(yamlDict, tree);
      if entry.Raise? {
        return Raise(entry.error);
      }
      assert UpdateEntry(Doc(), key, value, index, current, separator)
          == UpdateAt(Doc(), ParseKey(key, separator), FoundValue(entry.value, cur), value, index, current);
      match entry.value {
        case DictRef(d) =>
          if !value.Dict? {
            return Raise(YeditException);
          }
          MergeFound(key, d, c, cur, value);
          return Ok(true);
        case ListRef(l) => r := UpdateFound(key, l, c, cur, value, index, current);
        case Atom(_) => return Ok(false);
      }
    }

    /** The list branch of `update`. */
    method UpdateFound(ghost key: string, l: PyList, ghost c: Ctx, ghost cur: Tree,
                       value: Value, index: Option<int>, current: Value) returns (r: Result<bool>)
      requires Valid() && Found(key, ListRef(l), c, cur)
      modifies this`tree, Nodes(tree)
      ensures Valid() && forall o | o in Nodes(tree) :: o in old(Nodes(tree)) || fresh(o)
      ensures Agrees(r, old(Doc()), Doc(),
                     UpdateAt(old(Doc()), ParseKey(key, separator), Val(cur), value, index, current))
    {
      var items := ItemsOf(l, cur);
      var slot := FindSlot(items, value, index, current);
      if slot.Raise? {
        return Raise(slot.error);
      }
      if slot.value.None? {
        return Ok(false);
      }
      ghost var spec := UpdateAt(Doc(), ParseKey(key, separator), Val(cur), value, index, current);
      assert spec == Ok(Change(true, YeditDocument.Update(Doc(), ParseKey(key, separator),
        List(if slot.value.value < |items| then items[slot.value.value := value] else items + [value]))));
      WriteFound(key, l, c, cur, slot.value.value, value);
      return Ok(true);
    }

    /** The dictionary branch of `update`. */
    method MergeFound(ghost key: string, d: PyDict, ghost c: Ctx, ghost cur: Tree, value: Value)
      requires Valid() && Found(key, DictRef(d), c, cur) && value.Dict?
      modifies this`tree, Nodes(tree)
      ensures Valid() && forall o | o in Nodes(tree) :: o in old(Nodes(tree)) || fresh(o)
      ensures Val(cur).Dict?
      ensures Doc() == YeditDocument.Update(old(Doc()), ParseKey(key, separator),
                                            Dict(Val(cur).entries + value.entries))
    {
      ghost var cur' := BuildEntries(c, yamlDict, d, cur, value);
      Settle(key, DictRef(d), c, Val(cur), cur');
    }

    /** The write of the list branch of `update`. */
    method WriteFound(ghost key: string, l: PyList, ghost c: Ctx, ghost cur: Tree, slot: nat, value: Value)
      requires Valid() && Found(key, ListRef(l), c, cur) && cur.ListNode? && slot <= |Val(cur).items|
      modifies this`tree, Nodes(tree)
      ensures Valid() && forall o | o in Nodes(tree) :: o in old(Nodes(tree)) || fresh(o)
      ensures var items := Val(cur).items;
              Doc() == YeditDocument.Update(old(Doc()), ParseKey(key, separator),
                                            List(if slot < |items| then items[slot := value] else items + [value]))
    {
      ghost var cur' := BuildOverItem(c, yamlDict, l, cur, slot, value);
      Settle(key, ListRef(l), c, Val(cur), cur');
    }

    /** Where the list branch of `update` writes: over an item, past the end, or nowhere. */
    static function FindSlot(items: seq<Value>, value: Value, index: Option<int>, current: Value)
      : (r: Result<Option<nat>>)
      ensures match UpdateItems(items, value, index, current)
              case Raise(e) => r == Raise(e)
              case Ok(None) => r == Ok(None)
              case Ok(Some(s)) =>
                && r.Ok? && r.value.Some? && r.value.value <= |items|
                && s == if r.value.value < |items| then items[r.value.value := value] else items + [value]
    {
      if Truthy(current) && current !in items then Ok(None)
      else if !Truthy(current) && index.Some? && !(-|items| <= index.value < |items|) then Raise(IndexError)
      else
        var ind: Option<nat> :=
          if Truthy(current) then Some(FirstIndex(items, current))
          else if index.Some? then Some(Slot(|items|, index.value))
          else None;
        if ind.Some? && items[ind.value] != value then Ok(ind)
        else if value !in items then Ok(Some(|items|))
        else Ok(None)
    }

    /** `pop`. */
    method Pop(key: string, item: Value) returns (r: Result<bool>)
      requires Valid()
      modifies this`tree, Nodes(tree)
      ensures Valid() && forall o | o in Nodes(tree) :: o in old(Nodes(tree)) || fresh(o)
      ensures Agrees(r, old(Doc()), Doc(), YeditDocument.Pop(old(Doc()), key, item, separator))
    {
      assert allocated(Nodes(tree));
      var entry, c, cur := GetEntry(yamlDict, key, separator, tree);
      assert Holds(yamlDict, tree);
      if entry.Raise? {
        return Raise(entry.error);
      }
      assert YeditDocument.Pop(Doc(), key, item, separator)
          == PopAt(Doc(), ParseKey(key, separator), FoundValue(entry.value, cur), item);
      match entry.value {
        case DictRef(d) => r := PopKey(key, d, c, cur, item);
        case ListRef(l) => r := PopItem(key, l, c, cur, item);
        case Atom(_) => return Ok(false);
      }
    }

    method PopKey(ghost key: string, d: PyDict, ghost c: Ctx, ghost cur: Tree, item: Value) returns (r: Result<bool>)
      requires Valid() && Found(key, DictRef(d), c, cur)
      modifies this`tree, Nodes(tree)
      ensures Valid() && forall o | o in Nodes(tree) :: o in old(Nodes(tree))
      ensures Agrees(r, old(Doc()), Doc(), PopAt(old(Doc()), ParseKey(key, separator), Val(cur), item))
    {
      ghost var spec := PopAt(Doc(), ParseKey(key, separator), Val(cur), item);
      if !Hashable(item) {
        return Raise(TypeError);
      }
      if !(item.Str? && item.s in d.entries) {
        return Ok(false);
      }
      assert spec == Ok(Change(true,
        YeditDocument.Update(Doc(), ParseKey(key, separator), Dict(Val(cur).entries - {item.s}))));
      ghost var cur' := DeleteEntry(c, yamlDict, d, cur, item.s);
      Settle(key, DictRef(d), c, Val(cur), cur');
      return Ok(true);
    }

    method PopItem(ghost key: string, l: PyList, ghost c: Ctx, ghost cur: Tree, item: Value) returns (r: Result<bool>)
      requires Valid() && Found(key, ListRef(l), c, cur)
      modifies this`tree, Nodes(tree)
      ensures Valid() && forall o | o in Nodes(tree) :: o in old(Nodes(tree))
      ensures Agrees(r, old(Doc()), Doc(), PopAt(old(Doc()), ParseKey(key, separator), Val(cur), item))
    {
      ghost var spec := PopAt(Doc(), ParseKey(key, separator), Val(cur), item);
      var i := IndexOf(l, cur, item);
      if i.None? {
        return Ok(false);
      }
      assert spec == Ok(Change(true,
        YeditDocument.Update(Doc(), ParseKey(key, separator), List(RemoveAt(Val(cur).items, i.value)))));
      ghost var cur' := DeleteItem(c, yamlDict, l, cur, i.value);
      Settle(key, ListRef(l), c, Val(cur), cur');
      return Ok(true);
    }

    /** `list.index`, or None where the item is not in the list. */
    static function IndexOf(l: PyList, ghost cur: Tree, item: Value): (i: Option<nat>)
      requires Rep(ListRef(l), cur)
      reads Nodes(cur)
      ensures cur.ListNode? && |Val(cur).items| == |cur.elems|
      ensures i == if item in Val(cur).items then Some(FirstIndex(Val(cur).items, item)) else None
    {
      var items := ItemsOf(l, cur);
      if item in items then Some(FirstIndex(items, item)) else None
    }

    /** The items of a list, read out. */
    static function ItemsOf(l: PyList, ghost cur: Tree): (items: seq<Value>)
      requires Rep(ListRef(l), cur)
      reads Nodes(cur)
      ensures cur.ListNode? && Val(cur) == List(items) && |items| == |cur.elems|
    {
      ReadIsVal(ListRef(l), cur);
      Read(ListRef(l), cur).items
    }

    /** `delete`. */
    method Delete(key: string, index: Option<int>, value: Value) returns (r: Result<bool>)
      requires Valid()
      modifies this`tree, Nodes(tree)
      ensures Valid() && forall o | o in Nodes(tree) :: o in old(Nodes(tree)) || fresh(o)
      ensures Agrees(r, old(Doc()), Doc(), YeditDocument.Delete(old(Doc()), key, index, value, separator))
    {
      assert allocated(Nodes(tree));
      var entry, c, cur := GetEntry(yamlDict, key, separator, tree);
      assert Holds(yamlDict, tree);
      if entry.Raise? {
        return Raise(entry.error);
      }
      if entry.value == Atom(Null) {
        return Ok(false);
      }
      var removed := Remove(key, index, value);
      if removed.Raise? {
        return Raise(removed.error);
      }
      return Ok(removed.value.Some?);
    }

    /** `remove_entry`. */
    method Remove(key: string, index: Option<int>, value: Value) returns (r: Result<Option<()>>)
      requires Valid()
      modifies this`tree, Nodes(tree)
      ensures Valid() && forall o | o in Nodes(tree) :: o in old(Nodes(tree)) || fresh(o)
      ensures Removes(r, old(Doc()), Doc(), RemoveEntry(old(Doc()), key, index, value, separator))
    {
      if key == "" && !yamlDict.Atom? {
        r := RemoveAtRoot(index, value);
      } else {
        r := RemoveByKey(key);
      }
    }

    /** `remove_entry` for a non-empty key, or for a scalar root. */
    method RemoveByKey(key: string) returns (r: Result<Option<()>>)
      requires Valid() && (key == "" ==> !IsContainer(Doc()))
      modifies this`tree, Nodes(tree)
      ensures Valid() && forall o | o in Nodes(tree) :: o in old(Nodes(tree)) || fresh(o)
      ensures Removes(r, old(Doc()), Doc(), RemoveEntry(old(Doc()), key, None, Null, separator))
    {
      if key != "" && !ValidKey(key) && !yamlDict.Atom? {
        return Ok(None);
      }
      var path := ParseKey(key, separator);
      if path == [] {
        return Raise(IndexError);
      }
      r, tree := RemoveEntryAt(yamlDict, path, tree);
    }

    /** `remove_entry` for an empty key and a dictionary or a list as root. */
    method RemoveAtRoot(index: Option<int>, value: Value) returns (r: Result<Option<()>>)
      requires Valid() && IsContainer(Doc())
      modifies this`tree, Nodes(tree)
      ensures Valid() && forall o | o in Nodes(tree) :: o in old(Nodes(tree)) || fresh(o)
      ensures Removes(r, old(Doc()), Doc(), RemoveEntry(old(Doc()), "", index, value, separator))
    {
      match yamlDict
      case DictRef(d) => r := RemoveFromRootDict(d, index, value);
      case ListRef(l) => r := RemoveFromRootList(l, index, value);
    }

    method RemoveFromRootDict(d: PyDict, index: Option<int>, value: Value) returns (r: Result<Option<()>>)
      requires Valid() && yamlDict == DictRef(d)
      modifies this`tree, Nodes(tree)
      ensures Valid() && forall o | o in Nodes(tree) :: o in old(Nodes(tree))
      ensures old(Doc()).Dict? && Removes(r, old(Doc()), Doc(), RemoveFromDict(old(Doc()).entries, index, value))
    {
      if !value.Null? {
        if !Hashable(value) {
          return Raise(TypeError);
        }
        if !(value.Str? && value.s in d.entries) {
          return Raise(KeyError);
        }
        tree := DeleteEntry(Top, yamlDict, d, tree, value.s);
      } else if index.Some? {
        return Raise(YeditException);
      } else {
        tree := ClearDict(d, tree);
      }
      return Ok(Some(()));
    }

    method RemoveFromRootList(l: PyList, index: Option<int>, value: Value) returns (r: Result<Option<()>>)
      requires Valid() && yamlDict == ListRef(l)
      modifies this`tree, Nodes(tree)
      ensures Valid() && forall o | o in Nodes(tree) :: o in old(Nodes(tree))
      ensures old(Doc()).List? && Removes(r, old(Doc()), Doc(), RemoveFromList(old(Doc()).items, index, value))
    {
      var items := ItemsOf(l, tree);
      if !value.Null? {
        if value !in items {
          return Ok(None);
        }
        tree := DeleteItem(Top, yamlDict, l, tree, FirstIndex(items, value));
      } else if index.Some? {
        if !(-|items| <= index.value < |items|) {
          return Raise(IndexError);
        }
        tree := DeleteItem(Top, yamlDict, l, tree, Slot(|items|, index.value));
      } else {
        tree := ClearList(l, tree);
      }
      return Ok(Some(()));
    }

    static ghost predicate Removes(r: Result<Option<()>>, before: Value, after: Value, spec: Result<Option<Value>>) {
      match spec
      case Raise(e) => r == Raise(e) && after == before
      case Ok(None) => r == Ok(None) && after == before
      case Ok(Some(v)) => r == Ok(Some(())) && after == v
    }

    /** `process_edits`, up to the list of results: the flag says whether any edit reported a
        change. On an exception the document holds what the earlier edits made of it. */
    method ProcessEdits(edits: seq<Edit>) returns (r: Result<bool>)
      requires Valid()
      modifies this`yamlDict, this`tree, Nodes(tree)
      ensures Valid()
      ensures match ApplyAll(old(Doc()), edits, separator)
              case Raise(e) => r == Raise(e) && StoppedAt(old(Doc()), Doc(), edits, separator)
              case Ok(c) => r == Ok(c.changed) && Doc() == c.doc
    {
      var changed := false;
      for i := 0 to |edits|
        invariant Valid() && forall o | o in Nodes(tree) :: o in old(Nodes(tree)) || fresh(o)
        invariant ApplyAll(old(Doc()), edits[..i], separator) == Ok(Change(changed, Doc()))
      {
        ApplyOneMore(old(Doc()), edits, i, separator);
        var rval := ProcessEdit(edits[i]);
        if rval.Raise? {
          RaiseStops(old(Doc()), edits, i + 1, separator);
          assert Fails(old(Doc()), Doc(), edits, separator, i);
          return rval;
        }
        changed := changed || rval.value;
      }
      assert edits[..|edits|] == edits;
      return Ok(changed);
    }

    /** The document is what the edits in front of number n have made, and that edit raises. */
    static ghost predicate Fails(before: Value, after: Value, edits: seq<Edit>, sep: string, n: nat) {
      n < |edits| && ApplyAll(before, edits[..n], sep).Ok?
      && ApplyAll(before, edits[..n], sep).value.doc == after && Apply(after, edits[n], sep).Raise?
    }

    static ghost predicate StoppedAt(before: Value, after: Value, edits: seq<Edit>, sep: string) {
      exists n: nat :: Fails(before, after, edits, sep, n)
    }

    method ProcessEdit(edit: Edit) returns (r: Result<bool>)
      requires Valid()
      modifies this`yamlDict, this`tree, Nodes(tree)
      ensures Valid() && forall o | o in Nodes(tree) :: o in old(Nodes(tree)) || fresh(o)
      ensures Agrees(r, old(Doc()), Doc(), Apply(old(Doc()), edit, separator))
    {
      match edit {
        case UpdateEdit(key, value, index, current) => r := Update(key, value, index, current);
        case AppendEdit(key, value) => r := Append(key, value);
        case PutEdit(key, value) => r := Put(key, value);
      }
    }

    /** `write`. */
    method Write()
      requires Valid()
      modifies this`file
      ensures file == Doc()
    {
      ReadIsVal(yamlDict, tree);
      file := Read(yamlDict, tree);
    }

    /** Setting `yaml_dict` to given content. */
    method SetContent(content: Value)
      requires Valid()
      modifies this`yamlDict, this`tree
      ensures Valid() && Doc() == content && fresh(Nodes(tree))
    {
      var r, t := Build(content);
      NodesAreContainers(t);
      yamlDict, tree := r, t;
    }

    /** The document after a change at a found entry. */
    ghost method Settle(key: string, entry: Ref, c: Ctx, found: Value, cur: Tree)
      requires At(c, yamlDict, entry, cur)
      requires forall x :: FillVal(c, YeditDocument.Update(found, [], x))
                 == YeditDocument.Update(Doc(), ParseKey(key, separator), x)
      modifies this`tree
      ensures Valid() && forall o | o in Nodes(tree) :: o in CtxNodes(c) || o in Nodes(cur)
      ensures Doc() == YeditDocument.Update(old(Doc()), ParseKey(key, separator), Val(cur))
    {
      CloseFound(Doc(), ParseKey(key, separator), c, yamlDict, entry, found, cur);
      tree := Fill(c, cur);
      NodesAreContainers(tree);
    }

    /** What `get_entry` has found for a key: a place in the held document, or nothing. */
    ghost predicate Found(key: string, entry: Ref, c: Ctx, cur: Tree)
      reads this, Nodes(tree), CtxNodes(c), Nodes(cur)
    {
      entry != Atom(Null) ==> Walking(Doc(), ParseKey(key, separator), yamlDict, Nodes(tree), c, entry, cur, [])
    }

    ghost function FoundValue(entry: Ref, cur: Tree): Value {
      if entry == Atom(Null) then Null else Val(cur)
    }

    /** The outcome is the specified one; an exception leaves the document alone. */
    static ghost predicate Agrees(r: Result<bool>, before: Value, after: Value, spec: Result<Change>) {
      match spec
      case Raise(e) => r == Raise(e) && after == before
      case Ok(c) => r == Ok(c.changed) && after == c.doc
    }
  }

  /** What the object's file holds; a run without `src` has none, and `file` stands for what it does not touch. */
  function FileOf(yedit: Yedit, p: Params, file: Value): Value
    reads yedit
  {
    if p.src then yedit.file else file
  }

  /** The `present` branch of `run_ansible`: the file is written once, at the end, if at all. */
  method RunPresent(p: Params, file: Value) returns (report: Result<bool>, file': Value)
    ensures Run(report, file') == Present(p, file)
  {
    var yedit := new Yedit(Held(p, file), p.sep);
    if p.content.Some? {
      if Held(p, file) == p.content.value && p.value.None? {
        return Ok(false), FileOf(yedit, p, file);
      }
      yedit.SetContent(p.content.value);
    }
    var edits := EditsOf(p);
    if edits != [] {
      report := yedit.ProcessEdits(edits);
      if report.Ok? && report.value && p.src {
        yedit.Write();
      }
      return report, FileOf(yedit, p, file);
    }
    if p.src {
      yedit.Write();
      return Ok(true), FileOf(yedit, p, file);
    }
    return Ok(false), FileOf(yedit, p, file);
  }

  method RemoveIn(yedit: Yedit, p: Params) returns (r: Result<bool>)
    requires yedit.Valid() && yedit.separator == p.sep
    modifies yedit`tree, Nodes(yedit.tree)
    ensures yedit.Valid() && Yedit.Agrees(r, old(yedit.Doc()), yedit.Doc(), Removed(p, old(yedit.Doc())))
  {
    var value := if p.value.Some? then p.value.value else Null;
    if p.update {
      r := yedit.Pop(p.key, value);
    } else {
      r := yedit.Delete(p.key, p.index, value);
    }
  }

  /** The `absent` branch of `run_ansible`. */
  method RunAbsent(p: Params, file: Value) returns (report: Result<bool>, file': Value)
    ensures Run(report, file') == Absent(p, file)
  {
    var yedit := new Yedit(Held(p, file), p.sep);
    if Held(p, file).Null? {
      return Raise(YeditException), FileOf(yedit, p, file);
    }
    if p.content.Some? {
      yedit.SetContent(p.content.value);
    }
    report := RemoveIn(yedit, p);
    if report.Ok? && report.value && p.src {
      yedit.Write();
    }
    file' := FileOf(yedit, p, file);
  }
}
