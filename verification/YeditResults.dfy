/**
 What the editing methods leave behind, said entry by entry: which element a negative index means,
 and what `append`, `update`, `pop`, a removal at the root and a run with one value make of a document.
 */
module YeditResults {
  import opened Wrappers
  import opened YeditKey
  import opened YeditDocument
  import opened YeditLaws
  import opened YeditRemoval
  import opened YeditEdits

  // ---------- Negative indices ----------

  /** Reading, adding, removing and changing are the same along two paths. */
  predicate Alike(v: Value, p: seq<Segment>, q: seq<Segment>, x: Value)
    requires p != [] && q != []
  {
    && GetPath(v, p) == GetPath(v, q) && AddPath(v, p, x) == AddPath(v, q, x)
    && RemovePath(v, p) == RemovePath(v, q) && Update(v, p, x) == Update(v, q, x)
  }

  lemma NegativeIndexHere(items: seq<Value>, k: int, rest: seq<Segment>, x: Value)
    requires 0 < k <= |items|
    ensures Alike(List(items), [Index(-k)] + rest, [Index(|items| - k)] + rest, x)
  {
    var back, front := [Index(-k)] + rest, [Index(|items| - k)] + rest;
    assert back[1..] == rest && front[1..] == rest;
  }

  lemma AlikeBelow(v: Value, step: Segment, child: Value, p: seq<Segment>, q: seq<Segment>, x: Value)
    requires p != [] && q != [] && Alike(child, p, q, x) && Truthy(child)
    requires match step
             case Key(k) => v.Dict? && k in v.entries && v.entries[k] == child
             case Index(i) => v.List? && -|v.items| <= i < |v.items| && v.items[Slot(|v.items|, i)] == child
    ensures Alike(v, [step] + p, [step] + q, x)
  {
    assert ([step] + p)[1..] == p && ([step] + q)[1..] == q;
  }

  /** On the list of a path's end, index -k is the k-th element from the back: reading, adding,
      removing and changing there are the same at both indices, at any depth and whatever follows. */
  lemma {:induction false} NegativeIndex(v: Value, path: seq<Segment>, items: seq<Value>, k: int, rest: seq<Segment>,
                                         x: Value)
    requires GetPath(v, path) == Ok(List(items)) && 0 < k <= |items|
    ensures Alike(v, path + ([Index(-k)] + rest), path + ([Index(|items| - k)] + rest), x)
    decreases |path|
  {
    var back, front := [Index(-k)] + rest, [Index(|items| - k)] + rest;
    if path == [] {
      NegativeIndexHere(items, k, rest, x);
      assert path + back == back && path + front == front;
    } else {
      var child := if path[0].Key? then v.entries[path[0].k] else v.items[Slot(|v.items|, path[0].i)];
      NegativeIndex(child, path[1..], items, k, rest, x);
      if |path| > 1 {
        FoundIsTruthy(child, path[1..]);
      }
      AlikeBelow(v, path[0], child, path[1..] + back, path[1..] + front, x);
      assert path + back == [path[0]] + (path[1..] + back) && path + front == [path[0]] + (path[1..] + front);
    }
  }

  /** An index from the front means the element at that place, and `get` returns it. */
  lemma IndexFromFront(v: Value, path: seq<Segment>, items: seq<Value>, i: nat)
    requires GetPath(v, path) == Ok(List(items))
    ensures GetPath(v, path + [Index(i)]) == Ok(if i < |items| then items[i] else Null)
  {
    GetComposes(v, path, [Index(i)]);
    assert [Index(i)][1..] == [];
  }

  /** What is no dictionary has no entries, and what is no list has no elements. */
  lemma NothingBelow(v: Value, path: seq<Segment>, found: Value, step: Segment)
    requires GetPath(v, path) == Ok(found)
    requires match step case Key(k) => found.Dict? ==> k !in found.entries case Index(_) => !found.List?
    ensures GetPath(v, path + [step]) == Ok(Null)
  {
    GetComposes(v, path, [step]);
    assert [step][1..] == [];
  }

  /** An entry of a dictionary is found under its key. */
  lemma EntryUnderKey(v: Value, path: seq<Segment>, entries: map<string, Value>, k: string)
    requires GetPath(v, path) == Ok(Dict(entries)) && k in entries
    ensures GetPath(v, path + [Key(k)]) == Ok(entries[k])
  {
    GetComposes(v, path, [Key(k)]);
    assert [Key(k)][1..] == [];
  }

  /** The falsy values, which `add_entry` takes as absent. */
  lemma FalsyValues(v: Value)
    ensures !Truthy(v) <==> v in {Null, Bool(false), Int(0), Str(""), List([]), Dict(map[])}
  {
  }

  /** A put at the empty key replaces the document, by a list or a dictionary only. */
  lemma PutAtRoot(doc: Value, value: Value, sep: string)
    ensures Put(doc, "", value, sep)
         == Ok(if value != doc && (value.List? || value.Dict?) then Change(true, value) else Change(false, doc))
  {
  }

  // ---------- Append ----------

  /** To a list that is found the value is appended as its last element. */
  lemma AppendToList(doc: Value, key: string, items: seq<Value>, value: Value, sep: string)
    requires Get(doc, key, sep) == Ok(List(items))
    ensures var r := Append(doc, key, value, sep);
            r.Ok? && r.value.changed && Get(r.value.doc, key, sep) == Ok(List(items + [value]))
  {
    AppendIsFound(doc, ParseKey(key, sep), List(items), value);
  }

  /** Where nothing is found, a list of the value alone is made, if a list can be put there; if that
      put does nothing, neither does `append`. */
  lemma AppendToNothing(doc: Value, key: string, value: Value, sep: string)
    requires Get(doc, key, sep) == Ok(Null)
    ensures var put, r := Put(doc, key, List([]), sep), Append(doc, key, value, sep);
            && (put.Raise? ==> r == Raise(put.error))
            && (put.Ok? && !put.value.changed ==> r == Ok(Change(false, doc)))
            && (put.Ok? && put.value.changed ==>
                  r.Ok? && r.value.changed && Get(r.value.doc, key, sep) == Ok(List([value])))
  {
    var put := Put(doc, key, List([]), sep);
    if put.Ok? && put.value.changed {
      PutGet(doc, key, List([]), sep);
      ListIsPut(doc, key, sep);
      AppendIsFound(put.value.doc, ParseKey(key, sep), List([]), value);
      assert [] + [value] == [value];
    }
  }

  /** What is found and is no list stays. */
  lemma AppendToOther(doc: Value, key: string, found: Value, value: Value, sep: string)
    requires Get(doc, key, sep) == Ok(found) && !found.Null? && !found.List?
    ensures Append(doc, key, value, sep) == Ok(Change(false, doc))
  {
  }

  // ---------- Frames ----------

  /** No edit that completes, of whichever kind, is seen at a key whose path parts from its own. */
  lemma EditFrame(doc: Value, edit: Edit, other: string, sep: string)
    requires Apply(doc, edit, sep).Ok?
    requires var p, q := ParseKey(edit.key, sep), ParseKey(other, sep);
             Diverge(p, q) && NonNegative(p) && NonNegative(q)
    ensures Get(Apply(doc, edit, sep).value.doc, other, sep) == Get(doc, other, sep)
  {
    match edit
    case PutEdit(key, value) => PutFrame(doc, key, value, other, sep);
    case AppendEdit(key, value) => AppendFrame(doc, key, value, other, sep);
    case UpdateEdit(_, _, _, _) => UpdateEditFrame(doc, edit, other, sep);
  }

  lemma UpdateEditFrame(doc: Value, edit: Edit, other: string, sep: string)
    requires edit.UpdateEdit? && Apply(doc, edit, sep).Ok?
    requires var p, q := ParseKey(edit.key, sep), ParseKey(other, sep);
             Diverge(p, q) && NonNegative(p) && NonNegative(q)
    ensures Get(Apply(doc, edit, sep).value.doc, other, sep) == Get(doc, other, sep)
  {
    var after := Apply(doc, edit, sep).value;
    if after.changed {
      ChangeIsUpdate(doc, edit, sep);
      InPlaceFrame(doc, edit.key, Get(after.doc, edit.key, sep).value, other, sep);
    } else {
      NoChangeNoEffect(doc, edit, sep);
    }
  }

  /** A change in place at one key, seen from another. */
  lemma InPlaceFrame(doc: Value, key: string, x: Value, other: string, sep: string)
    requires var p, q := ParseKey(key, sep), ParseKey(other, sep); Diverge(p, q) && NonNegative(p) && NonNegative(q)
    ensures Get(Update(doc, ParseKey(key, sep), x), other, sep) == Get(doc, other, sep)
  {
    UpdateFrame(doc, ParseKey(key, sep), x, ParseKey(other, sep));
    assert IsContainer(Update(doc, ParseKey(key, sep), x)) == IsContainer(doc);
  }

  lemma AppendToFrame(doc: Value, key: string, entry: Value, value: Value, other: string, sep: string)
    requires var p, q := ParseKey(key, sep), ParseKey(other, sep); Diverge(p, q) && NonNegative(p) && NonNegative(q)
    ensures Get(AppendTo(doc, ParseKey(key, sep), entry, value).doc, other, sep) == Get(doc, other, sep)
  {
    if entry.List? {
      InPlaceFrame(doc, key, List(entry.items + [value]), other, sep);
    }
  }

  lemma AppendFrame(doc: Value, key: string, value: Value, other: string, sep: string)
    requires Append(doc, key, value, sep).Ok?
    requires var p, q := ParseKey(key, sep), ParseKey(other, sep); Diverge(p, q) && NonNegative(p) && NonNegative(q)
    ensures Get(Append(doc, key, value, sep).value.doc, other, sep) == Get(doc, other, sep)
  {
    if Get(doc, key, sep).value.Null? {
      PutFrame(doc, key, List([]), other, sep);
      var put := Put(doc, key, List([]), sep).value;
      AppendToFrame(put.doc, key, Get(put.doc, key, sep).value, value, other, sep);
    } else {
      AppendToFrame(doc, key, Get(doc, key, sep).value, value, other, sep);
    }
  }

  lemma ChangeIsUpdate(doc: Value, edit: Edit, sep: string)
    requires edit.UpdateEdit? && Apply(doc, edit, sep).Ok? && Apply(doc, edit, sep).value.changed
    ensures var after := Apply(doc, edit, sep).value.doc;
            && Get(after, edit.key, sep).Ok?
            && after == Update(doc, ParseKey(edit.key, sep), Get(after, edit.key, sep).value)
  {
    var path, entry := ParseKey(edit.key, sep), Get(doc, edit.key, sep).value;
    if entry.Dict? {
      GetAfterUpdate(doc, path, Dict(entry.entries + edit.value.entries));
    } else {
      GetAfterUpdate(doc, path, List(UpdateItems(entry.items, edit.value, edit.index, edit.current).value.value));
    }
  }

  // ---------- Update ----------

  lemma {:induction false} FirstIndexIs(items: seq<Value>, x: Value, i: nat)
    requires i < |items| && items[i] == x && forall j | 0 <= j < i :: items[j] != x
    ensures FirstIndex(items, x) == i
    decreases i
  {
    if i > 0 {
      FirstIndexIs(items[1..], x, i - 1);
    }
  }

  /** Into a dictionary a dictionary is merged: its entries win, the others stay. Anything else raises. */
  lemma UpdateMerges(doc: Value, edit: Edit, entries: map<string, Value>, sep: string)
    requires edit.UpdateEdit? && Get(doc, edit.key, sep) == Ok(Dict(entries))
    ensures !edit.value.Dict? ==> Apply(doc, edit, sep) == Raise(YeditException)
    ensures edit.value.Dict? ==>
              var r := Apply(doc, edit, sep);
              && r.Ok? && r.value.changed && Get(r.value.doc, edit.key, sep).Ok?
              && var found := Get(r.value.doc, edit.key, sep).value;
                 && found.Dict? && found.entries.Keys == entries.Keys + edit.value.entries.Keys
                 && forall k | k in found.entries ::
                      found.entries[k] == if k in edit.value.entries then edit.value.entries[k] else entries[k]
  {
    if edit.value.Dict? {
      GetAfterUpdate(doc, ParseKey(edit.key, sep), Dict(entries + edit.value.entries));
    }
  }

  /** A list that is found holds afterwards what its items become. */
  lemma UpdateOfList(doc: Value, edit: Edit, items: seq<Value>, sep: string)
    requires edit.UpdateEdit? && Get(doc, edit.key, sep) == Ok(List(items))
    ensures var become, r := UpdateItems(items, edit.value, edit.index, edit.current), Apply(doc, edit, sep);
            if become.Raise? then r == Raise(become.error)
            else if become.value.None? then r == Ok(Change(false, doc))
            else r.Ok? && r.value.changed && Get(r.value.doc, edit.key, sep) == Ok(List(become.value.value))
  {
    var become := UpdateItems(items, edit.value, edit.index, edit.current);
    if become.Ok? && become.value.Some? {
      GetAfterUpdate(doc, ParseKey(edit.key, sep), List(become.value.value));
    }
  }

  /** With a current value the first element equal to it becomes the new value, whatever index is given. */
  lemma UpdateReplacesFirst(items: seq<Value>, value: Value, index: Option<int>, current: Value, i: nat)
    requires Truthy(current) && current != value
    requires i < |items| && items[i] == current && forall j | 0 <= j < i :: items[j] != current
    ensures UpdateItems(items, value, index, current) == Ok(Some(items[..i] + [value] + items[i + 1..]))
  {
    FirstIndexIs(items, current, i);
    assert items[i := value] == items[..i] + [value] + items[i + 1..];
  }

  /** With an index and no current value the element at the index becomes the new value; -k counts
      from the back, and what is out of range raises. */
  lemma UpdateAtIndex(items: seq<Value>, value: Value, i: int, current: Value)
    requires !Truthy(current)
    ensures 0 <= i < |items| ==>
              UpdateItems(items, value, Some(i), current)
              == Ok(if items[i] == value then None else Some(items[..i] + [value] + items[i + 1..]))
    ensures 0 < -i <= |items| ==>
              UpdateItems(items, value, Some(i), current) == UpdateItems(items, value, Some(|items| + i), current)
    ensures i >= |items| || -i > |items| ==> UpdateItems(items, value, Some(i), current) == Raise(IndexError)
  {
    if 0 <= i < |items| {
      assert items[i := value] == items[..i] + [value] + items[i + 1..];
    }
  }

  /** A current value that is not there, or that is the new value already, changes nothing; and so does an
      `update` of what is neither a list nor a dictionary. */
  lemma UpdateChangesNothing(doc: Value, edit: Edit, found: Value, sep: string)
    requires edit.UpdateEdit? && Get(doc, edit.key, sep) == Ok(found) && !found.Dict?
    requires found.List? ==> Truthy(edit.current) && (edit.current !in found.items || edit.current == edit.value)
    ensures Apply(doc, edit, sep) == Ok(Change(false, doc))
  {
  }

  // ---------- Pop ----------

  /** From a dictionary that is found the named entry goes, and only it; an unhashable name raises. */
  lemma PopFromDict(doc: Value, key: string, entries: map<string, Value>, item: Value, sep: string)
    requires Get(doc, key, sep) == Ok(Dict(entries))
    ensures var r := Pop(doc, key, item, sep);
            if item.List? || item.Dict? then r == Raise(TypeError)
            else if item.Str? && item.s in entries then
              && r.Ok? && r.value.changed && Get(r.value.doc, key, sep).Ok?
              && var found := Get(r.value.doc, key, sep).value;
                 && found.Dict? && found.entries.Keys == entries.Keys - {item.s}
                 && forall k | k in found.entries :: found.entries[k] == entries[k]
            else r == Ok(Change(false, doc))
  {
    if item.Str? && item.s in entries {
      GetAfterUpdate(doc, ParseKey(key, sep), Dict(entries - {item.s}));
    }
  }

  /** From a list that is found the first equal element goes. */
  lemma PopFromList(doc: Value, key: string, items: seq<Value>, item: Value, i: nat, sep: string)
    requires Get(doc, key, sep) == Ok(List(items))
    requires i < |items| && items[i] == item && forall j | 0 <= j < i :: items[j] != item
    ensures var r := Pop(doc, key, item, sep);
            r.Ok? && r.value.changed && Get(r.value.doc, key, sep) == Ok(List(items[..i] + items[i + 1..]))
  {
    FirstIndexIs(items, item, i);
    GetAfterUpdate(doc, ParseKey(key, sep), List(items[..i] + items[i + 1..]));
  }

  /** Nothing is popped that is not there, nor from anything else. */
  lemma PopFromOther(doc: Value, key: string, found: Value, item: Value, sep: string)
    requires Get(doc, key, sep) == Ok(found) && !found.Dict? && (found.List? ==> item !in found.items)
    ensures Pop(doc, key, item, sep) == Ok(Change(false, doc))
  {
  }

  // ---------- Removal at the root ----------

  /** At the empty key of a dictionary: a value names the entry that goes; without a value all of
      them go. A value that is no key of it raises, and so does an index. */
  lemma DeleteFromRootDict(entries: map<string, Value>, index: Option<int>, value: Value, sep: string)
    ensures var r := Delete(Dict(entries), "", index, value, sep);
            if value.Null? then
              if index.Some? then r == Raise(YeditException) else r == Ok(Change(true, Dict(map[])))
            else if value.List? || value.Dict? then r == Raise(TypeError)
            else if value.Str? && value.s in entries then
              && r.Ok? && r.value.changed && r.value.doc.Dict? && r.value.doc.entries.Keys == entries.Keys - {value.s}
              && forall k | k in r.value.doc.entries :: r.value.doc.entries[k] == entries[k]
            else r == Raise(KeyError)
  {
  }

  /** At the empty key of a list: the first element equal to the value goes; without a value the one
      at the index; without either, all of them. */
  lemma DeleteFromRootList(items: seq<Value>, index: Option<int>, value: Value, i: nat, sep: string)
    ensures !value.Null? && value !in items ==>
              Delete(List(items), "", index, value, sep) == Ok(Change(false, List(items)))
    ensures !value.Null? && i < |items| && items[i] == value && (forall j | 0 <= j < i :: items[j] != value) ==>
              Delete(List(items), "", index, value, sep) == Ok(Change(true, List(items[..i] + items[i + 1..])))
    ensures value.Null? && i < |items| ==>
              && Delete(List(items), "", Some(i), value, sep) == Ok(Change(true, List(items[..i] + items[i + 1..])))
              && Delete(List(items), "", Some(i - |items|), value, sep)
                 == Ok(Change(true, List(items[..i] + items[i + 1..])))
    ensures value.Null? ==>
              && Delete(List(items), "", Some(|items| + i), value, sep) == Raise(IndexError)
              && Delete(List(items), "", Some(-|items| - 1 - i), value, sep) == Raise(IndexError)
              && Delete(List(items), "", None, value, sep) == Ok(Change(true, List([])))
  {
    if i < |items| && items[i] == value && forall j | 0 <= j < i :: items[j] != value {
      FirstIndexIs(items, value, i);
    }
  }

  /** A key the validator refuses, on a list or a dictionary: nothing is found and nothing is done. */
  lemma InvalidKeyDoesNothing(doc: Value, key: string, value: Value, index: Option<int>, sep: string)
    requires key != "" && !ValidKey(key) && (doc.List? || doc.Dict?)
    ensures Get(doc, key, sep) == Ok(Null)
    ensures !value.Null? ==> Put(doc, key, value, sep) == Ok(Change(false, doc))
    ensures Append(doc, key, value, sep) == Ok(Change(false, doc))
    ensures Delete(doc, key, index, value, sep) == Ok(Change(false, doc))
    ensures Pop(doc, key, value, sep) == Ok(Change(false, doc))
  {
  }

  // ---------- Runs with one value ----------

  /** What edits that complete or raise make of the report and, if the run has one, of the file. */
  function Outcome(r: Result<Change>, src: bool, file: Value): Run {
    match r
    case Raise(e) => Run(Raise(e), file)
    case Ok(c) => Run(Ok(c.changed), if c.changed && src then c.doc else file)
  }

  /** The document a run starts from: the content given, else that of its file, else an empty dictionary. */
  function Begins(p: Params, file: Value): Value {
    match p.content
    case Some(content) => content
    case None => if p.src then file else Dict(map[])
  }

  /** `state: present` with a value: `update` comes before `append`, and `append` before a put; an
      edit list given besides is not looked at. */
  lemma PresentWithValue(p: Params, file: Value, v: Value)
    requires p.value == Some(v)
    ensures var doc, run := Begins(p, file), Present(p, file);
            && (p.update ==> run == Outcome(UpdateEntry(doc, p.key, v, p.index, p.current, p.sep), p.src, file))
            && (!p.update && p.append ==> run == Outcome(Append(doc, p.key, v, p.sep), p.src, file))
            && (!p.update && !p.append ==> run == Outcome(Put(doc, p.key, v, p.sep), p.src, file))
  {
    OneEdit(Begins(p, file), SingleEdit(p), p.sep);
  }

  lemma OneEdit(doc: Value, edit: Edit, sep: string)
    ensures ApplyAll(doc, [edit], sep) == Apply(doc, edit, sep)
  {
    ApplyOneMore(doc, [edit], 0, sep);
    assert [edit][..0] == [] && [edit][..0 + 1] == [edit];
  }

  /** What comes after one outcome: nothing if it raised, else another one with the flags put together. */
  function Then(first: Result<Change>, second: Value -> Result<Change>): Result<Change> {
    match first
    case Raise(e) => Raise(e)
    case Ok(c) =>
      match second(c.doc)
      case Raise(e) => Raise(e)
      case Ok(d) => Ok(Change(c.changed || d.changed, d.doc))
  }

  /** Two lists of edits after one another: the second starts from what the first leaves, and is not
      looked at if the first raises. */
  lemma {:induction false} EditsInOrder(doc: Value, a: seq<Edit>, b: seq<Edit>, sep: string)
    ensures ApplyAll(doc, a + b, sep) == Then(ApplyAll(doc, a, sep), held => ApplyAll(held, b, sep))
    decreases |b|
  {
    if b == [] {
      assert a + b == a;
    } else {
      var front, last := b[..|b| - 1], b[|b| - 1];
      EditsInOrder(doc, a, front, sep);
      assert (a + b)[..|a + b| - 1] == a + front && (a + b)[|a + b| - 1] == last;
    }
  }

  /** `state: present` with an edit list and no value: the list is processed, in its order, on the document
      the run starts from, unless content is given that is the document already. */
  lemma PresentWithEdits(p: Params, file: Value, edits: seq<Edit>)
    requires p.value == None && p.edits == Some(edits) && edits != []
    ensures var held := if p.src then file else Dict(map[]);
            Present(p, file) == if p.content == Some(held) then Run(Ok(false), file)
                                else Outcome(ApplyAll(Begins(p, file), edits, p.sep), p.src, file)
  {
  }

  /** `state: absent`: with `update` the value is popped from what is found at the key, without it
      the entry at the key is deleted; a file without a document makes the run fail. */
  lemma AbsentWithValue(p: Params, file: Value)
    ensures var doc, run := Begins(p, file), Absent(p, file);
            var v := if p.value.Some? then p.value.value else Null;
            if p.src && file.Null? then run == Run(Raise(YeditException), file)
            else run == Outcome(if p.update then Pop(doc, p.key, v, p.sep) else Delete(doc, p.key, p.index, v, p.sep),
                                p.src, file)
  {
  }

  lemma RemovedKeyIsGone(v: Value, path: seq<Segment>)
    requires path != [] && Last(path).Key? && GetPath(v, path).Ok? && !GetPath(v, path).value.Null?
    ensures var r := RemovePath(v, path); r.Ok? && r.value.Some? && GetPath(r.value.value, path) == Ok(Null)
  {
    RemoveFound(v, path);
    var parent, k := GetPath(v, Parent(path)).value, Last(path).k;
    var left := Dict(parent.entries - {k});
    GetAfterUpdate(v, Parent(path), left);
    NothingBelow(Update(v, Parent(path), left), Parent(path), left, Key(k));
    assert path == Parent(path) + [Key(k)];
  }

  lemma DeletedIsGone(doc: Value, key: string, index: Option<int>, value: Value, sep: string)
    requires ParseKey(key, sep) != [] && Last(ParseKey(key, sep)).Key?
    requires Delete(doc, key, index, value, sep).Ok? && Delete(doc, key, index, value, sep).value.changed
    ensures GetPath(Delete(doc, key, index, value, sep).value.doc, ParseKey(key, sep)) == Ok(Null)
  {
    assert key != "";
    RemovedKeyIsGone(doc, ParseKey(key, sep));
  }

  /** After `state: absent` has reported a change, the entry under a dictionary key is gone. */
  lemma AbsentEntryIsGone(p: Params, file: Value)
    requires p.src && !p.update && ParseKey(p.key, p.sep) != [] && Last(ParseKey(p.key, p.sep)).Key?
    requires Absent(p, file).report == Ok(true)
    ensures GetPath(Absent(p, file).file, ParseKey(p.key, p.sep)) == Ok(Null)
  {
    DeletedIsGone(Begins(p, file), p.key, p.index, if p.value.Some? then p.value.value else Null, p.sep);
  }

  // ---------- Additions that raise ----------

  /** Below a truthy entry that is found, adding is adding inside of it, and so is what it raises. */
  lemma {:induction false} AddComposes(v: Value, front: seq<Segment>, found: Value, back: seq<Segment>, x: Value)
    requires GetPath(v, front) == Ok(found) && Truthy(found) && back != []
    ensures var inside := AddPath(found, back, x);
            AddPath(v, front + back, x) == if inside.Ok? then Ok(Update(v, front, inside.value)) else inside
    decreases |front|
  {
    if front == [] {
      assert front + back == back;
    } else {
      assert (front + back)[0] == front[0] && (front + back)[1..] == front[1..] + back;
      match front[0]
      case Key(k) =>
        assert Truthy(v.entries[k]) by {
          if |front| > 1 {
            FoundIsTruthy(v.entries[k], front[1..]);
          }
        }
        AddComposes(v.entries[k], front[1..], found, back, x);
      case Index(i) => AddComposes(v.items[Slot(|v.items|, i)], front[1..], found, back, x);
    }
  }

  /** What adding raises at its first step: a key needs a dictionary, an index a list, with an element
      there or, for the last step, just behind the last one; an index below the range is one of its own,
      and so is a key on the way below something falsy that is no dictionary. */
  lemma AddRaisesAtOnce(v: Value, step: Segment, rest: seq<Segment>, x: Value)
    ensures var r := AddPath(v, [step] + rest, x);
            match step
            case Key(_) =>
              !v.Dict? ==> r == Raise(if rest == [] || Truthy(v) then YeditException else TypeError)
            case Index(i) =>
              && (!v.List? || i > |v.items| || (i == |v.items| && rest != []) ==> r == Raise(YeditException))
              && (v.List? && i < -|v.items| ==> r == Raise(IndexError))
  {
    assert ([step] + rest)[0] == step && ([step] + rest)[1..] == rest;
  }
}
