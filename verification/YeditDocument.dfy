/**
 The meaning of the document editor, on values: what each method of the Yedit class computes
 from the held document, the key text and the arguments.
 The in-place methods of modules YeditCursor and YeditEditor are proved against these functions.
 */
module YeditDocument {
  import opened Wrappers
  import opened YeditKey

  /** A loaded document: scalars, lists and string-keyed dictionaries. */
  datatype Value =
    | Null
    | Bool(b: bool)
    | Int(n: int)
    | Str(s: string)
    | List(items: seq<Value>)
    | Dict(entries: map<string, Value>)

  datatype Error = YeditException | IndexError | KeyError | TypeError | ValueError

  datatype Result<+T> = Ok(value: T) | Raise(error: Error) {
    predicate IsFailure() {
      Raise?
    }

    function PropagateFailure<U>(): Result<U>
      requires Raise?
    {
      Raise(error)
    }

    function Extract(): T
      requires Ok?
    {
      value
    }
  }

  /** What an editing method returns: the flag, and the document held afterwards. */
  datatype Change = Change(changed: bool, doc: Value)

  predicate Truthy(v: Value) {
    match v
    case Null => false
    case Bool(b) => b
    case Int(n) => n != 0
    case Str(s) => s != ""
    case List(items) => items != []
    case Dict(entries) => entries != map[]
  }

  predicate IsContainer(v: Value) {
    v.List? || v.Dict?
  }

  /** Hashable values can be dictionary keys; asking a dictionary for another raises. */
  predicate Hashable(v: Value) {
    !IsContainer(v)
  }

  function Lookup(entries: map<string, Value>, k: string): Value {
    if k in entries then entries[k] else Null
  }

  /** The position an in-range index denotes; negative indices count from the end. */
  function Slot(n: int, i: int): (slot: nat)
    requires -n <= i < n
    ensures slot < n
  {
    if i < 0 then n + i else i
  }

  // ---------- Walking a path ----------

  /** The loop of `get_entry`. A missing step is None; an index below the range raises. */
  function GetPath(v: Value, path: seq<Segment>): Result<Value>
    decreases |path|
  {
    if path == [] then Ok(v) else
      match path[0]
      case Key(k) =>
        if v.Dict? then GetPath(Lookup(v.entries, k), path[1..]) else Ok(Null)
      case Index(i) =>
        if !v.List? || i >= |v.items| then Ok(Null)
        else if i < -|v.items| then Raise(IndexError)
        else GetPath(v.items[Slot(|v.items|, i)], path[1..])
  }

  /** The loop and the last step of `add_entry`, on a fresh copy of the document. */
  function AddPath(v: Value, path: seq<Segment>, item: Value): Result<Value>
    requires path != []
    decreases |path|
  {
    if |path| == 1 then AddLast(v, path[0], item) else
      match path[0]
      case Key(k) =>
        if v.Dict? then
          var child :- AddPath(Child(v.entries, k), path[1..], item);
          Ok(Dict(v.entries[k := child]))
        else if Truthy(v) then Raise(YeditException) else Raise(TypeError)
      case Index(i) =>
        if !v.List? || i >= |v.items| then Raise(YeditException)
        else if i < -|v.items| then Raise(IndexError)
        else
          var child :- AddPath(v.items[Slot(|v.items|, i)], path[1..], item);
          Ok(List(v.items[Slot(|v.items|, i) := child]))
  }

  /** An entry that is absent or falsy is replaced by an empty dictionary on the way down. */
  function Child(entries: map<string, Value>, k: string): Value {
    if k in entries && Truthy(entries[k]) then entries[k] else Dict(map[])
  }

  function AddLast(v: Value, last: Segment, item: Value): Result<Value> {
    match last
    case Index(i) =>
      if !v.List? || i > |v.items| then Raise(YeditException)
      else if i == |v.items| then Ok(List(v.items + [item]))
      else if i < -|v.items| then Raise(IndexError)
      else Ok(List(v.items[Slot(|v.items|, i) := item]))
    case Key(k) =>
      if v.Dict? then Ok(Dict(v.entries[k := item])) else Raise(YeditException)
  }

  /** The loop and the last step of `remove_entry`; None is the method's `None`. */
  function RemovePath(v: Value, path: seq<Segment>): Result<Option<Value>>
    requires path != []
    decreases |path|
  {
    if |path| == 1 then RemoveLast(v, path[0]) else
      match path[0]
      case Key(k) =>
        if !v.Dict? || k !in v.entries then Ok(None) else
          var child :- RemovePath(v.entries[k], path[1..]);
          Ok(if child.Some? then Some(Dict(v.entries[k := child.value])) else None)
      case Index(i) =>
        if !v.List? || i >= |v.items| then Ok(None)
        else if i < -|v.items| then Raise(IndexError)
        else
          var slot := Slot(|v.items|, i);
          var child :- RemovePath(v.items[slot], path[1..]);
          Ok(if child.Some? then Some(List(v.items[slot := child.value])) else None)
  }

  function RemoveLast(v: Value, last: Segment): Result<Option<Value>> {
    match last
    case Index(i) =>
      if !v.List? || i >= |v.items| then Ok(None)
      else if i < -|v.items| then Raise(IndexError)
      else Ok(Some(List(RemoveAt(v.items, Slot(|v.items|, i)))))
    case Key(k) =>
      if !v.Dict? then Ok(None)
      else if k !in v.entries then Raise(KeyError)
      else Ok(Some(Dict(v.entries - {k})))
  }

  function RemoveAt<T>(s: seq<T>, i: nat): seq<T>
    requires i < |s|
  {
    s[..i] + s[i + 1..]
  }

  /** The document with the value at an existing location replaced; a path that does not
      lead to a location changes nothing. The editors that mutate a found entry are stated with it. */
  function Update(v: Value, path: seq<Segment>, x: Value): Value
    decreases |path|
  {
    if path == [] then x else
      match path[0]
      case Key(k) =>
        if v.Dict? && k in v.entries then Dict(v.entries[k := Update(v.entries[k], path[1..], x)]) else v
      case Index(i) =>
        if v.List? && -|v.items| <= i < |v.items| then
          var slot := Slot(|v.items|, i);
          List(v.items[slot := Update(v.items[slot], path[1..], x)])
        else v
  }

  // ---------- The methods of the class ----------

  /** A key text the methods refuse: it does not match, and the root is a list or a dictionary. */
  predicate Refused(doc: Value, key: string) {
    key != "" && !ValidKey(key) && IsContainer(doc)
  }

  function Get(doc: Value, key: string, sep: string): Result<Value> {
    if Refused(doc, key) then Ok(Null) else GetPath(doc, ParseKey(key, sep))
  }

  function Put(doc: Value, key: string, value: Value, sep: string): Result<Change> {
    var entry :- Get(doc, key, sep);
    if entry == value then Ok(Change(false, doc))
    else if key == "" then
      if IsContainer(value) then Ok(Change(true, value)) else Ok(Change(false, doc))
    else if Refused(doc, key) then Ok(Change(false, doc))
    else if ParseKey(key, sep) == [] then Raise(IndexError)
    else
      var added :- AddPath(doc, ParseKey(key, sep), value);
      Ok(Change(true, added))
  }

  function Append(doc: Value, key: string, value: Value, sep: string): Result<Change> {
    var entry :- Get(doc, key, sep);
    if entry.Null? then
      var put :- Put(doc, key, List([]), sep);
      var entry :- Get(put.doc, key, sep);
      Ok(AppendTo(put.doc, ParseKey(key, sep), entry, value))
    else
      Ok(AppendTo(doc, ParseKey(key, sep), entry, value))
  }

  function AppendTo(doc: Value, path: seq<Segment>, entry: Value, value: Value): Change {
    if entry.List? then Change(true, Update(doc, path, List(entry.items + [value]))) else Change(false, doc)
  }

  /** `update`: merge into a dictionary, or replace or insert in a list.
      A current value of Null stands for an absent one: both are falsy. */
  function UpdateEntry(doc: Value, key: string, value: Value, index: Option<int>, current: Value, sep: string)
    : Result<Change>
  {
    var entry :- Get(doc, key, sep);
    UpdateAt(doc, ParseKey(key, sep), entry, value, index, current)
  }

  function UpdateAt(doc: Value, path: seq<Segment>, entry: Value, value: Value, index: Option<int>, current: Value)
    : Result<Change>
  {
    match entry
    case Dict(entries) =>
      if value.Dict? then Ok(Change(true, Update(doc, path, Dict(entries + value.entries))))
      else Raise(YeditException)
    case List(items) =>
      var updated :- UpdateItems(items, value, index, current);
      Ok(if updated.Some? then Change(true, Update(doc, path, List(updated.value))) else Change(false, doc))
    case _ => Ok(Change(false, doc))
  }

  /** The list branch of `update`: the new items, or None for no change. */
  function UpdateItems(items: seq<Value>, value: Value, index: Option<int>, current: Value)
    : Result<Option<seq<Value>>>
  {
    if Truthy(current) then
      if current !in items then Ok(None)
      else if current == value then Ok(None)
      else Ok(Some(items[FirstIndex(items, current) := value]))
    else if index.Some? then
      var i := index.value;
      if !(-|items| <= i < |items|) then Raise(IndexError)
      else if items[Slot(|items|, i)] == value then Ok(None)
      else Ok(Some(items[Slot(|items|, i) := value]))
    else if value in items then Ok(None)
    else Ok(Some(items + [value]))
  }

  /** `list.index`. */
  function FirstIndex<T(==)>(s: seq<T>, x: T): (i: nat)
    requires x in s
    ensures i < |s| && s[i] == x && x !in s[..i]
  {
    if s[0] == x then 0 else
      assert s[1..][..FirstIndex(s[1..], x)] == s[1..FirstIndex(s[1..], x) + 1];
      1 + FirstIndex(s[1..], x)
  }

  /** `delete`: only a non-null entry is removed; a key of "" works on the root itself. */
  function Delete(doc: Value, key: string, index: Option<int>, value: Value, sep: string): Result<Change> {
    var entry :- Get(doc, key, sep);
    if entry.Null? then Ok(Change(false, doc)) else
      var removed :- RemoveEntry(doc, key, index, value, sep);
      Ok(if removed.Some? then Change(true, removed.value) else Change(false, doc))
  }

  function RemoveEntry(doc: Value, key: string, index: Option<int>, value: Value, sep: string)
    : Result<Option<Value>>
  {
    if key == "" && doc.Dict? then RemoveFromDict(doc.entries, index, value)
    else if key == "" && doc.List? then RemoveFromList(doc.items, index, value)
    else if Refused(doc, key) then Ok(None)
    else if ParseKey(key, sep) == [] then Raise(IndexError)
    else RemovePath(doc, ParseKey(key, sep))
  }

  function RemoveFromDict(entries: map<string, Value>, index: Option<int>, value: Value): Result<Option<Value>> {
    if !value.Null? then
      if !Hashable(value) then Raise(TypeError)
      else if value.Str? && value.s in entries then Ok(Some(Dict(entries - {value.s})))
      else Raise(KeyError)
    else if index.Some? then Raise(YeditException)
    else Ok(Some(Dict(map[])))
  }

  function RemoveFromList(items: seq<Value>, index: Option<int>, value: Value): Result<Option<Value>> {
    if !value.Null? then
      if value in items then Ok(Some(List(RemoveAt(items, FirstIndex(items, value))))) else Ok(None)
    else if index.Some? then
      if -|items| <= index.value < |items| then Ok(Some(List(RemoveAt(items, Slot(|items|, index.value)))))
      else Raise(IndexError)
    else Ok(Some(List([])))
  }

  /** `pop`: remove a key from the dictionary, or the first equal item from the list, found at the key. */
  function Pop(doc: Value, key: string, item: Value, sep: string): Result<Change> {
    var entry :- Get(doc, key, sep);
    PopAt(doc, ParseKey(key, sep), entry, item)
  }

  function PopAt(doc: Value, path: seq<Segment>, entry: Value, item: Value): Result<Change> {
    match entry
    case Dict(entries) =>
      if !Hashable(item) then Raise(TypeError)
      else if item.Str? && item.s in entries then Ok(Change(true, Update(doc, path, Dict(entries - {item.s}))))
      else Ok(Change(false, doc))
    case List(items) =>
      if item in items then Ok(Change(true, Update(doc, path, List(RemoveAt(items, FirstIndex(items, item))))))
      else Ok(Change(false, doc))
    case _ => Ok(Change(false, doc))
  }
}
