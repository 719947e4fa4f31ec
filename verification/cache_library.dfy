/**
 The collection library: src/change_lib/wall_cache_library.cpp.

 `Library` is the value of a `cache_lib`: the vector of named collections, the cursor `m_current`
 and `m_active_name`.  Each operation is a function on that value that returns the new library and
 what the caller gets; class `CacheLib` updates its fields in place and is proved to do the same.
 A non-const access to a collection sets its modified flag even when nothing is changed.
 */
module CacheLibrary {
  import opened Bits
  import opened WallCache
  import opened ItemMerge

  datatype Store = Store(name: Text, cache: Cache)

  datatype Library = Library(entries: seq<Store>, current: U32, active: Text)

  datatype Errc = CacheDoesNotExist | FromCacheToSame | ElemNotExists | NameItemNameSame

  datatype Outcome = Done | Failed(error: Errc)

  /** `std::ranges::find` over the names: the first position, or the length. */
  function IndexOf(entries: seq<Store>, name: Text): (i: nat)
    ensures i <= |entries|
    ensures forall j :: 0 <= j < i ==> entries[j].name != name
    ensures i < |entries| ==> entries[i].name == name
  {
    if entries == [] || entries[0].name == name then 0 else 1 + IndexOf(entries[1..], name)
  }

  predicate Exists(entries: seq<Store>, name: Text) {
    IndexOf(entries, name) < |entries|
  }

  function RemoveEntry(entries: seq<Store>, i: nat): (r: seq<Store>)
    requires i < |entries|
    ensures |r| == |entries| - 1
  {
    entries[..i] + entries[i + 1..]
  }

  function WithCache(entries: seq<Store>, i: nat, cache: Cache): (r: seq<Store>)
    requires i < |entries|
    ensures |r| == |entries|
  {
    entries[i := Store(entries[i].name, cache)]
  }

  /** A non-const look at collection `i`. */
  function Touched(entries: seq<Store>, i: nat): seq<Store>
    requires i < |entries|
  {
    WithCache(entries, i, Cache(true, entries[i].cache.items))
  }

  // ---------- the operations ----------

  function Insert(lib: Library, name: Text, cache: Cache): (Library, Outcome) {
    if Exists(lib.entries, name) then (lib, Failed(CacheDoesNotExist))
    else (lib.(entries := lib.entries + [Store(name, cache)]), Done)
  }

  function ChangeActive(lib: Library, name: Text): (Library, Outcome) {
    var pos := IndexOf(lib.entries, name);
    if pos == |lib.entries| then (lib, Failed(CacheDoesNotExist))
    else (lib.(active := lib.entries[pos % TWO32].name, current := pos % TWO32), Done)
  }

  function Rename(lib: Library, fromName: Text, toName: Text): (Library, Outcome) {
    if fromName == toName then (lib, Failed(FromCacheToSame))
    else if !Exists(lib.entries, fromName) || Exists(lib.entries, toName) then (lib, Failed(CacheDoesNotExist))
    else
      var i := IndexOf(lib.entries, fromName);
      (lib.(entries := lib.entries[i := Store(toName, lib.entries[i].cache)],
            active := if fromName == lib.active then toName else lib.active), Done)
  }

  function Remove(lib: Library, name: Text): (Library, Outcome) {
    if !Exists(lib.entries, name) then (lib, Failed(CacheDoesNotExist))
    else (lib.(entries := RemoveEntry(lib.entries, IndexOf(lib.entries, name))), Done)
  }

  function RemoveItem(lib: Library, name: Text, item: Text): (Library, Outcome) {
    if name == item then (lib, Failed(NameItemNameSame))
    else if !Exists(lib.entries, name) then (lib, Failed(CacheDoesNotExist))
    else
      var i := IndexOf(lib.entries, name);
      var items := lib.entries[i].cache.items;
      var at := FindValue(items, item);
      if at == |items| then (lib.(entries := Touched(lib.entries, i)), Failed(ElemNotExists))
      else (lib.(entries := WithCache(lib.entries, i, Cache(true, RemoveAt(items, at)))), Done)
  }

  function MergeCaches(lib: Library, col1: Text, col2: Text): (Library, Outcome) {
    if col1 == col2 then (lib, Failed(FromCacheToSame))
    else if !Exists(lib.entries, col1) || !Exists(lib.entries, col2) then (lib, Failed(CacheDoesNotExist))
    else
      var merged := Merge(lib.entries[IndexOf(lib.entries, col1)].cache.items, lib.entries[IndexOf(lib.entries, col2)].cache.items);
      var rest := Remove(Remove(lib, col1).0, col2).0;
      (rest.(entries := rest.entries + [Store(col1, Cache(true, merged))]), Done)
  }

  function MoveItem(lib: Library, source: Text, dest: Text, item: Text): (Library, Outcome) {
    if source == dest || dest == item then (lib, Failed(FromCacheToSame))
    else if !Exists(lib.entries, source) || !Exists(lib.entries, dest) then (lib, Failed(CacheDoesNotExist))
    else
      var s, d := IndexOf(lib.entries, source), IndexOf(lib.entries, dest);
      var items := lib.entries[s].cache.items;
      var at := FindValue(items, item);
      if at == |items| then (lib, Failed(ElemNotExists))
      else
        var received := WithCache(lib.entries, d, ElemInserted(lib.entries[d].cache, items[at]));
        (lib.(entries := WithCache(received, s, Cache(true, RemoveAt(items, at)))), Done)
  }

  /** `std::ranges::find_if` for a modified collection: the first position, or the length. */
  function FindModified(entries: seq<Store>): (i: nat)
    ensures i <= |entries|
    ensures forall j :: 0 <= j < i ==> !entries[j].cache.modified
    ensures i < |entries| ==> entries[i].cache.modified
  {
    if entries == [] || entries[0].cache.modified then 0 else 1 + FindModified(entries[1..])
  }

  /** `modified` looks at what its search finds without asking whether it found anything. */
  predicate ModifiedDefined(entries: seq<Store>) {
    entries == [] || FindModified(entries) < |entries|
  }

  // ---------- the object ----------

  class CacheLib {
    var entries: seq<Store>
    var current: U32
    var active: Text

    constructor ()
      ensures Value() == Library([], 0, [])
    {
      entries := [];
      current := 0;
      active := [];
    }

    function Value(): Library
      reads this
    {
      Library(entries, current, active)
    }

    method ExistsNamed(name: Text) returns (r: bool)
      ensures r == Exists(entries, name)
    {
      r := false;
      if |entries| > 0 {
        var it := IndexOf(entries, name);
        if it != |entries| {
          r := entries[it].name == name;
        }
      }
    }

    method InsertCache(name: Text, value: Cache) returns (outcome: Outcome)
      modifies this
      ensures (Value(), outcome) == Insert(old(Value()), name, value)
    {
      var there := ExistsNamed(name);
      if !there {
        entries := entries + [Store(name, value)];
        return Done;
      }
      outcome := Failed(CacheDoesNotExist);
    }

    method SetActive(newActive: Text) returns (outcome: Outcome)
      modifies this
      ensures (Value(), outcome) == ChangeActive(old(Value()), newActive)
    {
      var there := ExistsNamed(newActive);
      if there {
        var pos: U32 := IndexOf(entries, newActive) % TWO32;
        active := entries[pos].name;
        current := pos;
        return Done;
      }
      outcome := Failed(CacheDoesNotExist);
    }

    method RenameStore(fromName: Text, toName: Text) returns (outcome: Outcome)
      modifies this
      ensures (Value(), outcome) == Rename(old(Value()), fromName, toName)
    {
      if fromName != toName {
        var there := ExistsNamed(fromName);
        var taken := ExistsNamed(toName);
        if there && !taken {
          var it := IndexOf(entries, fromName);
          entries := entries[it := Store(toName, entries[it].cache)];
          if fromName == active {
            active := toName;
          }
          return Done;
        }
        return Failed(CacheDoesNotExist);
      }
      outcome := Failed(FromCacheToSame);
    }

    method RemoveCache(name: Text) returns (outcome: Outcome)
      modifies this`entries
      ensures (Value(), outcome) == Remove(old(Value()), name)
    {
      var there := ExistsNamed(name);
      if there {
        var it := IndexOf(entries, name);
        entries := RemoveEntry(entries, it);
        return Done;
      }
      outcome := Failed(CacheDoesNotExist);
    }

    method RemoveCacheItem(name: Text, item: Text) returns (outcome: Outcome)
      modifies this`entries
      ensures (Value(), outcome) == RemoveItem(old(Value()), name, item)
    {
      if name != item {
        var there := ExistsNamed(name);
        if there {
          var it := IndexOf(entries, name);
          entries := Touched(entries, it);
          var at := FindValue(entries[it].cache.items, item);
          if at != |entries[it].cache.items| {
            entries := WithCache(entries, it, Cache(true, RemoveAt(entries[it].cache.items, at)));
            assert entries == WithCache(old(entries), it, entries[it].cache);
            return Done;
          }
          return Failed(ElemNotExists);
        }
        return Failed(CacheDoesNotExist);
      }
      outcome := Failed(NameItemNameSame);
    }

    method MergeCache(col1: Text, col2: Text) returns (outcome: Outcome)
      modifies this
      ensures (Value(), outcome) == MergeCaches(old(Value()), col1, col2)
    {
      if col1 != col2 {
        var there1 := ExistsNamed(col1);
        var there2 := ExistsNamed(col2);
        if there1 && there2 {
          var items1 := entries[IndexOf(entries, col1)].cache.items;
          var items2 := entries[IndexOf(entries, col2)].cache.items;
          // the new collection has its full size from the start
          var buffer := new Item[|items1| + |items2|](i => Item([], Null, 0));
          RangesMerge(items1, items2, buffer);
          var _ := RemoveCache(col1);
          var _ := RemoveCache(col2);
          entries := entries + [Store(col1, Cache(true, buffer[..]))];
          return Done;
        }
        return Failed(CacheDoesNotExist);
      }
      outcome := Failed(FromCacheToSame);
    }

    method MoveCacheItem(source: Text, dest: Text, item: Text) returns (outcome: Outcome)
      modifies this`entries
      ensures (Value(), outcome) == MoveItem(old(Value()), source, dest, item)
    {
      if source != dest && dest != item {
        var thereS := ExistsNamed(source);
        var thereD := ExistsNamed(dest);
        if thereS && thereD {
          var s, d := IndexOf(entries, source), IndexOf(entries, dest);
          if Contains(entries[s].cache, item) {
            var at := FindValue(entries[s].cache.items, item);
            entries := WithCache(entries, d, ElemInserted(entries[d].cache, entries[s].cache.items[at]));
            entries := WithCache(entries, s, Cache(true, RemoveAt(entries[s].cache.items, at)));
            return Done;
          }
          return Failed(ElemNotExists);
        }
        return Failed(CacheDoesNotExist);
      }
      outcome := Failed(FromCacheToSame);
    }

    method CacheList() returns (names: seq<Text>)
      ensures |names| == |entries| && forall i :: 0 <= i < |names| ==> names[i] == entries[i].name
    {
      names := [];
      for i := 0 to |entries|
        invariant |names| == i && forall j :: 0 <= j < i ==> names[j] == entries[j].name
      {
        names := names + [entries[i].name];
      }
    }

    method Modified() returns (r: bool)
      requires ModifiedDefined(entries)
      ensures r <==> entries != []
    {
      if |entries| > 0 {
        var it := FindModified(entries);
        return entries[it].cache.modified;
      }
      r := false;
    }
  }

  // ---------- any operation ----------

  datatype Op =
    | OpInsert(name: Text, cache: Cache)
    | OpChangeActive(name: Text)
    | OpRename(fromName: Text, toName: Text)
    | OpRemove(name: Text)
    | OpRemoveItem(name: Text, item: Text)
    | OpMerge(col1: Text, col2: Text)
    | OpMove(source: Text, dest: Text, item: Text)

  function Apply(lib: Library, op: Op): (Library, Outcome) {
    match op
    case OpInsert(name, cache) => Insert(lib, name, cache)
    case OpChangeActive(name) => ChangeActive(lib, name)
    case OpRename(fromName, toName) => Rename(lib, fromName, toName)
    case OpRemove(name) => Remove(lib, name)
    case OpRemoveItem(name, item) => RemoveItem(lib, name, item)
    case OpMerge(col1, col2) => MergeCaches(lib, col1, col2)
    case OpMove(source, dest, item) => MoveItem(lib, source, dest, item)
  }

  function Run(lib: Library, ops: seq<Op>): Library
    decreases |ops|
  {
    if ops == [] then lib else Run(Apply(lib, ops[0]).0, ops[1..])
  }
}
