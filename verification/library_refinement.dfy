/**
 The library as a map from names to item lists.

 Every operation on the vector of collections simulates the operation of the same name on a map,
 with the same outcome, and keeps the names pairwise distinct; this holds along every run.
 */
module LibraryRefinement {
  import opened WallCache
  import opened ItemMerge
  import opened CacheLibrary

  ghost predicate NamesDistinct(entries: seq<Store>) {
    forall i, j :: 0 <= i < j < |entries| ==> entries[i].name != entries[j].name
  }

  type Collections = map<Text, seq<Item>>

  /** What the library means: the items a lookup by name finds. */
  function Meaning(entries: seq<Store>): Collections {
    if entries == [] then map[] else Meaning(entries[1..])[entries[0].name := entries[0].cache.items]
  }

  // ---------- the operations on maps ----------

  function MapInsert(m: Collections, name: Text, items: seq<Item>): (Collections, Outcome) {
    if name in m then (m, Failed(CacheDoesNotExist)) else (m[name := items], Done)
  }

  function MapChangeActive(m: Collections, name: Text): (Collections, Outcome) {
    (m, if name in m then Done else Failed(CacheDoesNotExist))
  }

  function MapRename(m: Collections, fromName: Text, toName: Text): (Collections, Outcome) {
    if fromName == toName then (m, Failed(FromCacheToSame))
    else if fromName !in m || toName in m then (m, Failed(CacheDoesNotExist))
    else ((m - {fromName})[toName := m[fromName]], Done)
  }

  function MapRemove(m: Collections, name: Text): (Collections, Outcome) {
    if name in m then (m - {name}, Done) else (m, Failed(CacheDoesNotExist))
  }

  function MapRemoveItem(m: Collections, name: Text, item: Text): (Collections, Outcome) {
    if name == item then (m, Failed(NameItemNameSame))
    else if name !in m then (m, Failed(CacheDoesNotExist))
    else
      var at := FindValue(m[name], item);
      if at == |m[name]| then (m, Failed(ElemNotExists)) else (m[name := RemoveAt(m[name], at)], Done)
  }

  function MapMerge(m: Collections, col1: Text, col2: Text): (Collections, Outcome) {
    if col1 == col2 then (m, Failed(FromCacheToSame))
    else if col1 !in m || col2 !in m then (m, Failed(CacheDoesNotExist))
    else ((m - {col2})[col1 := Merge(m[col1], m[col2])], Done)
  }

  function MapMove(m: Collections, source: Text, dest: Text, item: Text): (Collections, Outcome) {
    if source == dest || dest == item then (m, Failed(FromCacheToSame))
    else if source !in m || dest !in m then (m, Failed(CacheDoesNotExist))
    else
      var at := FindValue(m[source], item);
      if at == |m[source]| then (m, Failed(ElemNotExists))
      else
        var moved := m[source][at];
        (m[source := RemoveAt(m[source], at)][dest := if moved in m[dest] then m[dest] else m[dest] + [moved]], Done)
  }

  function MapApply(m: Collections, op: Op): (Collections, Outcome) {
    match op
    case OpInsert(name, cache) => MapInsert(m, name, cache.items)
    case OpChangeActive(name) => MapChangeActive(m, name)
    case OpRename(fromName, toName) => MapRename(m, fromName, toName)
    case OpRemove(name) => MapRemove(m, name)
    case OpRemoveItem(name, item) => MapRemoveItem(m, name, item)
    case OpMerge(col1, col2) => MapMerge(m, col1, col2)
    case OpMove(source, dest, item) => MapMove(m, source, dest, item)
  }

  function MapRun(m: Collections, ops: seq<Op>): Collections
    decreases |ops|
  {
    if ops == [] then m else MapRun(MapApply(m, ops[0]).0, ops[1..])
  }

  // ---------- lookups and updates ----------

  lemma {:induction false} MeaningAt(entries: seq<Store>, name: Text)
    ensures Exists(entries, name) <==> name in Meaning(entries)
    ensures Exists(entries, name) ==> Meaning(entries)[name] == entries[IndexOf(entries, name)].cache.items
  {
    if entries != [] && entries[0].name != name { MeaningAt(entries[1..], name); }
  }

  lemma ExistsIff(entries: seq<Store>, name: Text)
    ensures Exists(entries, name) <==> exists i :: 0 <= i < |entries| && entries[i].name == name
  {
  }

  lemma {:induction false} MeaningOfAppend(entries: seq<Store>, s: Store)
    requires !Exists(entries, s.name)
    ensures Meaning(entries + [s]) == Meaning(entries)[s.name := s.cache.items]
  {
    if entries == [] {
      assert [] + [s] == [s] && [s][1..] == [];
    } else {
      assert (entries + [s])[1..] == entries[1..] + [s];
      MeaningOfAppend(entries[1..], s);
    }
  }

  lemma DistinctAppend(entries: seq<Store>, s: Store)
    requires NamesDistinct(entries) && !Exists(entries, s.name)
    ensures NamesDistinct(entries + [s])
  {
  }

  lemma {:induction false} MeaningOfUpdate(entries: seq<Store>, name: Text, cache: Cache)
    requires Exists(entries, name)
    ensures Meaning(WithCache(entries, IndexOf(entries, name), cache)) == Meaning(entries)[name := cache.items]
  {
    var i := IndexOf(entries, name);
    var e := WithCache(entries, i, cache);
    if i == 0 {
      assert e[1..] == entries[1..];
    } else {
      assert e[1..] == WithCache(entries[1..], i - 1, cache);
      MeaningOfUpdate(entries[1..], name, cache);
    }
  }

  /** Replacing a collection's contents moves no name. */
  lemma SameNames(entries: seq<Store>, i: nat, cache: Cache, name: Text)
    requires i < |entries|
    ensures NamesDistinct(entries) ==> NamesDistinct(WithCache(entries, i, cache))
    ensures IndexOf(WithCache(entries, i, cache), name) == IndexOf(entries, name)
  {
    var e := WithCache(entries, i, cache);
    assert forall j :: 0 <= j < |e| ==> e[j].name == entries[j].name;
  }

  lemma RemoveEntryAt(entries: seq<Store>, i: nat)
    requires i < |entries|
    ensures forall j :: 0 <= j < |entries| - 1 ==> RemoveEntry(entries, i)[j] == entries[if j < i then j else j + 1]
    ensures NamesDistinct(entries) ==> NamesDistinct(RemoveEntry(entries, i))
  {
  }

  lemma RemoveEntryCons(entries: seq<Store>, i: nat)
    requires i < |entries|
    ensures i == 0 ==> RemoveEntry(entries, i) == entries[1..]
    ensures i > 0 ==> RemoveEntry(entries, i)[0] == entries[0] && RemoveEntry(entries, i)[1..] == RemoveEntry(entries[1..], i - 1)
    ensures i > 0 ==> RemoveEntry(entries, i) == [entries[0]] + RemoveEntry(entries[1..], i - 1)
  {
  }

  lemma UpdateThenDrop(m: Collections, a: Text, x: seq<Item>, name: Text)
    ensures a != name ==> m[a := x] - {name} == (m - {name})[a := x]
    ensures a == name && name !in m ==> m[a := x] - {name} == m
  {
  }

  lemma OnlyOnce(entries: seq<Store>)
    requires NamesDistinct(entries) && entries != []
    ensures NamesDistinct(entries[1..]) && entries[0].name !in Meaning(entries[1..])
  {
    MeaningAt(entries[1..], entries[0].name);
    ExistsIff(entries[1..], entries[0].name);
  }

  lemma {:induction false} MeaningOfRemove(entries: seq<Store>, name: Text)
    requires NamesDistinct(entries) && Exists(entries, name)
    ensures Meaning(RemoveEntry(entries, IndexOf(entries, name))) == Meaning(entries) - {name}
  {
    var i := IndexOf(entries, name);
    OnlyOnce(entries);
    RemoveEntryCons(entries, i);
    UpdateThenDrop(Meaning(entries[1..]), entries[0].name, entries[0].cache.items, name);
    if i > 0 { MeaningOfRemove(entries[1..], name); }
  }

  lemma {:induction false} MeaningOfRename(entries: seq<Store>, fromName: Text, toName: Text)
    requires NamesDistinct(entries) && Exists(entries, fromName) && !Exists(entries, toName)
    ensures var i := IndexOf(entries, fromName);
            Meaning(entries[i := Store(toName, entries[i].cache)]) == (Meaning(entries) - {fromName})[toName := entries[i].cache.items]
  {
    var i := IndexOf(entries, fromName);
    var e := entries[i := Store(toName, entries[i].cache)];
    OnlyOnce(entries);
    UpdateThenDrop(Meaning(entries[1..]), entries[0].name, entries[0].cache.items, fromName);
    if i == 0 {
      assert e[1..] == entries[1..];
    } else {
      assert e[1..] == entries[1..][i - 1 := Store(toName, entries[i].cache)];
      MeaningOfRename(entries[1..], fromName, toName);
      UpdatesCommute(Meaning(entries[1..]) - {fromName}, toName, entries[i].cache.items, entries[0].name, entries[0].cache.items);
    }
  }

  lemma DistinctRename(entries: seq<Store>, i: nat, name: Text)
    requires NamesDistinct(entries) && i < |entries| && !Exists(entries, name)
    ensures NamesDistinct(entries[i := Store(name, entries[i].cache)])
  {
  }

  // ---------- one operation ----------

  lemma RemoveRefines(lib: Library, name: Text)
    requires NamesDistinct(lib.entries)
    ensures NamesDistinct(Remove(lib, name).0.entries)
    ensures (Meaning(Remove(lib, name).0.entries), Remove(lib, name).1) == MapRemove(Meaning(lib.entries), name)
  {
    MeaningAt(lib.entries, name);
    if Exists(lib.entries, name) {
      MeaningOfRemove(lib.entries, name);
      RemoveEntryAt(lib.entries, IndexOf(lib.entries, name));
    }
  }

  lemma RemoveThenAdd(m: Collections, a: Text, b: Text, x: seq<Item>)
    ensures (m - {a} - {b})[a := x] == (m - {b})[a := x]
  {
  }

  lemma MergeRefines(lib: Library, col1: Text, col2: Text)
    requires NamesDistinct(lib.entries)
    ensures NamesDistinct(MergeCaches(lib, col1, col2).0.entries)
    ensures (Meaning(MergeCaches(lib, col1, col2).0.entries), MergeCaches(lib, col1, col2).1) == MapMerge(Meaning(lib.entries), col1, col2)
  {
    MeaningAt(lib.entries, col1);
    MeaningAt(lib.entries, col2);
    if col1 != col2 && Exists(lib.entries, col1) && Exists(lib.entries, col2) {
      var m := Meaning(lib.entries);
      var once := Remove(lib, col1).0;
      var rest := Remove(once, col2).0;
      RemoveRefines(lib, col1);
      RemoveRefines(once, col2);
      MeaningAt(rest.entries, col1);
      var store := Store(col1, Cache(true, Merge(m[col1], m[col2])));
      MeaningOfAppend(rest.entries, store);
      DistinctAppend(rest.entries, store);
      RemoveThenAdd(m, col1, col2, store.cache.items);
    }
  }

  lemma UpdatesCommute(m: Collections, a: Text, x: seq<Item>, b: Text, y: seq<Item>)
    requires a != b
    ensures m[a := x][b := y] == m[b := y][a := x]
  {
  }

  lemma MoveRefines(lib: Library, source: Text, dest: Text, item: Text)
    requires NamesDistinct(lib.entries)
    ensures NamesDistinct(MoveItem(lib, source, dest, item).0.entries)
    ensures (Meaning(MoveItem(lib, source, dest, item).0.entries), MoveItem(lib, source, dest, item).1) ==
            MapMove(Meaning(lib.entries), source, dest, item)
  {
    MeaningAt(lib.entries, source);
    MeaningAt(lib.entries, dest);
    if MoveItem(lib, source, dest, item).1 == Done {
      var s, d := IndexOf(lib.entries, source), IndexOf(lib.entries, dest);
      var items := lib.entries[s].cache.items;
      var at := FindValue(items, item);
      var grown, shrunk := ElemInserted(lib.entries[d].cache, items[at]), Cache(true, RemoveAt(items, at));
      var received := WithCache(lib.entries, d, grown);
      MeaningOfUpdate(lib.entries, dest, grown);
      SameNames(lib.entries, d, grown, source);
      MeaningOfUpdate(received, source, shrunk);
      SameNames(received, s, shrunk, source);
      UpdatesCommute(Meaning(lib.entries), dest, grown.items, source, shrunk.items);
    }
  }

  lemma RemoveItemRefines(lib: Library, name: Text, item: Text)
    requires NamesDistinct(lib.entries)
    ensures NamesDistinct(RemoveItem(lib, name, item).0.entries)
    ensures (Meaning(RemoveItem(lib, name, item).0.entries), RemoveItem(lib, name, item).1) == MapRemoveItem(Meaning(lib.entries), name, item)
  {
    MeaningAt(lib.entries, name);
    if name != item && Exists(lib.entries, name) {
      var i := IndexOf(lib.entries, name);
      var items := lib.entries[i].cache.items;
      var at := FindValue(items, item);
      var cache := if at == |items| then Cache(true, items) else Cache(true, RemoveAt(items, at));
      MeaningOfUpdate(lib.entries, name, cache);
      SameNames(lib.entries, i, cache, name);
      var m := Meaning(lib.entries);
      assert at == |items| ==> m[name := items] == m;
    }
  }

  lemma RenameRefines(lib: Library, fromName: Text, toName: Text)
    requires NamesDistinct(lib.entries)
    ensures NamesDistinct(Rename(lib, fromName, toName).0.entries)
    ensures (Meaning(Rename(lib, fromName, toName).0.entries), Rename(lib, fromName, toName).1) == MapRename(Meaning(lib.entries), fromName, toName)
  {
    MeaningAt(lib.entries, fromName);
    MeaningAt(lib.entries, toName);
    if Rename(lib, fromName, toName).1 == Done {
      MeaningOfRename(lib.entries, fromName, toName);
      DistinctRename(lib.entries, IndexOf(lib.entries, fromName), toName);
    }
  }

  /** Each operation on the vector is the one on the map, outcome included. */
  lemma OperationRefines(lib: Library, op: Op)
    requires NamesDistinct(lib.entries)
    ensures NamesDistinct(Apply(lib, op).0.entries)
    ensures (Meaning(Apply(lib, op).0.entries), Apply(lib, op).1) == MapApply(Meaning(lib.entries), op)
  {
    match op {
      case OpInsert(name, cache) =>
        MeaningAt(lib.entries, name);
        if !Exists(lib.entries, name) {
          MeaningOfAppend(lib.entries, Store(name, cache));
          DistinctAppend(lib.entries, Store(name, cache));
        }
      case OpChangeActive(name) => MeaningAt(lib.entries, name);
      case OpRename(fromName, toName) => RenameRefines(lib, fromName, toName);
      case OpRemove(name) => RemoveRefines(lib, name);
      case OpRemoveItem(name, item) => RemoveItemRefines(lib, name, item);
      case OpMerge(col1, col2) => MergeRefines(lib, col1, col2);
      case OpMove(source, dest, item) => MoveRefines(lib, source, dest, item);
    }
  }

  /** Starting empty, every run keeps names distinct and computes what the map operations do. */
  lemma {:induction false} RunRefines(lib: Library, ops: seq<Op>)
    requires NamesDistinct(lib.entries)
    ensures NamesDistinct(Run(lib, ops).entries)
    ensures Meaning(Run(lib, ops).entries) == MapRun(Meaning(lib.entries), ops)
    decreases |ops|
  {
    if ops != [] {
      OperationRefines(lib, ops[0]);
      RunRefines(Apply(lib, ops[0]).0, ops[1..]);
    }
  }

  lemma RunFromEmpty(ops: seq<Op>)
    ensures NamesDistinct(Run(Library([], 0, []), ops).entries)
    ensures Meaning(Run(Library([], 0, []), ops).entries) == MapRun(map[], ops)
  {
    RunRefines(Library([], 0, []), ops);
    assert Meaning([]) == map[];
  }

  /** A failed operation changes nothing, except that looking for an item that is not there marks
      its collection as modified. */
  lemma FailureChangesNothing(lib: Library, op: Op)
    requires Apply(lib, op).1 != Done
    ensures Apply(lib, op).0 ==
            if op.OpRemoveItem? && Apply(lib, op).1 == Failed(ElemNotExists)
            then lib.(entries := Touched(lib.entries, IndexOf(lib.entries, op.name))) else lib
    ensures |Apply(lib, op).0.entries| == |lib.entries|
    ensures forall i :: 0 <= i < |lib.entries| ==>
              && Apply(lib, op).0.entries[i].name == lib.entries[i].name
              && Apply(lib, op).0.entries[i].cache.items == lib.entries[i].cache.items
  {
  }

  // ---------- merge and move in the library ----------

  /** The collections that have none of the given names. */
  function Without(entries: seq<Store>, names: set<Text>): seq<Store> {
    if entries == [] then []
    else (if entries[0].name in names then [] else [entries[0]]) + Without(entries[1..], names)
  }

  lemma {:induction false} WithoutAbsent(entries: seq<Store>, names: set<Text>)
    requires forall i :: 0 <= i < |entries| ==> entries[i].name !in names
    ensures Without(entries, names) == entries
  {
    if entries != [] { WithoutAbsent(entries[1..], names); }
  }

  lemma WithoutCons(s: Store, rest: seq<Store>, names: set<Text>)
    ensures Without([s] + rest, names) == (if s.name in names then [] else [s]) + Without(rest, names)
  {
    assert ([s] + rest)[1..] == rest;
  }

  lemma {:induction false} RemoveIsWithout(entries: seq<Store>, name: Text, names: set<Text>)
    requires NamesDistinct(entries) && Exists(entries, name)
    ensures Without(RemoveEntry(entries, IndexOf(entries, name)), names) == Without(entries, names + {name})
  {
    var i := IndexOf(entries, name);
    RemoveEntryCons(entries, i);
    if i == 0 {
      WithoutSame(entries[1..], name, names);
    } else {
      WithoutCons(entries[0], RemoveEntry(entries[1..], i - 1), names);
      RemoveIsWithout(entries[1..], name, names);
    }
  }

  lemma {:induction false} WithoutSame(entries: seq<Store>, name: Text, names: set<Text>)
    requires forall i :: 0 <= i < |entries| ==> entries[i].name != name
    ensures Without(entries, names) == Without(entries, names + {name})
  {
    if entries != [] { WithoutSame(entries[1..], name, names); }
  }

  /** A merge drops both collections, appends the merged one under the first name, and leaves all
      others in their order. */
  lemma MergeLayout(lib: Library, col1: Text, col2: Text)
    requires NamesDistinct(lib.entries) && MergeCaches(lib, col1, col2).1 == Done
    ensures var m := Meaning(lib.entries);
            && col1 in m && col2 in m
            && MergeCaches(lib, col1, col2).0 == lib.(entries :=
                 Without(lib.entries, {col1, col2}) + [Store(col1, Cache(true, Merge(m[col1], m[col2])))])
  {
    MeaningAt(lib.entries, col1);
    MeaningAt(lib.entries, col2);
    var once := Remove(lib, col1).0;
    RemoveRefines(lib, col1);
    MeaningAt(once.entries, col2);
    RemovedBoth(lib.entries, col1, col2);
  }

  lemma RemovedBoth(entries: seq<Store>, col1: Text, col2: Text)
    requires NamesDistinct(entries) && Exists(entries, col1)
    requires Exists(RemoveEntry(entries, IndexOf(entries, col1)), col2)
    ensures var once := RemoveEntry(entries, IndexOf(entries, col1));
            RemoveEntry(once, IndexOf(once, col2)) == Without(entries, {col1, col2})
  {
    var once := RemoveEntry(entries, IndexOf(entries, col1));
    var twice := RemoveEntry(once, IndexOf(once, col2));
    RemoveKeepsNames(entries, IndexOf(entries, col1));
    WithoutAbsent(twice, {});
    RemoveIsWithout(once, col2, {});
    RemoveIsWithout(entries, col1, {} + {col2});
    TwoNames(col1, col2);
  }

  lemma RemoveKeepsNames(entries: seq<Store>, i: nat)
    requires NamesDistinct(entries) && i < |entries|
    ensures NamesDistinct(RemoveEntry(entries, i))
  {
    RemoveEntryAt(entries, i);
  }

  lemma TwoNames(a: Text, b: Text)
    ensures ({} + {b}) + {a} == {a, b}
  {
  }

  /** A move keeps the items of the two collections together, takes one from the source, adds one to
      the destination unless the identical item is there, and leaves all other collections alone. */
  lemma MoveConserves(lib: Library, source: Text, dest: Text, item: Text)
    requires NamesDistinct(lib.entries) && MoveItem(lib, source, dest, item).1 == Done
    ensures var m, m' := Meaning(lib.entries), Meaning(MoveItem(lib, source, dest, item).0.entries);
            && source in m && dest in m && m'.Keys == m.Keys
            && (forall n :: n in m && n != source && n != dest ==> m'[n] == m[n])
            && ItemMoved(m[source], m[dest], m'[source], m'[dest], item)
  {
    MoveRefines(lib, source, dest, item);
    MeaningAt(lib.entries, source);
    MeaningAt(lib.entries, dest);
    var m := Meaning(lib.entries);
    MovedOver(m[source], m[dest], item);
  }

  ghost predicate ItemMoved(from: seq<Item>, to: seq<Item>, from': seq<Item>, to': seq<Item>, value: Text) {
    var at := FindValue(from, value);
    && at < |from|
    && (forall x :: x in from' || x in to' <==> x in from || x in to)
    && from' == from[..at] + from[at + 1..]
    && (if from[at] in to then to' == to
        else to' == to + [from[at]] && multiset(from') + multiset(to') == multiset(from) + multiset(to))
  }

  lemma MovedOver(from: seq<Item>, to: seq<Item>, value: Text)
    requires FindValue(from, value) < |from|
    ensures var at := FindValue(from, value);
            ItemMoved(from, to, RemoveAt(from, at), if from[at] in to then to else to + [from[at]], value)
  {
    var at := FindValue(from, value);
    MoveTotals(from, to, at);
    RemovedPositions(from, at);
  }

  lemma MoveTotals(from: seq<Item>, to: seq<Item>, at: nat)
    requires at < |from|
    ensures var to' := if from[at] in to then to else to + [from[at]];
            && (forall x :: x in RemoveAt(from, at) || x in to' <==> x in from || x in to)
            && (from[at] !in to ==> multiset(RemoveAt(from, at)) + multiset(to') == multiset(from) + multiset(to))
  {
    RemoveKeepsDistinct(from, at);
    var to' := if from[at] in to then to else to + [from[at]];
    forall x ensures x in RemoveAt(from, at) || x in to' <==> x in from || x in to {
      if x in from && x != from[at] {
        assert x in multiset(from) && x in multiset(RemoveAt(from, at));
      }
    }
  }
}
