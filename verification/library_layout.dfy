/**
 What each library operation does to the vector, entry by entry, with each of its errors: the
 collections' places, names, items, their order and their flags, the cursor and the active name.

 Places are given by what stands there, not by the searches the operations use.
 */
module LibraryLayout {
  import opened Bits
  import opened WallCache
  import opened CacheLibrary

  ghost predicate Named(entries: seq<Store>, name: Text) {
    exists i :: 0 <= i < |entries| && entries[i].name == name
  }

  /** The first collection of this name. */
  ghost predicate FirstNamedAt(entries: seq<Store>, name: Text, i: nat) {
    i < |entries| && entries[i].name == name && forall j :: 0 <= j < i ==> entries[j].name != name
  }

  /** The first item of this value. */
  ghost predicate FirstValueAt(items: seq<Item>, value: Text, at: nat) {
    at < |items| && items[at].value == value && forall j :: 0 <= j < at ==> items[j].value != value
  }

  lemma FoundName(entries: seq<Store>, name: Text)
    ensures Exists(entries, name) <==> Named(entries, name)
    ensures Named(entries, name) ==> FirstNamedAt(entries, name, IndexOf(entries, name))
    ensures forall i: nat :: FirstNamedAt(entries, name, i) ==> i == IndexOf(entries, name)
  {
  }

  lemma FoundValue(items: seq<Item>, value: Text)
    ensures FindValue(items, value) < |items| <==> HasValue(items, value)
    ensures HasValue(items, value) ==> FirstValueAt(items, value, FindValue(items, value))
    ensures forall at: nat :: FirstValueAt(items, value, at) ==> at == FindValue(items, value)
  {
  }

  /** All collections but the one at `i` are as before, and that one has this content. */
  ghost predicate OnlyChanged(entries: seq<Store>, entries': seq<Store>, i: nat, name: Text, cache: Cache) {
    && i < |entries| == |entries'|
    && entries'[i] == Store(name, cache)
    && forall k :: 0 <= k < |entries| && k != i ==> entries'[k] == entries[k]
  }

  /** A taken name is refused; otherwise the collection goes to the end. */
  lemma InsertLayout(lib: Library, name: Text, cache: Cache)
    ensures Named(lib.entries, name) ==> Insert(lib, name, cache) == (lib, Failed(CacheDoesNotExist))
    ensures !Named(lib.entries, name) ==>
              Insert(lib, name, cache) == (lib.(entries := lib.entries + [Store(name, cache)]), Done)
  {
    FoundName(lib.entries, name);
  }

  lemma ChangeActiveLayout(lib: Library, name: Text)
    ensures !Named(lib.entries, name) ==> ChangeActive(lib, name) == (lib, Failed(CacheDoesNotExist))
    ensures forall i: nat :: FirstNamedAt(lib.entries, name, i) && i < TWO32 ==>
              ChangeActive(lib, name) == (lib.(current := i, active := name), Done)
  {
    FoundName(lib.entries, name);
  }

  /** A rename changes the name of one collection in its place, and the active name if that is it. */
  lemma RenameLayout(lib: Library, fromName: Text, toName: Text)
    ensures var (lib', outcome) := Rename(lib, fromName, toName);
            && (fromName == toName ==> outcome == Failed(FromCacheToSame))
            && (fromName != toName && (!Named(lib.entries, fromName) || Named(lib.entries, toName)) ==>
                  outcome == Failed(CacheDoesNotExist))
            && (outcome != Done ==> lib' == lib)
            && (fromName != toName && Named(lib.entries, fromName) && !Named(lib.entries, toName) ==>
                  && outcome == Done && lib'.current == lib.current
                  && lib'.active == (if lib.active == fromName then toName else lib.active)
                  && forall i: nat :: FirstNamedAt(lib.entries, fromName, i) ==>
                       OnlyChanged(lib.entries, lib'.entries, i, toName, lib.entries[i].cache))
  {
    FoundName(lib.entries, fromName);
    FoundName(lib.entries, toName);
  }

  /** A removal closes the gap and leaves cursor and active name. */
  lemma RemoveLayout(lib: Library, name: Text)
    ensures !Named(lib.entries, name) ==> Remove(lib, name) == (lib, Failed(CacheDoesNotExist))
    ensures forall i: nat :: FirstNamedAt(lib.entries, name, i) ==>
              Remove(lib, name) == (lib.(entries := lib.entries[..i] + lib.entries[i + 1..]), Done)
  {
    FoundName(lib.entries, name);
  }

  ghost predicate ItemTaken(items: seq<Item>, items': seq<Item>, at: nat) {
    at < |items| && items' == items[..at] + items[at + 1..]
  }

  /** The first item with the value goes, the others keep their order, and nothing else changes; a
      vain search only marks the collection. */
  lemma RemoveItemLayout(lib: Library, name: Text, item: Text)
    ensures var (lib', outcome) := RemoveItem(lib, name, item);
            && (name == item ==> outcome == Failed(NameItemNameSame) && lib' == lib)
            && (name != item && !Named(lib.entries, name) ==> outcome == Failed(CacheDoesNotExist) && lib' == lib)
            && lib'.current == lib.current && lib'.active == lib.active
            && (name != item ==> forall i: nat :: FirstNamedAt(lib.entries, name, i) ==>
                  ItemRemoved(lib.entries, lib'.entries, outcome, i, item))
  {
    FoundName(lib.entries, name);
    if name != item && Named(lib.entries, name) {
      var i := IndexOf(lib.entries, name);
      var items := lib.entries[i].cache.items;
      FoundValue(items, item);
      if HasValue(items, item) { RemovedPositions(items, FindValue(items, item)); }
      assert ItemRemoved(lib.entries, RemoveItem(lib, name, item).0.entries, RemoveItem(lib, name, item).1, i, item);
    }
  }

  ghost predicate ItemRemoved(entries: seq<Store>, entries': seq<Store>, outcome: Outcome, i: nat, item: Text) {
    && i < |entries| == |entries'|
    && var items := entries[i].cache.items;
       && OnlyChanged(entries, entries', i, entries[i].name, Cache(true, entries'[i].cache.items))
       && (!HasValue(items, item) ==> outcome == Failed(ElemNotExists) && entries'[i].cache.items == items)
       && (HasValue(items, item) ==>
             && outcome == Done
             && forall at: nat :: FirstValueAt(items, item, at) ==> ItemTaken(items, entries'[i].cache.items, at))
  }

  /** What a move makes of the source at `s` and the destination at `d`. */
  ghost predicate ItemMovedOver(entries: seq<Store>, entries': seq<Store>, s: nat, d: nat, at: nat)
    requires s < |entries| && d < |entries| && at < |entries[s].cache.items|
  {
    var x := entries[s].cache.items[at];
    && |entries'| == |entries|
    && (forall k :: 0 <= k < |entries| && k != s && k != d ==> entries'[k] == entries[k])
    && entries'[s].name == entries[s].name && entries'[s].cache.modified
    && ItemTaken(entries[s].cache.items, entries'[s].cache.items, at)
    && (if exists j :: 0 <= j < |entries[d].cache.items| && entries[d].cache.items[j] == x
        then entries'[d] == entries[d]
        else entries'[d] == Store(entries[d].name, Cache(true, entries[d].cache.items + [x])))
  }

  lemma MoveOutcome(lib: Library, source: Text, dest: Text, item: Text)
    ensures var outcome := MoveItem(lib, source, dest, item).1;
            && MoveItem(lib, source, dest, item).0.current == lib.current
            && MoveItem(lib, source, dest, item).0.active == lib.active
            && (outcome != Done ==> MoveItem(lib, source, dest, item).0 == lib)
            && (source == dest || dest == item ==> outcome == Failed(FromCacheToSame))
            && (source != dest && dest != item && (!Named(lib.entries, source) || !Named(lib.entries, dest)) ==>
                  outcome == Failed(CacheDoesNotExist))
            && (source != dest && dest != item && Named(lib.entries, dest) ==>
                  forall s: nat :: FirstNamedAt(lib.entries, source, s) ==>
                    outcome == if HasValue(lib.entries[s].cache.items, item) then Done else Failed(ElemNotExists))
  {
    FoundName(lib.entries, source);
    FoundName(lib.entries, dest);
    if Named(lib.entries, source) { FoundValue(lib.entries[IndexOf(lib.entries, source)].cache.items, item); }
  }

  /** The first item with the value leaves the source, whose other items keep their order, and goes
      to the end of the destination unless the very item is there. */
  lemma MoveLayout(lib: Library, source: Text, dest: Text, item: Text, s: nat, d: nat, at: nat)
    requires MoveItem(lib, source, dest, item).1 == Done
    requires FirstNamedAt(lib.entries, source, s) && FirstNamedAt(lib.entries, dest, d)
    requires FirstValueAt(lib.entries[s].cache.items, item, at)
    ensures ItemMovedOver(lib.entries, MoveItem(lib, source, dest, item).0.entries, s, d, at)
  {
    var items := lib.entries[s].cache.items;
    FoundName(lib.entries, source);
    FoundName(lib.entries, dest);
    FoundValue(items, item);
    RemovedPositions(items, at);
    InsertedElem(lib.entries[d].cache, items[at]);
  }

  lemma MergeOutcome(lib: Library, col1: Text, col2: Text)
    ensures var outcome := MergeCaches(lib, col1, col2).1;
            && MergeCaches(lib, col1, col2).0.current == lib.current
            && MergeCaches(lib, col1, col2).0.active == lib.active
            && (outcome != Done ==> MergeCaches(lib, col1, col2).0 == lib)
            && (col1 == col2 ==> outcome == Failed(FromCacheToSame))
            && (col1 != col2 ==>
                  outcome == if Named(lib.entries, col1) && Named(lib.entries, col2) then Done else Failed(CacheDoesNotExist))
  {
    FoundName(lib.entries, col1);
    FoundName(lib.entries, col2);
  }
}
