/**
 What each command of the manager does to the whole state, and what it reports: the collections
 entry by entry, the path table, the history, and the files of `store`.
 */
module ManagerCommands {
  import opened Options
  import opened Bits
  import opened Crc32
  import opened WallCache
  import opened CacheLibrary
  import opened LibraryLayout
  import opened JsonHelper
  import opened Persistence
  import opened PathTables
  import opened WallManager

  // ---------- directories ----------

  /** The directory has its key, and only a key that was not there is added. */
  ghost predicate PathKnown(paths: PathTable, paths': PathTable, path: Text) {
    && (if exists i :: 0 <= i < |paths.store| && paths.store[i].key == Crc(path)
        then paths' == paths
        else paths' == PathTable(paths.store + [Entry(Crc(path), path)], true))
    && (WellKeyed(paths.store) ==> Get(paths', Crc(path)).Some? && Crc(Get(paths', Crc(path)).value) == Crc(path))
  }

  lemma PathBecomesKnown(paths: PathTable, path: Text)
    ensures PathKnown(paths, PathInserted(paths, path), path)
  {
    if WellKeyed(paths.store) { LookupAfterInsert(paths, path); }
  }

  // ---------- adding and creating ----------

  /** One unused item with this file name and the key of its directory goes to the end of the
      collection, unless an item has the name. */
  ghost predicate FileAdded(c: Cache, c': Cache, filename: Text, parent: Text) {
    if HasValue(c.items, filename) then c' == c
    else c' == Cache(true, c.items + [Item(filename, Unused, Crc(parent))])
  }

  /** Adding succeeds exactly for an existing collection, and changes only it and the path table. */
  lemma AddExactly(m: ManagerState, name: Text, parent: Text, filename: Text)
    ensures var (m', ok) := Executed(m, Add(name, parent, filename));
            && (ok <==> Named(m.lib.entries, name))
            && (!ok ==> m' == m)
            && (ok ==>
                 && m' == m.(lib := m.lib.(entries := m'.lib.entries), paths := m'.paths)
                 && PathKnown(m.paths, m'.paths, parent)
                 && forall i: nat :: FirstNamedAt(m.lib.entries, name, i) ==>
                      && OnlyChanged(m.lib.entries, m'.lib.entries, i, name, m'.lib.entries[i].cache)
                      && FileAdded(m.lib.entries[i].cache, m'.lib.entries[i].cache, filename, parent))
  {
    FoundName(m.lib.entries, name);
    if Named(m.lib.entries, name) {
      var i := IndexOf(m.lib.entries, name);
      InsertedItem(m.lib.entries[i].cache, filename, Crc(parent));
      PathBecomesKnown(m.paths, parent);
      assert FileAdded(m.lib.entries[i].cache, Executed(m, Add(name, parent, filename)).0.lib.entries[i].cache, filename, parent);
    }
  }

  /** The collection grows by the files of a listing in turn. */
  lemma CollectedNext(listing: seq<DirEntry>, next: DirEntry, loc: U32)
    ensures Collected([], loc) == Cache(false, [])
    ensures var c, c' := Collected(listing, loc), Collected(listing + [next], loc);
            if next.isDirectory || HasValue(c.items, next.filename) then c' == c
            else c' == Cache(true, c.items + [Item(next.filename, Unused, loc)])
  {
    assert (listing + [next])[..|listing|] == listing;
    InsertedItem(Collected(listing, loc), next.filename, loc);
  }

  /** Creating succeeds exactly under a free name; an existing directory is collected and recorded
      even when it does not. */
  lemma CreateExactly(m: ManagerState, name: Text, path: Text, found: bool, listing: seq<DirEntry>)
    ensures var (m', ok) := Executed(m, Create(name, path, found, listing));
            && (ok <==> !Named(m.lib.entries, name))
            && m'.previous == m.previous
            && (if path != [] && found then PathKnown(m.paths, m'.paths, path) else m'.paths == m.paths)
            && m'.lib == (if !ok then m.lib
                          else m.lib.(entries := m.lib.entries +
                            [Store(name, if path != [] && found then Collected(listing, Crc(path)) else Cache(false, []))]))
  {
    var c := if path != [] && found then Collected(listing, Crc(path)) else Cache(false, []);
    InsertLayout(m.lib, name, c);
    PathBecomesKnown(m.paths, path);
  }

  // ---------- forwarding and validating ----------

  /** A forwarded operation changes the library only, and success is reported exactly if it is done. */
  lemma ForwardExactly(m: ManagerState, op: Op)
    requires !op.OpInsert?
    ensures var (m', ok) := Executed(m, Forward(op));
            && m'.lib == Apply(m.lib, op).0 && m'.paths == m.paths && m'.previous == m.previous
            && (ok <==> Apply(m.lib, op).1 == Done)
  {
  }

  /** Validation succeeds exactly for an existing collection and only marks it as modified. */
  lemma ValidateExactly(m: ManagerState, name: Text)
    ensures var (m', ok) := Executed(m, Validate(name));
            && (ok <==> Named(m.lib.entries, name))
            && (!ok ==> m' == m)
            && m' == m.(lib := m.lib.(entries := m'.lib.entries))
            && forall i: nat :: FirstNamedAt(m.lib.entries, name, i) ==>
                 OnlyChanged(m.lib.entries, m'.lib.entries, i, name, Cache(true, m.lib.entries[i].cache.items))
  {
    FoundName(m.lib.entries, name);
  }

  /** Its directory is known, and there is no such file there. */
  ghost predicate GoneFromDisk(x: Item, paths: PathTable, onDisk: (Text, Text) -> bool) {
    exists path :: Get(paths, x.loc) == Some(path) && !onDisk(path, x.value)
  }

  /** The list of missing items grows by each item that is gone from disk, in the order of the items. */
  lemma MissingNext(items: seq<Item>, next: Item, paths: PathTable, onDisk: (Text, Text) -> bool)
    ensures Missing([], paths, onDisk) == []
    ensures Missing(items + [next], paths, onDisk) ==
            Missing(items, paths, onDisk) + if GoneFromDisk(next, paths, onDisk) then [next] else []
  {
    assert (items + [next])[..|items|] == items;
    if Get(paths, next.loc).Some? {
      var path := Get(paths, next.loc).value;
      assert Get(paths, next.loc) == Some(path);
    }
  }

  // ---------- showing and marking ----------

  /** Only the state of the item at this place has changed. */
  ghost predicate StateSet(items: seq<Item>, items': seq<Item>, at: nat, state: CacheState) {
    && at < |items| == |items'|
    && items'[at] == Item(items[at].value, state, items[at].loc)
    && forall j :: 0 <= j < |items| && j != at ==> items'[j] == items[j]
  }

  /** The history has grown by this item. */
  ghost predicate ShownIs(m: ManagerState, previous': seq<Shown>, x: Item, index: nat) {
    previous' == m.previous + [Shown(x.value, Get(m.paths, x.loc), index, m.lib.active)]
  }

  /** Showing sets the item's state and appends to the history; without an active collection nothing
      happens. */
  lemma ShowExactly(m: ManagerState, index: nat)
    requires CanExecute(m, NextWall(index))
    ensures var m' := Executed(m, NextWall(index)).0;
            && (!Named(m.lib.entries, m.lib.active) ==> m' == m)
            && forall i: nat :: FirstNamedAt(m.lib.entries, m.lib.active, i) ==>
                 && m' == m.(lib := m.lib.(entries := m'.lib.entries), previous := m'.previous)
                 && index < |m.lib.entries[i].cache.items|
                 && ShownIs(m, m'.previous, m.lib.entries[i].cache.items[index], index)
                 && OnlyChanged(m.lib.entries, m'.lib.entries, i, m.lib.active, Cache(true, m'.lib.entries[i].cache.items))
                 && StateSet(m.lib.entries[i].cache.items, m'.lib.entries[i].cache.items, index, Used)
  {
    FoundName(m.lib.entries, m.lib.active);
  }

  /** Going back only shortens the history. */
  lemma BackExactly(m: ManagerState)
    ensures var m' := Executed(m, PreviousWall).0;
            && m' == m.(previous := m'.previous)
            && (if m.previous == [] then m'.previous == [] else m.previous == m'.previous + [m.previous[|m.previous| - 1]])
  {
    if m.previous != [] {
      LastOff(m.previous);
      assert Executed(m, PreviousWall).0 == m.(previous := m.previous[..|m.previous| - 1]);
    }
  }

  lemma LastOff(previous: seq<Shown>)
    requires previous != []
    ensures previous == previous[..|previous| - 1] + [previous[|previous| - 1]]
  {
  }

  /** Marking sets the state of the first item under the cursor with the value shown last. */
  lemma MarkExactly(m: ManagerState, at: nat)
    requires CanExecute(m, MarkFavorate) && m.previous != []
    requires m.lib.current < |m.lib.entries|
    requires FirstValueAt(m.lib.entries[m.lib.current].cache.items, m.previous[|m.previous| - 1].wallpaper, at)
    ensures var m' := Executed(m, MarkFavorate).0;
            var i := m.lib.current;
            && m' == m.(lib := m.lib.(entries := m'.lib.entries))
            && OnlyChanged(m.lib.entries, m'.lib.entries, i, m.lib.entries[i].name, Cache(true, m'.lib.entries[i].cache.items))
            && StateSet(m.lib.entries[i].cache.items, m'.lib.entries[i].cache.items, at, Favorate)
  {
    FoundValue(m.lib.entries[m.lib.current].cache.items, m.previous[|m.previous| - 1].wallpaper);
  }

  lemma MarkNothingShown(m: ManagerState)
    requires m.previous == []
    ensures CanExecute(m, MarkFavorate) && Executed(m, MarkFavorate).0 == m
  {
  }

  // ---------- the history file ----------

  /** The object says what was shown. */
  ghost predicate Describes(j: Json, s: Shown) {
    && j.JObject? && j.fields.Keys == {"wallpaper", "path", "index", "collection"}
    && j.fields["wallpaper"] == JString(s.wallpaper)
    && (s.path.Some? ==> j.fields["path"] == JString(s.path.value))
    && j.fields["index"] == JNumber(s.index)
    && j.fields["collection"] == JString(s.collection)
  }

  /** A history that is not empty replaces the file, entry by entry; an empty one leaves it alone. */
  lemma HistoryFile(previous: seq<Shown>, file: File)
    ensures previous == [] ==> HistoryStored(previous, file) == file
    ensures previous != [] ==>
              && HistoryStored(previous, file).Holds?
              && var j := HistoryStored(previous, file).json;
                 && j.JObject? && j.fields.Keys == {"histoy"} && j.fields["histoy"].JArray?
                 && |j.fields["histoy"].elems| == |previous|
                 && forall i :: 0 <= i < |previous| ==> Describes(j.fields["histoy"].elems[i], previous[i])
  {
  }
}
