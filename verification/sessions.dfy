/**
 Whole runs of the manager over any number of sessions.

 A run mixes commands, the two file writes of `store` and restarts that load both files again.
 A restart may come at any point, also between the two writes.  Each write is atomic.
 */
module Sessions {
  import opened Options
  import opened Bits
  import opened Crc32
  import opened WallCache
  import opened ItemMerge
  import opened CacheLibrary
  import opened LibraryRefinement
  import opened JsonHelper
  import opened Persistence
  import opened PathTables
  import opened WallManager

  /** `storing` is true between the write of the path file and that of the library file. */
  datatype World = World(mgr: ManagerState, pathFile: File, libFile: File, storing: bool)

  datatype Event = Do(command: Command) | WritePaths | WriteLibrary | Restart

  ghost predicate Enabled(w: World, e: Event) {
    match e
    case Do(command) => !w.storing && CanExecute(w.mgr, command)
    case WritePaths => !w.storing
    case WriteLibrary => w.storing && CanSerialize(w.mgr.lib)
    case Restart => LoadedTable(w.pathFile).Ok? && Loaded(w.libFile).Ok?
  }

  ghost function Following(w: World, e: Event): World
    requires Enabled(w, e)
  {
    match e
    case Do(command) => w.(mgr := Executed(w.mgr, command).0)
    case WritePaths => w.(pathFile := Stored(w.mgr.paths, w.pathFile), storing := true)
    case WriteLibrary => w.(libFile := Serialized(w.mgr.lib, w.libFile), storing := false)
    case Restart => w.(mgr := ManagerState(Loaded(w.libFile).value, LoadedTable(w.pathFile).value, []), storing := false)
  }

  const FIRST_START := World(ManagerState(Library([], 0, []), PathTable([], false), []), Absent, Absent, false)

  ghost predicate IsRun(worlds: seq<World>, events: seq<Event>) {
    && |worlds| == |events| + 1
    && worlds[0] == FIRST_START
    && forall k :: 0 <= k < |events| ==> Enabled(worlds[k], events[k]) && worlds[k + 1] == Following(worlds[k], events[k])
  }

  /** Some run ends in this state. */
  ghost predicate Reached(w: World) {
    exists worlds, events :: IsRun(worlds, events) && worlds[|worlds| - 1] == w
  }

  lemma ReachedStart()
    ensures Reached(FIRST_START)
  {
    assert IsRun([FIRST_START], []);
  }

  lemma ReachedStep(w: World, e: Event)
    requires Reached(w) && Enabled(w, e)
    ensures Reached(Following(w, e))
  {
    var worlds, events :| IsRun(worlds, events) && worlds[|worlds| - 1] == w;
    assert IsRun(worlds + [Following(w, e)], events + [e]);
  }

  // ---------- what holds of every collection ----------

  /** The directory of every item is in the table, and a collection with items counts as modified. */
  ghost predicate CacheOk(c: Cache, store: seq<Entry>) {
    AllHaveKeys(c.items, store) && (c.items != [] ==> c.modified)
  }

  ghost predicate EntriesOk(entries: seq<Store>, store: seq<Entry>) {
    && NamesDistinct(entries)
    && forall i :: 0 <= i < |entries| ==> CacheOk(entries[i].cache, store)
  }

  lemma KeysStay(store: seq<Entry>, longer: seq<Entry>, id: U32)
    requires store <= longer && HasKey(store, id)
    ensures HasKey(longer, id)
  {
    assert longer == store + longer[|store|..];
    FindInLonger(store, longer[|store|..], id);
  }

  lemma CacheOkGrows(c: Cache, store: seq<Entry>, longer: seq<Entry>)
    requires CacheOk(c, store) && store <= longer
    ensures CacheOk(c, longer)
  {
    forall x | x in c.items ensures HasKey(longer, x.loc) { KeysStay(store, longer, x.loc); }
  }

  lemma EntriesOkGrows(entries: seq<Store>, store: seq<Entry>, longer: seq<Entry>)
    requires EntriesOk(entries, store) && store <= longer
    ensures EntriesOk(entries, longer)
  {
    forall i | 0 <= i < |entries| ensures CacheOk(entries[i].cache, longer) {
      CacheOkGrows(entries[i].cache, store, longer);
    }
  }

  // ---------- library operations ----------

  /** Contents of collections only come from collections. */
  lemma UpdateOk(entries: seq<Store>, i: nat, c: Cache, store: seq<Entry>)
    requires EntriesOk(entries, store) && i < |entries| && CacheOk(c, store)
    ensures EntriesOk(WithCache(entries, i, c), store)
  {
    SameNames(entries, i, c, entries[i].name);
  }

  lemma RemoveOk(lib: Library, name: Text, store: seq<Entry>)
    requires EntriesOk(lib.entries, store)
    ensures EntriesOk(Remove(lib, name).0.entries, store)
  {
    if Exists(lib.entries, name) { RemoveEntryAt(lib.entries, IndexOf(lib.entries, name)); }
  }

  lemma InsertOk(lib: Library, name: Text, c: Cache, store: seq<Entry>)
    requires EntriesOk(lib.entries, store) && CacheOk(c, store)
    ensures EntriesOk(Insert(lib, name, c).0.entries, store)
  {
    if !Exists(lib.entries, name) { DistinctAppend(lib.entries, Store(name, c)); }
  }

  lemma MergedCacheOk(a: Cache, b: Cache, store: seq<Entry>)
    requires CacheOk(a, store) && CacheOk(b, store)
    ensures CacheOk(Cache(true, Merge(a.items, b.items)), store)
  {
    MergeKeepsItems(a.items, b.items);
  }

  lemma RemovedIsGone(lib: Library, name: Text, other: Text)
    requires NamesDistinct(lib.entries)
    ensures !Exists(Remove(lib, name).0.entries, name)
    ensures !Exists(lib.entries, other) ==> !Exists(Remove(lib, name).0.entries, other)
  {
    RemoveRefines(lib, name);
    MeaningAt(lib.entries, name);
    MeaningAt(lib.entries, other);
    MeaningAt(Remove(lib, name).0.entries, name);
    MeaningAt(Remove(lib, name).0.entries, other);
  }

  lemma MergeOk(lib: Library, col1: Text, col2: Text, store: seq<Entry>)
    requires EntriesOk(lib.entries, store)
    ensures EntriesOk(MergeCaches(lib, col1, col2).0.entries, store)
  {
    if MergeCaches(lib, col1, col2).1 == Done {
      var a := lib.entries[IndexOf(lib.entries, col1)].cache;
      var b := lib.entries[IndexOf(lib.entries, col2)].cache;
      var once := Remove(lib, col1).0;
      var rest := Remove(once, col2).0;
      MergedCacheOk(a, b, store);
      RemoveOk(lib, col1, store);
      RemovedIsGone(lib, col1, col1);
      RemoveOk(once, col2, store);
      RemovedIsGone(once, col2, col1);
      InsertOk(rest, col1, Cache(true, Merge(a.items, b.items)), store);
    }
  }

  lemma MoveOk(lib: Library, source: Text, dest: Text, item: Text, store: seq<Entry>)
    requires EntriesOk(lib.entries, store)
    ensures EntriesOk(MoveItem(lib, source, dest, item).0.entries, store)
  {
    if MoveItem(lib, source, dest, item).1 == Done {
      var s, d := IndexOf(lib.entries, source), IndexOf(lib.entries, dest);
      var items := lib.entries[s].cache.items;
      var at := FindValue(items, item);
      var grown := ElemInserted(lib.entries[d].cache, items[at]);
      RemoveKeepsDistinct(items, at);
      ElemInsertKeepsDistinct(lib.entries[d].cache, items[at]);
      assert items[at] in items;
      UpdateOk(lib.entries, d, grown, store);
      UpdateOk(WithCache(lib.entries, d, grown), s, Cache(true, RemoveAt(items, at)), store);
    }
  }

  lemma RemoveItemOk(lib: Library, name: Text, item: Text, store: seq<Entry>)
    requires EntriesOk(lib.entries, store)
    ensures EntriesOk(RemoveItem(lib, name, item).0.entries, store)
  {
    if name != item && Exists(lib.entries, name) {
      var i := IndexOf(lib.entries, name);
      var items := lib.entries[i].cache.items;
      var at := FindValue(items, item);
      if at < |items| { RemoveKeepsDistinct(items, at); }
      UpdateOk(lib.entries, i, if at == |items| then Cache(true, items) else Cache(true, RemoveAt(items, at)), store);
    }
  }

  lemma RenameOk(lib: Library, fromName: Text, toName: Text, store: seq<Entry>)
    requires EntriesOk(lib.entries, store)
    ensures EntriesOk(Rename(lib, fromName, toName).0.entries, store)
  {
    RenameRefines(lib, fromName, toName);
  }

  lemma OperationOk(lib: Library, op: Op, store: seq<Entry>)
    requires EntriesOk(lib.entries, store)
    requires op.OpInsert? ==> CacheOk(op.cache, store)
    ensures EntriesOk(Apply(lib, op).0.entries, store)
  {
    match op {
      case OpInsert(name, cache) => InsertOk(lib, name, cache, store);
      case OpRemove(name) => RemoveOk(lib, name, store);
      case OpMerge(col1, col2) => MergeOk(lib, col1, col2, store);
      case OpMove(source, dest, item) => MoveOk(lib, source, dest, item, store);
      case OpRemoveItem(name, item) => RemoveItemOk(lib, name, item, store);
      case OpRename(fromName, toName) => RenameOk(lib, fromName, toName, store);
      case OpChangeActive(_) =>
    }
  }

  // ---------- commands ----------

  lemma InsertedOk(c: Cache, value: Text, loc: U32, store: seq<Entry>)
    requires CacheOk(c, store) && HasKey(store, loc)
    ensures CacheOk(WallCache.Inserted(c, value, loc), store)
  {
  }

  lemma {:induction false} CollectedOk(listing: seq<DirEntry>, loc: U32, store: seq<Entry>)
    requires HasKey(store, loc)
    ensures CacheOk(Collected(listing, loc), store)
  {
    if listing != [] {
      var front, last := listing[..|listing| - 1], listing[|listing| - 1];
      CollectedOk(front, loc, store);
      InsertedOk(Collected(front, loc), last.filename, loc, store);
    }
  }

  lemma WithStateOk(items: seq<Item>, at: nat, state: CacheState, store: seq<Entry>)
    requires at < |items| && AllHaveKeys(items, store)
    ensures CacheOk(Cache(true, WithState(items, at, state)), store)
  {
    var r := WithState(items, at, state);
    forall x | x in r ensures HasKey(store, x.loc) {
      var i :| 0 <= i < |r| && r[i] == x;
      assert items[i] in items && items[i].loc == x.loc;
    }
  }

  ghost predicate StateOk(m: ManagerState) {
    && EntriesOk(m.lib.entries, m.paths.store)
    && WellKeyed(m.paths.store)
    && forall i :: 0 <= i < |m.previous| ==> m.previous[i].path.Some?
  }

  lemma CreateOk(m: ManagerState, c: Command)
    requires StateOk(m) && c.Create?
    ensures StateOk(Executed(m, c).0)
  {
    var scan := c.path != [] && c.found;
    var paths := if scan then PathInserted(m.paths, c.path) else m.paths;
    InsertExtends(m.paths, c.path);
    EntriesOkGrows(m.lib.entries, m.paths.store, paths.store);
    if scan { CollectedOk(c.listing, Crc(c.path), paths.store); }
    InsertOk(m.lib, c.name, if scan then Collected(c.listing, Crc(c.path)) else Cache(false, []), paths.store);
  }

  lemma AddOk(m: ManagerState, c: Command)
    requires StateOk(m) && c.Add?
    ensures StateOk(Executed(m, c).0)
  {
    if Exists(m.lib.entries, c.name) {
      var i := IndexOf(m.lib.entries, c.name);
      var paths := PathInserted(m.paths, c.parent);
      InsertExtends(m.paths, c.parent);
      EntriesOkGrows(m.lib.entries, m.paths.store, paths.store);
      InsertedOk(m.lib.entries[i].cache, c.filename, Crc(c.parent), paths.store);
      UpdateOk(m.lib.entries, i, WallCache.Inserted(m.lib.entries[i].cache, c.filename, Crc(c.parent)), paths.store);
    }
  }

  lemma ShowOk(m: ManagerState, index: nat)
    requires StateOk(m) && CanExecute(m, NextWall(index))
    ensures StateOk(Executed(m, NextWall(index)).0)
  {
    if Exists(m.lib.entries, m.lib.active) {
      var i := IndexOf(m.lib.entries, m.lib.active);
      var items := m.lib.entries[i].cache.items;
      assert items[index] in items;
      WithStateOk(items, index, Used, m.paths.store);
      UpdateOk(m.lib.entries, i, Cache(true, WithState(items, index, Used)), m.paths.store);
    }
  }

  lemma MarkOk(m: ManagerState)
    requires StateOk(m) && CanExecute(m, MarkFavorate)
    ensures StateOk(Executed(m, MarkFavorate).0)
  {
    if m.previous != [] {
      var i := m.lib.current;
      var items := m.lib.entries[i].cache.items;
      var at := FindValue(items, m.previous[|m.previous| - 1].wallpaper);
      WithStateOk(items, at, Favorate, m.paths.store);
      UpdateOk(m.lib.entries, i, Cache(true, WithState(items, at, Favorate)), m.paths.store);
    }
  }

  /** Every command keeps every lookup of an item's directory defined. */
  lemma {:induction false} CommandOk(m: ManagerState, c: Command)
    requires StateOk(m) && CanExecute(m, c)
    ensures StateOk(Executed(m, c).0)
  {
    match c {
      case Create(_, _, _, _) => CreateOk(m, c);
      case Add(_, _, _) => AddOk(m, c);
      case Forward(op) => OperationOk(m.lib, op, m.paths.store);
      case NextWall(index) => ShowOk(m, index);
      case PreviousWall =>
      case MarkFavorate => MarkOk(m);
      case Validate(name) =>
        if Exists(m.lib.entries, name) {
          var i := IndexOf(m.lib.entries, name);
          UpdateOk(m.lib.entries, i, Cache(true, m.lib.entries[i].cache.items), m.paths.store);
        }
    }
  }

  /** The wallpaper shown is an unused one of the active collection, becomes used, and is reported
      with a directory that has its key; going back takes it from the history only. */
  lemma ShowThenBack(m: ManagerState, index: nat)
    requires StateOk(m) && CanExecute(m, NextWall(index)) && Exists(m.lib.entries, m.lib.active)
    ensures var i := IndexOf(m.lib.entries, m.lib.active);
            var item := m.lib.entries[i].cache.items[index];
            var after := Executed(m, NextWall(index)).0;
            && |after.previous| == |m.previous| + 1
            && var shown := after.previous[|m.previous|];
            && shown.wallpaper == item.value && shown.collection == m.lib.active
            && shown.path.Some? && Crc(shown.path.value) == item.loc
            && Meaning(after.lib.entries) == Meaning(m.lib.entries)[m.lib.active :=
                 WithState(m.lib.entries[i].cache.items, index, Used)]
            && Executed(after, PreviousWall).0 == after.(previous := m.previous)
  {
    var i := IndexOf(m.lib.entries, m.lib.active);
    var items := m.lib.entries[i].cache.items;
    assert CacheOk(m.lib.entries[i].cache, m.paths.store) && items[index] in items;
    MeaningOfUpdate(m.lib.entries, m.lib.active, Cache(true, WithState(items, index, Used)));
    assert m.previous + [Executed(m, NextWall(index)).0.previous[|m.previous|]] == Executed(m, NextWall(index)).0.previous;
  }

  lemma CommandExtendsPaths(m: ManagerState, c: Command)
    requires CanExecute(m, c)
    ensures m.paths.store <= Executed(m, c).0.paths.store
    ensures m.paths.modified ==> Executed(m, c).0.paths.modified
    ensures !Executed(m, c).0.paths.modified ==> Executed(m, c).0.paths == m.paths
  {
    if c.Create? { InsertExtends(m.paths, c.path); }
    if c.Add? { InsertExtends(m.paths, c.parent); }
  }

  // ---------- the files ----------

  /** Both files load, and the library file's items are in the path file. */
  ghost predicate FilesOk(pathFile: File, libFile: File) {
    && LoadedTable(pathFile).Ok? && Loaded(libFile).Ok?
    && WellKeyed(LoadedTable(pathFile).value.store)
    && EntriesOk(Loaded(libFile).value.entries, LoadedTable(pathFile).value.store)
  }

  ghost predicate Inv(w: World) {
    && StateOk(w.mgr)
    && FilesOk(w.pathFile, w.libFile)
    && var stored := LoadedTable(w.pathFile).value.store;
       && stored <= w.mgr.paths.store
       && (w.storing || !w.mgr.paths.modified ==> stored == w.mgr.paths.store)
  }

  lemma ReloadedOk(entries: seq<Store>, store: seq<Entry>)
    requires EntriesOk(entries, store)
    ensures EntriesOk(ReloadedAll(entries), store)
  {
    forall i | 0 <= i < |entries| ensures CacheOk(ReloadedAll(entries)[i].cache, store) {
      FirstOccurrencesAll(entries[i].cache.items);
    }
  }

  lemma WriteLibraryOk(w: World)
    requires Inv(w) && Enabled(w, WriteLibrary)
    ensures Inv(Following(w, WriteLibrary))
  {
    if w.mgr.lib.entries != [] {
      SaveThenLoad(w.mgr.lib, w.libFile);
      ReloadedOk(w.mgr.lib.entries, w.mgr.paths.store);
    }
  }

  lemma WritePathsOk(w: World)
    requires Inv(w) && Enabled(w, WritePaths)
    ensures Inv(Following(w, WritePaths))
  {
    TableRoundTrip(w.mgr.paths, w.pathFile);
    EntriesOkGrows(Loaded(w.libFile).value.entries, LoadedTable(w.pathFile).value.store, w.mgr.paths.store);
  }

  lemma LoadedUnmodified(file: File)
    requires LoadedTable(file).Ok?
    ensures !LoadedTable(file).value.modified
  {
  }

  lemma {:induction false} EventOk(w: World, e: Event)
    requires Inv(w) && Enabled(w, e)
    ensures Inv(Following(w, e))
  {
    match e {
      case Do(command) =>
        CommandOk(w.mgr, command);
        CommandExtendsPaths(w.mgr, command);
      case WritePaths => WritePathsOk(w);
      case WriteLibrary => WriteLibraryOk(w);
      case Restart => LoadedUnmodified(w.pathFile);
    }
  }

  lemma {:induction false} RunOk(worlds: seq<World>, events: seq<Event>, k: nat)
    requires IsRun(worlds, events) && k < |worlds|
    ensures Inv(worlds[k])
    decreases k
  {
    if k > 0 {
      RunOk(worlds, events, k - 1);
      EventOk(worlds[k - 1], events[k - 1]);
    }
  }

  // ---------- the claims over all runs ----------

  /** In memory and on disk, at every point of every run and after a crash at any point, each
      item's directory is found in the path table; so every `.value()` lookup is defined. */
  lemma ReferentialIntegrity(worlds: seq<World>, events: seq<Event>, k: nat)
    requires IsRun(worlds, events) && k < |worlds|
    ensures forall s, x :: s in worlds[k].mgr.lib.entries && x in s.cache.items ==> Get(worlds[k].mgr.paths, x.loc).Some?
    ensures forall i :: 0 <= i < |worlds[k].mgr.previous| ==> worlds[k].mgr.previous[i].path.Some?
    ensures LoadedTable(worlds[k].pathFile).Ok? && Loaded(worlds[k].libFile).Ok?
    ensures forall s, x :: s in Loaded(worlds[k].libFile).value.entries && x in s.cache.items ==>
              Get(LoadedTable(worlds[k].pathFile).value, x.loc).Some?
  {
    RunOk(worlds, events, k);
  }

  /** A restart is possible at every point of every run: neither load throws. */
  lemma RestartAlwaysPossible(worlds: seq<World>, events: seq<Event>, k: nat)
    requires IsRun(worlds, events) && k < |worlds|
    ensures Enabled(worlds[k], Restart)
  {
    RunOk(worlds, events, k);
  }

  // ---------- keys and their paths ----------

  /** The table that a restart would load. */
  ghost function StoredTable(w: World): PathTable
    requires LoadedTable(w.pathFile).Ok?
  {
    LoadedTable(w.pathFile).value
  }

  lemma KeyStays(t: PathTable, longer: PathTable, id: U32)
    requires t.store <= longer.store && HasKey(t.store, id)
    ensures HasKey(longer.store, id) && Get(longer, id) == Get(t, id)
  {
    assert longer.store == t.store + longer.store[|t.store|..];
    FindInLonger(t.store, longer.store[|t.store|..], id);
  }

  /** A bound key keeps its path through an event exactly when the event is no restart, or the key
      is in the path file by then. */
  lemma EventKeepsPathIff(w: World, e: Event, id: U32)
    requires Inv(w) && Enabled(w, e) && HasKey(w.mgr.paths.store, id)
    ensures Get(Following(w, e).mgr.paths, id) == Get(w.mgr.paths, id) <==>
            e != Restart || HasKey(StoredTable(w).store, id)
  {
    if e.Do? {
      CommandExtendsPaths(w.mgr, e.command);
      KeyStays(w.mgr.paths, Following(w, e).mgr.paths, id);
    }
    if HasKey(StoredTable(w).store, id) { KeyStays(StoredTable(w), w.mgr.paths, id); }
  }

  lemma EventKeepsStored(w: World, e: Event)
    requires Inv(w) && Enabled(w, e)
    ensures LoadedTable(Following(w, e).pathFile).Ok?
    ensures StoredTable(w).store <= StoredTable(Following(w, e)).store
  {
    if e.WritePaths? { TableRoundTrip(w.mgr.paths, w.pathFile); }
  }

  lemma StoredStep(worlds: seq<World>, events: seq<Event>, k: nat)
    requires IsRun(worlds, events) && k < |events|
    ensures LoadedTable(worlds[k].pathFile).Ok? && LoadedTable(worlds[k + 1].pathFile).Ok?
    ensures StoredTable(worlds[k]).store <= StoredTable(worlds[k + 1]).store
  {
    RunOk(worlds, events, k);
    EventKeepsStored(worlds[k], events[k]);
  }

  lemma StoredInMemory(worlds: seq<World>, events: seq<Event>, k: nat)
    requires IsRun(worlds, events) && k < |worlds|
    ensures LoadedTable(worlds[k].pathFile).Ok? && StoredTable(worlds[k]).store <= worlds[k].mgr.paths.store
  {
    RunOk(worlds, events, k);
  }

  /** The path file only ever grows, and the table in memory goes on from it. */
  lemma {:induction false} StoredKept(worlds: seq<World>, events: seq<Event>, j: nat, k: nat)
    requires IsRun(worlds, events) && j <= k < |worlds|
    ensures LoadedTable(worlds[j].pathFile).Ok? && LoadedTable(worlds[k].pathFile).Ok?
    ensures StoredTable(worlds[j]).store <= StoredTable(worlds[k]).store <= worlds[k].mgr.paths.store
    decreases k
  {
    StoredInMemory(worlds, events, k);
    if j < k {
      StoredKept(worlds, events, j, k - 1);
      StoredStep(worlds, events, k - 1);
    }
  }

  /** A key that was written once has the same path in all later states, in memory and in the file,
      through commands, stores, crashes and restarts. */
  lemma StoredPathsKept(worlds: seq<World>, events: seq<Event>, j: nat, k: nat, id: U32)
    requires IsRun(worlds, events) && j <= k < |worlds|
    ensures LoadedTable(worlds[j].pathFile).Ok? && LoadedTable(worlds[k].pathFile).Ok?
    ensures var path := Get(StoredTable(worlds[j]), id);
            path.Some? ==> Get(StoredTable(worlds[k]), id) == path && Get(worlds[k].mgr.paths, id) == path
  {
    StoredKept(worlds, events, j, k);
    if HasKey(StoredTable(worlds[j]).store, id) {
      KeyStays(StoredTable(worlds[j]), StoredTable(worlds[k]), id);
      KeyStays(StoredTable(worlds[k]), worlds[k].mgr.paths, id);
    }
  }

  /** Every item ever saved keeps its directory for ever. */
  lemma SavedItemsKeepDirectory(worlds: seq<World>, events: seq<Event>, j: nat, k: nat, s: Store, x: Item)
    requires IsRun(worlds, events) && j <= k < |worlds|
    requires Loaded(worlds[j].libFile).Ok? && s in Loaded(worlds[j].libFile).value.entries && x in s.cache.items
    ensures LoadedTable(worlds[j].pathFile).Ok? && LoadedTable(worlds[k].pathFile).Ok?
    ensures var path := Get(StoredTable(worlds[j]), x.loc);
            && path.Some? && Crc(path.value) == x.loc
            && Get(StoredTable(worlds[k]), x.loc) == path && Get(worlds[k].mgr.paths, x.loc) == path
  {
    ReferentialIntegrity(worlds, events, j);
    RunOk(worlds, events, j);
    StoredPathsKept(worlds, events, j, k, x.loc);
  }

  /** The key has its path in all of these states. */
  ghost predicate PathKept(worlds: seq<World>, j: nat, k: nat, id: U32)
    requires j <= k < |worlds|
  {
    forall i :: j <= i <= k ==> Get(worlds[i].mgr.paths, id) == Get(worlds[j].mgr.paths, id)
  }

  /** If the event is a restart, the key is in the path file. */
  ghost predicate WrittenBefore(w: World, e: Event, id: U32) {
    e == Restart ==> LoadedTable(w.pathFile).Ok? && HasKey(StoredTable(w).store, id)
  }

  ghost predicate WrittenInTime(worlds: seq<World>, events: seq<Event>, j: nat, k: nat, id: U32)
    requires j <= k <= |events| < |worlds|
  {
    forall i :: j <= i < k ==> WrittenBefore(worlds[i], events[i], id)
  }

  lemma PathStep(worlds: seq<World>, events: seq<Event>, k: nat, id: U32)
    requires IsRun(worlds, events) && k < |events| && Get(worlds[k].mgr.paths, id).Some?
    ensures Get(worlds[k + 1].mgr.paths, id) == Get(worlds[k].mgr.paths, id) <==> WrittenBefore(worlds[k], events[k], id)
  {
    RunOk(worlds, events, k);
    EventKeepsPathIff(worlds[k], events[k], id);
  }

  lemma PathKeptNext(worlds: seq<World>, j: nat, k: nat, id: U32)
    requires j <= k < |worlds| - 1
    ensures PathKept(worlds, j, k + 1, id) <==>
            PathKept(worlds, j, k, id) && Get(worlds[k + 1].mgr.paths, id) == Get(worlds[k].mgr.paths, id)
  {
    if PathKept(worlds, j, k + 1, id) {
      assert Get(worlds[k].mgr.paths, id) == Get(worlds[j].mgr.paths, id);
      assert Get(worlds[k + 1].mgr.paths, id) == Get(worlds[j].mgr.paths, id);
    }
  }

  /** A bound key keeps its path from one state to a later one exactly when it was written before
      the first restart in between. */
  lemma {:induction false} PathsKept(worlds: seq<World>, events: seq<Event>, j: nat, k: nat, id: U32)
    requires IsRun(worlds, events) && j <= k < |worlds|
    requires Get(worlds[j].mgr.paths, id).Some?
    ensures PathKept(worlds, j, k, id) <==> WrittenInTime(worlds, events, j, k, id)
    decreases k
  {
    if j < k {
      PathsKept(worlds, events, j, k - 1, id);
      PathKeptNext(worlds, j, k - 1, id);
      if PathKept(worlds, j, k - 1, id) {
        assert Get(worlds[k - 1].mgr.paths, id) == Get(worlds[j].mgr.paths, id);
        PathStep(worlds, events, k - 1, id);
      }
    }
  }

  /** A key that was not written is forgotten: create a collection and restart without a store. */
  lemma UnwrittenKeyForgotten(name: Text, path: Text, listing: seq<DirEntry>) returns (w: World, w': World)
    requires path != []
    ensures Reached(w) && Get(w.mgr.paths, Crc(path)) == Some(path)
    ensures Enabled(w, Restart) && w' == Following(w, Restart) && Get(w'.mgr.paths, Crc(path)) == None
  {
    var create := Do(Create(name, path, true, listing));
    ReachedStart();
    ReachedStep(FIRST_START, create);
    w := Following(FIRST_START, create);
    assert w.mgr.paths.store == [Entry(Crc(path), path)];
    w' := Following(w, Restart);
  }

  /** Along all runs names stay distinct, and keys are distinct and the checksums of their paths. */
  lemma NamesAndKeys(worlds: seq<World>, events: seq<Event>, k: nat)
    requires IsRun(worlds, events) && k < |worlds|
    ensures NamesDistinct(worlds[k].mgr.lib.entries) && WellKeyed(worlds[k].mgr.paths.store)
  {
    RunOk(worlds, events, k);
  }

  /** After a complete store a restart finds the same path table, and the library that was saved:
      every item list with repetitions collapsed, unless the library was empty. */
  lemma StoreThenRestart(worlds: seq<World>, events: seq<Event>, k: nat)
    requires IsRun(worlds, events) && k + 3 < |worlds|
    requires events[k] == WritePaths && events[k + 1] == WriteLibrary && events[k + 2] == Restart
    ensures worlds[k + 3].mgr.paths.store == worlds[k].mgr.paths.store
    ensures worlds[k].mgr.lib.entries != [] ==> worlds[k + 3].mgr.lib == Restored(worlds[k].mgr.lib)
    ensures worlds[k].mgr.lib.entries == [] ==> worlds[k + 3].mgr.lib == Loaded(worlds[k].libFile).value
    ensures worlds[k + 3].mgr.previous == []
  {
    RunOk(worlds, events, k + 1);
    assert worlds[k + 1] == Following(worlds[k], WritePaths);
    assert worlds[k + 2] == Following(worlds[k + 1], WriteLibrary);
    assert worlds[k + 3] == Following(worlds[k + 2], Restart);
    if worlds[k].mgr.lib.entries != [] { SaveThenLoad(worlds[k].mgr.lib, worlds[k].libFile); }
  }
}
