/**
 When `store` is defined.  `serialize` reads the collection under the cursor and the one that a
 search for a modified collection finds; neither needs to be there.  For each operation, command
 and event, and for whole runs, this module says exactly when both are.
 */
module Storing {
  import opened Bits
  import opened Crc32
  import opened WallCache
  import opened CacheLibrary
  import opened LibraryRefinement
  import opened LibraryRuns
  import opened JsonHelper
  import opened Persistence
  import opened WallManager
  import opened Sessions

  // ---------- the cursor ----------

  predicate InRange(lib: Library) {
    lib.current < |lib.entries|
  }

  /** A removal or merge takes place while the cursor is on the last position. */
  predicate DropsLast(lib: Library, op: Op) {
    && lib.current == |lib.entries| - 1
    && match op
       case OpRemove(name) => Exists(lib.entries, name)
       case OpMerge(col1, col2) => col1 != col2 && Exists(lib.entries, col1) && Exists(lib.entries, col2)
       case _ => false
  }

  lemma RemoveLength(lib: Library, name: Text)
    ensures |Remove(lib, name).0.entries| == |lib.entries| - if Exists(lib.entries, name) then 1 else 0
  {
  }

  lemma MergeLength(lib: Library, col1: Text, col2: Text)
    requires NamesDistinct(lib.entries) && MergeCaches(lib, col1, col2).1 == Done
    ensures |MergeCaches(lib, col1, col2).0.entries| == |lib.entries| - 1
    ensures |lib.entries| >= 2
  {
    MergedLast(lib, col1, col2);
  }

  /** An operation leaves the cursor in range exactly unless it drops a collection while the cursor
      is on the last one. */
  lemma OperationKeepsRangeIff(lib: Library, op: Op)
    requires NamesDistinct(lib.entries) && InRange(lib)
    ensures InRange(Apply(lib, op).0) <==> !DropsLast(lib, op)
  {
    match op {
      case OpRemove(name) => RemoveLength(lib, name);
      case OpMerge(col1, col2) => if MergeCaches(lib, col1, col2).1 == Done { MergeLength(lib, col1, col2); }
      case OpInsert(_, _) =>
      case OpChangeActive(_) =>
      case OpRename(_, _) =>
      case OpRemoveItem(_, _) =>
      case OpMove(_, _, _) =>
    }
  }

  /** In range, or at the start of an empty library, where the next collection will be. */
  predicate CursorSound(lib: Library) {
    InRange(lib) || (lib.entries == [] && lib.current == 0)
  }

  /** The removal of the only collection is harmless. */
  predicate KeepsSound(lib: Library, op: Op) {
    DropsLast(lib, op) ==> |lib.entries| == 1
  }

  lemma OperationKeepsSoundIff(lib: Library, op: Op)
    requires NamesDistinct(lib.entries) && CursorSound(lib)
    ensures CursorSound(Apply(lib, op).0) <==> KeepsSound(lib, op)
  {
    if InRange(lib) {
      OperationKeepsRangeIff(lib, op);
      match op {
        case OpRemove(name) => RemoveLength(lib, name);
        case OpMerge(col1, col2) => if MergeCaches(lib, col1, col2).1 == Done { MergeLength(lib, col1, col2); }
        case _ =>
      }
    }
  }

  /** Only forwarded operations can hurt: loading puts the cursor right. */
  ghost predicate EventKeepsSound(w: World, e: Event) {
    e.Do? && e.command.Forward? ==> KeepsSound(w.mgr.lib, e.command.op)
  }

  lemma CommandKeepsSound(m: ManagerState, c: Command)
    requires CursorSound(m.lib) && CanExecute(m, c) && !c.Forward?
    ensures CursorSound(Executed(m, c).0.lib)
  {
  }

  lemma LoadedSound(file: File)
    requires Loaded(file).Ok?
    ensures CursorSound(Loaded(file).value)
  {
  }

  lemma EventKeepsSoundIff(w: World, e: Event)
    requires NamesDistinct(w.mgr.lib.entries) && Enabled(w, e) && CursorSound(w.mgr.lib)
    ensures CursorSound(Following(w, e).mgr.lib) <==> EventKeepsSound(w, e)
  {
    match e {
      case Do(command) =>
        if command.Forward? { OperationKeepsSoundIff(w.mgr.lib, command.op); } else { CommandKeepsSound(w.mgr, command); }
      case Restart => LoadedSound(w.libFile);
      case WritePaths =>
      case WriteLibrary =>
    }
  }

  lemma SoundStep(worlds: seq<World>, events: seq<Event>, k: nat)
    requires IsRun(worlds, events) && k < |events| && CursorSound(worlds[k].mgr.lib)
    ensures CursorSound(worlds[k + 1].mgr.lib) <==> EventKeepsSound(worlds[k], events[k])
  {
    RunOk(worlds, events, k);
    EventKeepsSoundIff(worlds[k], events[k]);
  }

  ghost predicate AlwaysSound(worlds: seq<World>, k: nat)
    requires k < |worlds|
  {
    forall i :: 0 <= i <= k ==> CursorSound(worlds[i].mgr.lib)
  }

  ghost predicate EventsKeepSound(worlds: seq<World>, events: seq<Event>, k: nat)
    requires k <= |events| < |worlds|
  {
    forall i :: 0 <= i < k ==> EventKeepsSound(worlds[i], events[i])
  }

  /** The cursor is sound up to a point of a run exactly when no operation before it has dropped a
      collection while the cursor was on the last of several. */
  lemma {:induction false} SoundAlongRunIff(worlds: seq<World>, events: seq<Event>, k: nat)
    requires IsRun(worlds, events) && k < |worlds|
    ensures AlwaysSound(worlds, k) <==> EventsKeepSound(worlds, events, k)
    decreases k
  {
    if k > 0 {
      SoundAlongRunIff(worlds, events, k - 1);
      if AlwaysSound(worlds, k - 1) {
        assert CursorSound(worlds[k - 1].mgr.lib);
        SoundStep(worlds, events, k - 1);
      }
    }
  }

  // ---------- fit to be stored ----------

  /** Both of what `serialize` reads is there, and will be for a first collection. */
  predicate Storable(lib: Library) {
    CursorSound(lib) && ModifiedDefined(lib.entries)
  }

  lemma StorableCanSerialize(lib: Library)
    ensures Storable(lib) ==> CanSerialize(lib)
    ensures lib.entries != [] || lib.current == 0 ==> (CanSerialize(lib) <==> Storable(lib))
  {
  }

  /** A first collection must come with the flag, a removal must leave another modified collection
      or none at all, and neither a removal nor a merge may happen with the cursor on the last. */
  ghost predicate KeepsStorable(lib: Library, op: Op) {
    match op
    case OpInsert(name, cache) => lib.entries == [] ==> cache.modified
    case OpRemove(name) =>
      Exists(lib.entries, name) && |lib.entries| > 1 ==>
        && lib.current != |lib.entries| - 1
        && exists i :: 0 <= i < |lib.entries| && lib.entries[i].name != name && lib.entries[i].cache.modified
    case OpMerge(_, _) => !DropsLast(lib, op)
    case _ => true
  }

  lemma RemoveModifiedIff(lib: Library, name: Text)
    requires NamesDistinct(lib.entries) && Exists(lib.entries, name)
    ensures SomeModified(Remove(lib, name).0.entries) <==>
            exists i :: 0 <= i < |lib.entries| && lib.entries[i].name != name && lib.entries[i].cache.modified
  {
    var e, at := lib.entries, IndexOf(lib.entries, name);
    var rest := RemoveEntry(e, at);
    RemoveEntryAt(e, at);
    if SomeModified(rest) {
      var k :| 0 <= k < |rest| && rest[k].cache.modified;
      var i := if k < at then k else k + 1;
      assert e[i] == rest[k] && e[i].name != e[at].name;
    }
    if i :| 0 <= i < |e| && e[i].name != name && e[i].cache.modified {
      assert rest[if i < at then i else i - 1] == e[i];
    }
  }

  lemma RemoveStorableIff(lib: Library, name: Text)
    requires NamesDistinct(lib.entries) && Storable(lib)
    ensures Storable(Remove(lib, name).0) <==> KeepsStorable(lib, OpRemove(name))
  {
    if Exists(lib.entries, name) {
      RemoveModifiedIff(lib, name);
      RemoveLength(lib, name);
      FindModifiedIff(Remove(lib, name).0.entries);
    }
  }

  lemma MergedModified(lib: Library, col1: Text, col2: Text)
    requires NamesDistinct(lib.entries) && MergeCaches(lib, col1, col2).1 == Done
    ensures SomeModified(MergeCaches(lib, col1, col2).0.entries)
  {
    var e' := MergeCaches(lib, col1, col2).0.entries;
    MergedEntries(lib, col1, col2);
    assert e'[|e'| - 1].cache.modified;
  }

  lemma MergeStorableIff(lib: Library, col1: Text, col2: Text)
    requires NamesDistinct(lib.entries) && Storable(lib)
    ensures Storable(MergeCaches(lib, col1, col2).0) <==> KeepsStorable(lib, OpMerge(col1, col2))
  {
    var lib' := MergeCaches(lib, col1, col2).0;
    if MergeCaches(lib, col1, col2).1 == Done {
      MergeLength(lib, col1, col2);
      OperationKeepsSoundIff(lib, OpMerge(col1, col2));
      MergedModified(lib, col1, col2);
      FindModifiedIff(lib'.entries);
    }
  }

  /** Setting the flag of a collection, or leaving its cache alone, unsets none. */
  lemma UpdateStorable(lib: Library, i: nat, c: Cache)
    requires i < |lib.entries| && Storable(lib)
    requires c == lib.entries[i].cache || c.modified
    ensures Storable(lib.(entries := WithCache(lib.entries, i, c)))
  {
    var e := WithCache(lib.entries, i, c);
    FindModifiedIff(lib.entries);
    var k :| 0 <= k < |lib.entries| && lib.entries[k].cache.modified;
    assert e[k].cache.modified;
    FindModifiedIff(e);
  }

  lemma RenameStorable(lib: Library, fromName: Text, toName: Text)
    requires Storable(lib)
    ensures Storable(Rename(lib, fromName, toName).0)
  {
    var e, e' := lib.entries, Rename(lib, fromName, toName).0.entries;
    FindModifiedIff(e);
    if e != [] {
      var k :| 0 <= k < |e| && e[k].cache.modified;
      assert e'[k].cache == e[k].cache;
    }
    FindModifiedIff(e');
  }

  lemma MoveStorable(lib: Library, source: Text, dest: Text, item: Text)
    requires Storable(lib)
    ensures Storable(MoveItem(lib, source, dest, item).0)
  {
    if MoveItem(lib, source, dest, item).1 == Done {
      var s, d := IndexOf(lib.entries, source), IndexOf(lib.entries, dest);
      var items := lib.entries[s].cache.items;
      var at := FindValue(items, item);
      var grown := ElemInserted(lib.entries[d].cache, items[at]);
      UpdateStorable(lib, d, grown);
      UpdateStorable(lib.(entries := WithCache(lib.entries, d, grown)), s, Cache(true, RemoveAt(items, at)));
    }
  }

  lemma RemoveItemStorable(lib: Library, name: Text, item: Text)
    requires Storable(lib)
    ensures Storable(RemoveItem(lib, name, item).0)
  {
    if name != item && Exists(lib.entries, name) {
      var i := IndexOf(lib.entries, name);
      var items := lib.entries[i].cache.items;
      var at := FindValue(items, item);
      UpdateStorable(lib, i, Cache(true, if at == |items| then items else RemoveAt(items, at)));
    }
  }

  lemma InsertStorableIff(lib: Library, name: Text, cache: Cache)
    requires Storable(lib)
    ensures Storable(Insert(lib, name, cache).0) <==> KeepsStorable(lib, OpInsert(name, cache))
  {
    var e, e' := lib.entries, Insert(lib, name, cache).0.entries;
    FindModifiedIff(e);
    FindModifiedIff(e');
    if e != [] {
      var k :| 0 <= k < |e| && e[k].cache.modified;
      assert e'[k].cache.modified;
    } else {
      assert e' == [Store(name, cache)];
    }
  }

  lemma OperationKeepsStorableIff(lib: Library, op: Op)
    requires NamesDistinct(lib.entries) && Storable(lib)
    ensures Storable(Apply(lib, op).0) <==> KeepsStorable(lib, op)
  {
    match op {
      case OpInsert(name, cache) => InsertStorableIff(lib, name, cache);
      case OpRemove(name) => RemoveStorableIff(lib, name);
      case OpMerge(col1, col2) => MergeStorableIff(lib, col1, col2);
      case OpRename(fromName, toName) => RenameStorable(lib, fromName, toName);
      case OpRemoveItem(name, item) => RemoveItemStorable(lib, name, item);
      case OpMove(source, dest, item) => MoveStorable(lib, source, dest, item);
      case OpChangeActive(_) =>
    }
  }

  ghost predicate RunKeepsStorable(lib: Library, ops: seq<Op>)
    decreases |ops|
  {
    ops == [] || (KeepsStorable(lib, ops[0]) && RunKeepsStorable(Apply(lib, ops[0]).0, ops[1..]))
  }

  lemma {:induction false} StorableAlongRun(lib: Library, ops: seq<Op>)
    requires NamesDistinct(lib.entries) && Storable(lib) && RunKeepsStorable(lib, ops)
    ensures Storable(Run(lib, ops))
    decreases |ops|
  {
    if ops != [] {
      OperationKeepsStorableIff(lib, ops[0]);
      OperationRefines(lib, ops[0]);
      StorableAlongRun(Apply(lib, ops[0]).0, ops[1..]);
    }
  }

  /** A run from the empty library that inserts only distinct collections, merges only disjoint ones,
      stays fit to be stored and, once an active collection is chosen, keeps the cursor in step, can
      be saved and loaded without loss. */
  lemma {:induction false} RunThenRoundTrip(ops: seq<Op>, choose: Text, more: seq<Op>, file: File)
    requires var empty := Library([], 0, []);
             RunKeepsDistinct(empty, ops) && RunKeepsStorable(empty, ops)
    requires ChangeActive(Run(Library([], 0, []), ops), choose).1 == Done
    requires var lib := ChangeActive(Run(Library([], 0, []), ops), choose).0;
             && RunKeepsCursor(lib, more) && RunKeepsDistinct(lib, more) && RunKeepsStorable(lib, more)
             && |Run(lib, more).entries| <= TWO32
    ensures ComesBack(Run(ChangeActive(Run(Library([], 0, []), ops), choose).0, more), file)
  {
    var empty := Library([], 0, []);
    var first := Run(empty, ops);
    RunRefines(empty, ops);
    DistinctAlongRun(empty, ops);
    StorableAlongRun(empty, ops);
    ChangeActiveAgrees(first, choose);
    OperationKeepsStorableIff(first, OpChangeActive(choose));
    LastLeg(ChangeActive(first, choose).0, more, file);
  }

  lemma LastLeg(lib: Library, more: seq<Op>, file: File)
    requires NamesDistinct(lib.entries) && AllDistinct(Meaning(lib.entries)) && CursorAgrees(lib) && Storable(lib)
    requires RunKeepsCursor(lib, more) && RunKeepsDistinct(lib, more) && RunKeepsStorable(lib, more)
    requires |Run(lib, more).entries| <= TWO32
    ensures ComesBack(Run(lib, more), file)
  {
    var last := Run(lib, more);
    RunRefines(lib, more);
    DistinctAlongRun(lib, more);
    CursorAlongRun(lib, more);
    StorableAlongRun(lib, more);
    FindModifiedIff(last.entries);
    DistinctEntries(last.entries);
    RoundTripIdentityIff(last, file);
  }

  // ---------- commands and events ----------

  /** There is a directory and it has a file. */
  ghost predicate FindsFile(c: Command)
    requires c.Create?
  {
    c.path != [] && c.found && exists e :: e in c.listing && !e.isDirectory
  }

  lemma {:induction false} CollectedModifiedIff(listing: seq<DirEntry>, loc: U32)
    ensures Collected(listing, loc).modified <==> exists e :: e in listing && !e.isDirectory
    ensures Collected(listing, loc).items == [] <==> !Collected(listing, loc).modified
  {
    if listing != [] {
      var front, last := listing[..|listing| - 1], listing[|listing| - 1];
      CollectedModifiedIff(front, loc);
      assert listing == front + [last];
    }
  }

  /** The first collection must be made from a directory with a file. */
  ghost predicate CommandKeepsStorable(m: ManagerState, c: Command) {
    match c
    case Create(_, _, _, _) => m.lib.entries == [] ==> FindsFile(c)
    case Forward(op) => KeepsStorable(m.lib, op)
    case _ => true
  }

  lemma CreateStorableIff(m: ManagerState, c: Command)
    requires Storable(m.lib) && c.Create?
    ensures Storable(Executed(m, c).0.lib) <==> CommandKeepsStorable(m, c)
  {
    CollectedModifiedIff(c.listing, Crc(c.path));
    InsertStorableIff(m.lib, c.name, if c.path != [] && c.found then Collected(c.listing, Crc(c.path)) else Cache(false, []));
  }

  lemma AddStorable(m: ManagerState, c: Command)
    requires Storable(m.lib) && c.Add?
    ensures Storable(Executed(m, c).0.lib)
  {
    if Exists(m.lib.entries, c.name) {
      var i := IndexOf(m.lib.entries, c.name);
      UpdateStorable(m.lib, i, WallCache.Inserted(m.lib.entries[i].cache, c.filename, Crc(c.parent)));
    }
  }

  lemma ShowStorable(m: ManagerState, index: nat)
    requires Storable(m.lib) && CanExecute(m, NextWall(index))
    ensures Storable(Executed(m, NextWall(index)).0.lib)
  {
    if Exists(m.lib.entries, m.lib.active) {
      var i := IndexOf(m.lib.entries, m.lib.active);
      UpdateStorable(m.lib, i, Cache(true, WithState(m.lib.entries[i].cache.items, index, Used)));
    }
  }

  lemma MarkStorable(m: ManagerState)
    requires Storable(m.lib) && CanExecute(m, MarkFavorate)
    ensures Storable(Executed(m, MarkFavorate).0.lib)
  {
    if m.previous != [] {
      var items := m.lib.entries[m.lib.current].cache.items;
      var at := FindValue(items, m.previous[|m.previous| - 1].wallpaper);
      UpdateStorable(m.lib, m.lib.current, Cache(true, WithState(items, at, Favorate)));
    }
  }

  lemma CommandKeepsStorableIff(m: ManagerState, c: Command)
    requires NamesDistinct(m.lib.entries) && Storable(m.lib) && CanExecute(m, c)
    ensures Storable(Executed(m, c).0.lib) <==> CommandKeepsStorable(m, c)
  {
    match c {
      case Create(_, _, _, _) => CreateStorableIff(m, c);
      case Add(_, _, _) => AddStorable(m, c);
      case Forward(op) => OperationKeepsStorableIff(m.lib, op);
      case NextWall(index) => ShowStorable(m, index);
      case MarkFavorate => MarkStorable(m);
      case PreviousWall =>
      case Validate(name) =>
        if Exists(m.lib.entries, name) {
          var i := IndexOf(m.lib.entries, name);
          UpdateStorable(m.lib, i, Cache(true, m.lib.entries[i].cache.items));
        }
    }
  }

  /** A loaded collection is modified exactly when it has items. */
  ghost predicate FlagsExact(entries: seq<Store>) {
    forall i :: 0 <= i < |entries| ==> (entries[i].cache.modified <==> entries[i].cache.items != [])
  }

  lemma ReloadedFlags(entries: seq<Store>)
    ensures FlagsExact(ReloadedAll(entries))
  {
    forall i | 0 <= i < |entries|
      ensures ReloadedAll(entries)[i].cache.modified <==> ReloadedAll(entries)[i].cache.items != []
    {
      FirstOccurrencesAll(entries[i].cache.items);
      if entries[i].cache.items != [] { assert entries[i].cache.items[0] in FirstOccurrences(entries[i].cache.items); }
    }
  }

  lemma FileFlagsStep(w: World, e: Event)
    requires Enabled(w, e) && Loaded(w.libFile).Ok? && FlagsExact(Loaded(w.libFile).value.entries)
    ensures Loaded(Following(w, e).libFile).Ok? && FlagsExact(Loaded(Following(w, e).libFile).value.entries)
  {
    if e.WriteLibrary? && w.mgr.lib.entries != [] {
      SaveThenLoad(w.mgr.lib, w.libFile);
      ReloadedFlags(w.mgr.lib.entries);
    }
  }

  lemma {:induction false} FileFlags(worlds: seq<World>, events: seq<Event>, k: nat)
    requires IsRun(worlds, events) && k < |worlds|
    ensures Loaded(worlds[k].libFile).Ok? && FlagsExact(Loaded(worlds[k].libFile).value.entries)
    decreases k
  {
    if k > 0 {
      FileFlags(worlds, events, k - 1);
      FileFlagsStep(worlds[k - 1], events[k - 1]);
    }
  }

  /** The file has no library, or one with an item. */
  ghost predicate FileHasItem(libFile: File)
    requires Loaded(libFile).Ok?
  {
    var entries := Loaded(libFile).value.entries;
    entries == [] || exists i :: 0 <= i < |entries| && entries[i].cache.items != []
  }

  /** Right after a restart `store` is defined exactly when some collection has an item, or there is
      no collection at all. */
  lemma RestartStorableIff(worlds: seq<World>, events: seq<Event>, k: nat)
    requires IsRun(worlds, events) && k < |worlds|
    ensures Enabled(worlds[k], Restart)
    ensures CanSerialize(Following(worlds[k], Restart).mgr.lib) <==> FileHasItem(worlds[k].libFile)
    ensures Storable(Following(worlds[k], Restart).mgr.lib) <==> FileHasItem(worlds[k].libFile)
  {
    RestartAlwaysPossible(worlds, events, k);
    FileFlags(worlds, events, k);
    var lib := Loaded(worlds[k].libFile).value;
    LoadedSound(worlds[k].libFile);
    FindModifiedIff(lib.entries);
    StorableCanSerialize(lib);
  }

  ghost predicate EventKeepsStorable(w: World, e: Event) {
    match e
    case Do(command) => CommandKeepsStorable(w.mgr, command)
    case Restart => Loaded(w.libFile).Ok? && FileHasItem(w.libFile)
    case _ => true
  }

  lemma StorableStep(worlds: seq<World>, events: seq<Event>, k: nat)
    requires IsRun(worlds, events) && k < |events| && Storable(worlds[k].mgr.lib)
    ensures Storable(worlds[k + 1].mgr.lib) <==> EventKeepsStorable(worlds[k], events[k])
  {
    RunOk(worlds, events, k);
    RestartStorableIff(worlds, events, k);
    if events[k].Do? { CommandKeepsStorableIff(worlds[k].mgr, events[k].command); }
  }

  ghost predicate AlwaysStorable(worlds: seq<World>, k: nat)
    requires k < |worlds|
  {
    forall i :: 0 <= i <= k ==> Storable(worlds[i].mgr.lib)
  }

  ghost predicate EventsKeepStorable(worlds: seq<World>, events: seq<Event>, k: nat)
    requires k <= |events| < |worlds|
  {
    forall i :: 0 <= i < k ==> EventKeepsStorable(worlds[i], events[i])
  }

  lemma {:induction false} StorableAlongRunIff(worlds: seq<World>, events: seq<Event>, k: nat)
    requires IsRun(worlds, events) && k < |worlds|
    ensures AlwaysStorable(worlds, k) <==> EventsKeepStorable(worlds, events, k)
    decreases k
  {
    if k > 0 {
      StorableAlongRunIff(worlds, events, k - 1);
      if AlwaysStorable(worlds, k - 1) {
        assert Storable(worlds[k - 1].mgr.lib);
        StorableStep(worlds, events, k - 1);
      }
    }
  }

  /** An operation that leaves no collection leaves a sound cursor. */
  lemma OperationEmptiesSound(lib: Library, op: Op)
    requires NamesDistinct(lib.entries) && CursorSound(lib) && Apply(lib, op).0.entries == []
    ensures KeepsSound(lib, op)
  {
    match op {
      case OpRemove(name) => RemoveLength(lib, name);
      case OpMerge(col1, col2) => if MergeCaches(lib, col1, col2).1 == Done { MergeLength(lib, col1, col2); }
      case _ =>
    }
  }

  /** So an empty library with the cursor elsewhere only comes from a state that is not sound. */
  lemma EmptiedSound(worlds: seq<World>, events: seq<Event>, k: nat)
    requires IsRun(worlds, events) && k < |events|
    requires CursorSound(worlds[k].mgr.lib) && worlds[k + 1].mgr.lib.entries == []
    ensures CursorSound(worlds[k + 1].mgr.lib)
  {
    SoundStep(worlds, events, k);
    RunOk(worlds, events, k);
    var e := events[k];
    if e.Do? && e.command.Forward? { OperationEmptiesSound(worlds[k].mgr.lib, e.command.op); }
  }

  ghost predicate AlwaysDefined(worlds: seq<World>, k: nat)
    requires k < |worlds|
  {
    forall i :: 0 <= i <= k ==> CanSerialize(worlds[i].mgr.lib)
  }

  lemma DefinedSound(lib: Library)
    requires CanSerialize(lib) && (lib.entries == [] ==> CursorSound(lib))
    ensures Storable(lib)
  {
  }

  lemma StorableIfDefined(worlds: seq<World>, events: seq<Event>, k: nat)
    requires IsRun(worlds, events) && k < |events|
    requires Storable(worlds[k].mgr.lib) && CanSerialize(worlds[k + 1].mgr.lib)
    ensures Storable(worlds[k + 1].mgr.lib)
  {
    if worlds[k + 1].mgr.lib.entries == [] { EmptiedSound(worlds, events, k); }
    DefinedSound(worlds[k + 1].mgr.lib);
  }

  lemma {:induction false} AlwaysStorableIff(worlds: seq<World>, events: seq<Event>, k: nat)
    requires IsRun(worlds, events) && k < |worlds|
    ensures AlwaysDefined(worlds, k) <==> AlwaysStorable(worlds, k)
    decreases k
  {
    if k > 0 {
      AlwaysStorableIff(worlds, events, k - 1);
      if AlwaysDefined(worlds, k) { StorableIfDefined(worlds, events, k - 1); }
    }
    if AlwaysStorable(worlds, k) { StorableCanSerialize(worlds[k].mgr.lib); }
  }

  /** `store` is defined at every point of a run exactly when every event meets its condition: the
      first collection has a file, a removal leaves another modified collection, no removal or merge
      happens with the cursor on the last collection, and what is loaded has an item. */
  lemma StoreDefined(worlds: seq<World>, events: seq<Event>, k: nat)
    requires IsRun(worlds, events) && k < |worlds|
    ensures AlwaysDefined(worlds, k) <==> EventsKeepStorable(worlds, events, k)
    ensures AlwaysStorable(worlds, k) <==> EventsKeepStorable(worlds, events, k)
  {
    StorableAlongRunIff(worlds, events, k);
    AlwaysStorableIff(worlds, events, k);
  }

  // ---------- both failures happen ----------

  /** After creating one collection without a directory, the search for a modified collection finds
      none and its result is read all the same. */
  lemma StoreUndefinedForFreshCollection(name: Text)
    ensures var w := Following(FIRST_START, Do(Create(name, [], false, [])));
            && IsRun([FIRST_START, w], [Do(Create(name, [], false, []))])
            && w.mgr.lib.entries != [] && FindModified(w.mgr.lib.entries) == |w.mgr.lib.entries|
            && !CanSerialize(w.mgr.lib)
  {
    var w := Following(FIRST_START, Do(Create(name, [], false, [])));
    assert w.mgr.lib.entries == [Store(name, Cache(false, []))];
  }

  lemma OneFile(file: Text, loc: U32)
    ensures Collected([DirEntry(file, false)], loc) == Cache(true, [Item(file, Unused, loc)])
  {
    assert [DirEntry(file, false)][..0] == [];
  }

  /** Creating a collection from a directory with one file. */
  lemma CreateOne(w: World, name: Text, path: Text, file: Text) returns (w': World)
    requires Reached(w) && !w.storing && path != [] && !Exists(w.mgr.lib.entries, name)
    ensures Reached(w') && !w'.storing
    ensures w'.mgr.lib == w.mgr.lib.(entries := w.mgr.lib.entries + [Store(name, Cache(true, [Item(file, Unused, Crc(path))]))])
  {
    var e := Do(Create(name, path, true, [DirEntry(file, false)]));
    OneFile(file, Crc(path));
    ReachedStep(w, e);
    w' := Following(w, e);
  }

  /** Two collections, the second made active, and removed: one modified collection is left, and the
      cursor is past it. */
  lemma StoreUndefinedPastTheEnd(a: Text, b: Text, path: Text, file: Text) returns (w: World)
    requires a != b && path != []
    ensures Reached(w) && w.mgr.lib.entries != []
    ensures SomeModified(w.mgr.lib.entries) && !InRange(w.mgr.lib) && !CanSerialize(w.mgr.lib)
  {
    ReachedStart();
    var w1 := CreateOne(FIRST_START, a, path, file);
    var w2 := CreateOne(w1, b, path, file);
    var lib := w2.mgr.lib;
    assert lib.entries[0].name == a && lib.entries[1].name == b;
    assert IndexOf(lib.entries, b) == 1;
    var activate, remove := Do(Forward(OpChangeActive(b))), Do(Forward(OpRemove(b)));
    ReachedStep(w2, activate);
    var w3 := Following(w2, activate);
    assert w3.mgr.lib == lib.(current := 1, active := b);
    ReachedStep(w3, remove);
    w := Following(w3, remove);
    assert w.mgr.lib.entries == [lib.entries[0]];
    assert w.mgr.lib.entries[0].cache.modified;
  }
}
