/**
 What runs of the manager keep beyond its safety: the cursor in step with the active name, and
 collections without repeated items.  Commands, stores and restarts are all covered, each with the
 exact condition under which it keeps the property.
 */
module SessionRuns {
  import opened Bits
  import opened Crc32
  import opened WallCache
  import opened CacheLibrary
  import opened LibraryRefinement
  import opened LibraryRuns
  import opened JsonHelper
  import opened Persistence
  import opened WallManager
  import opened Sessions
  import opened Storing

  /** Positions fit the 32 bits of the cursor. */
  ghost predicate Countable(w: World) {
    |w.mgr.lib.entries| <= TWO32
  }

  // ---------- the cursor ----------

  /** Whatever library was written, in a loaded one the cursor agrees with the active name. */
  ghost predicate FileAgrees(libFile: File) {
    libFile != Absent ==> Loaded(libFile).Ok? && CursorAgrees(Loaded(libFile).value)
  }

  lemma EventKeepsFile(w: World, e: Event)
    requires Enabled(w, e) && Countable(w) && FileAgrees(w.libFile)
    ensures FileAgrees(Following(w, e).libFile)
  {
    if e.WriteLibrary? && w.mgr.lib.entries != [] {
      SaveThenLoad(w.mgr.lib, w.libFile);
      ActiveRestoredIff(w.mgr.lib);
    }
  }

  lemma {:induction false} FileAlwaysAgrees(worlds: seq<World>, events: seq<Event>, k: nat)
    requires IsRun(worlds, events) && k < |worlds|
    requires forall i :: 0 <= i < k ==> Countable(worlds[i])
    ensures FileAgrees(worlds[k].libFile)
    decreases k
  {
    if k > 0 {
      FileAlwaysAgrees(worlds, events, k - 1);
      EventKeepsFile(worlds[k - 1], events[k - 1]);
    }
  }

  /** A forwarded operation must keep the cursor, and a restart must find a library file. */
  ghost predicate EventKeepsCursor(w: World, e: Event) {
    match e
    case Do(Forward(op)) => KeepsCursor(w.mgr.lib, op)
    case Restart => w.libFile != Absent
    case _ => true
  }

  lemma CommandKeepsCursor(m: ManagerState, c: Command)
    requires NamesDistinct(m.lib.entries) && CursorAgrees(m.lib)
    requires CanExecute(m, c) && !c.Forward?
    ensures CursorAgrees(Executed(m, c).0.lib)
  {
  }

  lemma EventKeepsCursorIff(w: World, e: Event)
    requires Sessions.Inv(w) && Enabled(w, e) && Countable(w) && FileAgrees(w.libFile) && CursorAgrees(w.mgr.lib)
    ensures CursorAgrees(Following(w, e).mgr.lib) <==> EventKeepsCursor(w, e)
  {
    match e {
      case Do(command) =>
        if command.Forward? {
          OperationKeepsCursorIff(w.mgr.lib, command.op);
        } else {
          CommandKeepsCursor(w.mgr, command);
        }
      case Restart =>
      case WritePaths =>
      case WriteLibrary =>
    }
  }

  lemma StepKeepsCursor(worlds: seq<World>, events: seq<Event>, k: nat)
    requires IsRun(worlds, events) && k < |events|
    requires forall i :: 0 <= i <= k ==> Countable(worlds[i])
    requires CursorAgrees(worlds[k].mgr.lib)
    ensures CursorAgrees(worlds[k + 1].mgr.lib) <==> EventKeepsCursor(worlds[k], events[k])
  {
    RunOk(worlds, events, k);
    FileAlwaysAgrees(worlds, events, k);
    EventKeepsCursorIff(worlds[k], events[k]);
  }

  /** Once an active collection is chosen, the name under the cursor is the active name through all
      commands, stores and restarts that meet the condition, over any number of sessions. */
  lemma {:induction false} CursorAcrossSessions(worlds: seq<World>, events: seq<Event>, j: nat, k: nat)
    requires IsRun(worlds, events) && j <= k < |worlds|
    requires CursorAgrees(worlds[j].mgr.lib)
    requires forall i :: 0 <= i < k ==> Countable(worlds[i])
    requires forall i :: j <= i < k ==> EventKeepsCursor(worlds[i], events[i])
    ensures CursorAgrees(worlds[k].mgr.lib)
    decreases k
  {
    if j < k {
      CursorAcrossSessions(worlds, events, j, k - 1);
      StepKeepsCursor(worlds, events, k - 1);
    }
  }

  // ---------- distinct items ----------

  ghost predicate ItemsDistinct(entries: seq<Store>) {
    forall i :: 0 <= i < |entries| ==> DistinctItems(entries[i].cache.items)
  }

  lemma ItemsDistinctIff(entries: seq<Store>)
    requires NamesDistinct(entries)
    ensures ItemsDistinct(entries) <==> AllDistinct(Meaning(entries))
  {
    if AllDistinct(Meaning(entries)) { DistinctEntries(entries); }
    if ItemsDistinct(entries) {
      forall name | name in Meaning(entries) ensures DistinctItems(Meaning(entries)[name]) {
        MeaningAt(entries, name);
      }
    }
  }

  lemma UpdateDistinctIff(entries: seq<Store>, i: nat, c: Cache)
    requires ItemsDistinct(entries) && i < |entries|
    ensures ItemsDistinct(WithCache(entries, i, c)) <==> DistinctItems(c.items)
  {
    var e := WithCache(entries, i, c);
    assert e[i].cache == c;
    assert forall k :: 0 <= k < |e| && k != i ==> e[k] == entries[k];
  }

  /** The item has the state already, or no other item is the same but for having it. */
  predicate NoTwinWith(items: seq<Item>, at: nat, state: CacheState)
    requires at < |items|
  {
    items[at].state == state || Item(items[at].value, state, items[at].loc) !in items
  }

  /** Merges must join disjoint collections, and showing or marking a wallpaper must not produce an
      item that is there already. */
  ghost predicate CommandKeepsDistinct(m: ManagerState, c: Command)
    requires CanExecute(m, c)
  {
    match c
    case Forward(op) => KeepsDistinct(Meaning(m.lib.entries), op)
    case NextWall(index) =>
      Exists(m.lib.entries, m.lib.active) ==>
        NoTwinWith(m.lib.entries[IndexOf(m.lib.entries, m.lib.active)].cache.items, index, Used)
    case MarkFavorate =>
      m.previous != [] ==>
        var items := m.lib.entries[m.lib.current].cache.items;
        NoTwinWith(items, FindValue(items, m.previous[|m.previous| - 1].wallpaper), Favorate)
    case _ => true
  }

  lemma CreateDistinct(m: ManagerState, c: Command)
    requires ItemsDistinct(m.lib.entries) && c.Create?
    ensures ItemsDistinct(Executed(m, c).0.lib.entries)
  {
    CollectedFiles(c.listing, Crc(c.path));
  }

  lemma AddDistinct(m: ManagerState, c: Command)
    requires ItemsDistinct(m.lib.entries) && c.Add?
    ensures ItemsDistinct(Executed(m, c).0.lib.entries)
  {
    if Exists(m.lib.entries, c.name) {
      var i := IndexOf(m.lib.entries, c.name);
      var cache := m.lib.entries[i].cache;
      InsertKeepsDistinct(cache, c.filename, Crc(c.parent));
      UpdateDistinctIff(m.lib.entries, i, WallCache.Inserted(cache, c.filename, Crc(c.parent)));
    }
  }

  lemma ForwardDistinctIff(m: ManagerState, op: Op)
    requires NamesDistinct(m.lib.entries) && ItemsDistinct(m.lib.entries)
    ensures ItemsDistinct(Apply(m.lib, op).0.entries) <==> KeepsDistinct(Meaning(m.lib.entries), op)
  {
    OperationRefines(m.lib, op);
    OperationKeepsDistinctIff(m.lib, op) by { ItemsDistinctIff(m.lib.entries); }
    ItemsDistinctIff(Apply(m.lib, op).0.entries);
  }

  lemma NewStateDistinctIff(entries: seq<Store>, i: nat, at: nat, state: CacheState)
    requires ItemsDistinct(entries) && i < |entries| && at < |entries[i].cache.items|
    ensures ItemsDistinct(WithCache(entries, i, Cache(true, WithState(entries[i].cache.items, at, state)))) <==>
            NoTwinWith(entries[i].cache.items, at, state)
  {
    StateKeepsDistinctIff(entries[i].cache.items, at, state);
    UpdateDistinctIff(entries, i, Cache(true, WithState(entries[i].cache.items, at, state)));
  }

  lemma CommandKeepsDistinctIff(m: ManagerState, c: Command)
    requires NamesDistinct(m.lib.entries) && ItemsDistinct(m.lib.entries) && CanExecute(m, c)
    ensures ItemsDistinct(Executed(m, c).0.lib.entries) <==> CommandKeepsDistinct(m, c)
  {
    var entries := m.lib.entries;
    match c {
      case Create(_, _, _, _) => CreateDistinct(m, c);
      case Add(_, _, _) => AddDistinct(m, c);
      case Forward(op) => ForwardDistinctIff(m, op);
      case NextWall(index) =>
        if Exists(entries, m.lib.active) {
          NewStateDistinctIff(entries, IndexOf(entries, m.lib.active), index, Used);
        }
      case MarkFavorate =>
        if m.previous != [] {
          var at := FindValue(entries[m.lib.current].cache.items, m.previous[|m.previous| - 1].wallpaper);
          NewStateDistinctIff(entries, m.lib.current, at, Favorate);
        }
      case PreviousWall =>
      case Validate(name) =>
        if Exists(entries, name) {
          var i := IndexOf(entries, name);
          UpdateDistinctIff(entries, i, Cache(true, entries[i].cache.items));
        }
    }
  }

  /** What the file holds has no repeated items, whatever library was written. */
  ghost predicate FileDistinct(libFile: File) {
    Loaded(libFile).Ok? && ItemsDistinct(Loaded(libFile).value.entries)
  }

  lemma RestoredDistinct(lib: Library)
    requires lib.current < |lib.entries|
    ensures ItemsDistinct(Restored(lib).entries)
  {
    forall i | 0 <= i < |lib.entries| ensures DistinctItems(Restored(lib).entries[i].cache.items) {
      FirstOccurrencesAll(lib.entries[i].cache.items);
    }
  }

  lemma {:induction false} FileAlwaysDistinct(worlds: seq<World>, events: seq<Event>, k: nat)
    requires IsRun(worlds, events) && k < |worlds|
    ensures FileDistinct(worlds[k].libFile)
    decreases k
  {
    if k > 0 {
      FileAlwaysDistinct(worlds, events, k - 1);
      var w, e := worlds[k - 1], events[k - 1];
      if e.WriteLibrary? && w.mgr.lib.entries != [] {
        SaveThenLoad(w.mgr.lib, w.libFile);
        RestoredDistinct(w.mgr.lib);
      }
    }
  }

  ghost predicate EventKeepsDistinct(w: World, e: Event)
    requires Enabled(w, e)
  {
    e.Do? ==> CommandKeepsDistinct(w.mgr, e.command)
  }

  lemma {:induction false} DistinctAcrossSessions(worlds: seq<World>, events: seq<Event>, k: nat)
    requires IsRun(worlds, events) && k < |worlds|
    requires forall i :: 0 <= i < k ==> EventKeepsDistinct(worlds[i], events[i])
    ensures ItemsDistinct(worlds[k].mgr.lib.entries)
    decreases k
  {
    if k > 0 {
      DistinctAcrossSessions(worlds, events, k - 1);
      RunOk(worlds, events, k - 1);
      FileAlwaysDistinct(worlds, events, k - 1);
      if events[k - 1].Do? { CommandKeepsDistinctIff(worlds[k - 1].mgr, events[k - 1].command); }
    }
  }

  /** A run that keeps both and stays fit to be stored can be stored and restarted at any point
      without loss: collections, items, their order, cursor and active name come back. */
  lemma LosslessRestart(worlds: seq<World>, events: seq<Event>, j: nat, k: nat)
    requires IsRun(worlds, events) && j <= k < |worlds|
    requires CursorAgrees(worlds[j].mgr.lib)
    requires forall i :: 0 <= i <= k ==> Countable(worlds[i])
    requires forall i :: 0 <= i < k ==> EventKeepsDistinct(worlds[i], events[i])
    requires forall i :: j <= i < k ==> EventKeepsCursor(worlds[i], events[i])
    requires EventsKeepStorable(worlds, events, k)
    ensures CanSerialize(worlds[k].mgr.lib)
    ensures ComesBack(worlds[k].mgr.lib, worlds[k].libFile)
  {
    RunOk(worlds, events, k);
    StoreDefined(worlds, events, k);
    FindModifiedIff(worlds[k].mgr.lib.entries);
    CursorAcrossSessions(worlds, events, j, k);
    DistinctAcrossSessions(worlds, events, k);
    RoundTripIdentityIff(worlds[k].mgr.lib, worlds[k].libFile);
  }

  // ---------- both are lost in some run ----------

  /** A command in a run. */
  lemma Command(w: World, c: Command) returns (w': World)
    requires Reached(w) && !w.storing && CanExecute(w.mgr, c)
    ensures Reached(w') && w' == w.(mgr := Executed(w.mgr, c).0)
  {
    ReachedStep(w, Do(c));
    w' := Following(w, Do(c));
  }

  lemma CreateEmpty(w: World, name: Text) returns (w': World)
    requires Reached(w) && !w.storing && !Exists(w.mgr.lib.entries, name)
    ensures Reached(w') && !w'.storing
    ensures w'.mgr.lib == w.mgr.lib.(entries := w.mgr.lib.entries + [Store(name, Cache(false, []))])
  {
    w' := Command(w, Create(name, [], false, []));
  }

  lemma RemoveFirst(lib: Library, a: Store, b: Store, c: Store)
    requires lib.entries == [a, b, c]
    ensures Remove(lib, a.name).0 == lib.(entries := [b, c])
  {
    assert lib.entries[0] == a && IndexOf(lib.entries, a.name) == 0;
  }

  lemma ThreeCollections(a: Text, b: Text, c: Text) returns (w: World)
    requires a != b && a != c && b != c
    ensures Reached(w) && !w.storing
    ensures w.mgr.lib == Library([Store(a, Cache(false, [])), Store(b, Cache(false, [])), Store(c, Cache(false, []))], 0, [])
  {
    ReachedStart();
    w := CreateEmpty(FIRST_START, a);
    w := CreateEmpty(w, b);
    w := CreateEmpty(w, c);
  }

  lemma ActivateSecond(w: World, b: Text) returns (w': World)
    requires Reached(w) && !w.storing && |w.mgr.lib.entries| > 1
    requires w.mgr.lib.entries[0].name != b && w.mgr.lib.entries[1].name == b
    ensures Reached(w') && !w'.storing && w'.mgr.lib == w.mgr.lib.(current := 1, active := b)
  {
    assert IndexOf(w.mgr.lib.entries, b) == 1;
    w' := Command(w, Forward(OpChangeActive(b)));
  }

  /** Three collections, the second one active: removing the first leaves the cursor on the third. */
  lemma CursorParts(a: Text, b: Text, c: Text) returns (w: World, w': World)
    requires a != b && a != c && b != c
    ensures Reached(w) && CursorAgrees(w.mgr.lib)
    ensures Enabled(w, Do(Forward(OpRemove(a)))) && w' == Following(w, Do(Forward(OpRemove(a))))
    ensures w'.mgr.lib.current == 1 && w'.mgr.lib.active == b && |w'.mgr.lib.entries| == 2
    ensures w'.mgr.lib.entries[1].name == c && !CursorAgrees(w'.mgr.lib)
  {
    w := ThreeCollections(a, b, c);
    w := ActivateSecond(w, b);
    RemoveFirst(w.mgr.lib, w.mgr.lib.entries[0], w.mgr.lib.entries[1], w.mgr.lib.entries[2]);
    w' := Following(w, Do(Forward(OpRemove(a))));
  }

  lemma TwoFiles(f: Text, g: Text, loc: U32)
    requires f != g
    ensures Collected([DirEntry(f, false), DirEntry(g, false)], loc) == Cache(true, [Item(f, Unused, loc), Item(g, Unused, loc)])
  {
    var listing := [DirEntry(f, false), DirEntry(g, false)];
    OneFile(f, loc);
    assert listing[..1] == [DirEntry(f, false)];
  }

  lemma CreateTwo(w: World, name: Text, path: Text, f: Text, g: Text) returns (w': World)
    requires Reached(w) && !w.storing && path != [] && f != g && !Exists(w.mgr.lib.entries, name)
    ensures Reached(w') && !w'.storing
    ensures w'.mgr.lib == w.mgr.lib.(entries := w.mgr.lib.entries +
              [Store(name, Cache(true, [Item(f, Unused, Crc(path)), Item(g, Unused, Crc(path))]))])
  {
    TwoFiles(f, g, Crc(path));
    w' := Command(w, Create(name, path, true, [DirEntry(f, false), DirEntry(g, false)]));
  }

  /** Showing a wallpaper of the first collection, which is the active one. */
  lemma ShowInFirst(w: World, index: nat, x: Text, items: seq<Item>, rest: seq<Store>) returns (w': World)
    requires Reached(w) && !w.storing && w.mgr.lib == Library([Store(x, Cache(true, items))] + rest, 0, x)
    requires index < |items| && items[index].state == Unused
    ensures Reached(w') && !w'.storing && Enabled(w, Do(NextWall(index))) && w' == Following(w, Do(NextWall(index)))
    ensures w'.mgr.lib == Library([Store(x, Cache(true, WithState(items, index, Used)))] + rest, 0, x)
  {
    assert w.mgr.lib.entries[0].name == x && IndexOf(w.mgr.lib.entries, x) == 0;
    w' := Command(w, NextWall(index));
  }

  lemma ActivateFirst(w: World, x: Text) returns (w': World)
    requires Reached(w) && !w.storing && w.mgr.lib.entries != [] && w.mgr.lib.entries[0].name == x
    ensures Reached(w') && !w'.storing && w'.mgr.lib == w.mgr.lib.(current := 0, active := x)
  {
    assert IndexOf(w.mgr.lib.entries, x) == 0;
    w' := Command(w, Forward(OpChangeActive(x)));
  }

  /** A collection of two files, active, the second one shown. */
  lemma SecondShown(x: Text, path: Text, f: Text, g: Text) returns (w: World)
    requires f != g && path != []
    ensures Reached(w) && !w.storing
    ensures w.mgr.lib == Library([Store(x, Cache(true, [Item(f, Unused, Crc(path)), Item(g, Used, Crc(path))]))], 0, x)
  {
    var items := [Item(f, Unused, Crc(path)), Item(g, Unused, Crc(path))];
    ReachedStart();
    w := CreateTwo(FIRST_START, x, path, f, g);
    w := ActivateFirst(w, x);
    assert [Store(x, Cache(true, items))] + [] == [Store(x, Cache(true, items))];
    w := ShowInFirst(w, 1, x, items, []);
    assert WithState(items, 1, Used) == [items[0], Item(g, Used, Crc(path))];
  }

  lemma SecondMoved(lib: Library, x: Text, y: Text, c: Cache, d: Cache, g: Text)
    requires x != y && x != g && lib.entries == [Store(x, c), Store(y, d)]
    requires |d.items| == 2 && d.items[0].value != g && d.items[1].value == g && d.items[1] !in c.items
    ensures MoveItem(lib, y, x, g).0 ==
            lib.(entries := [Store(x, Cache(true, c.items + [d.items[1]])), Store(y, Cache(true, [d.items[0]]))])
  {
    assert lib.entries[0].name == x && lib.entries[1].name == y;
    assert IndexOf(lib.entries, x) == 0 && IndexOf(lib.entries, y) == 1;
    assert FindValue(d.items, g) == 1;
    assert RemoveAt(d.items, 1) == [d.items[0]];
  }

  lemma MoveSecond(w: World, x: Text, y: Text, c: Cache, d: Cache, g: Text) returns (w': World)
    requires Reached(w) && !w.storing && x != y && x != g && w.mgr.lib.entries == [Store(x, c), Store(y, d)]
    requires |d.items| == 2 && d.items[0].value != g && d.items[1].value == g && d.items[1] !in c.items
    ensures Reached(w') && !w'.storing
    ensures w'.mgr.lib == w.mgr.lib.(entries := [Store(x, Cache(true, c.items + [d.items[1]])), Store(y, Cache(true, [d.items[0]]))])
  {
    SecondMoved(w.mgr.lib, x, y, c, d, g);
    w' := Command(w, Forward(OpMove(y, x, g)));
  }

  /** Next to the shown one, a second entry for the same file that is still unused. */
  lemma SecondTwice(x: Text, y: Text, path: Text, f: Text, g: Text) returns (w: World)
    requires x != y && x != g && f != g && path != []
    ensures Reached(w) && !w.storing && w.mgr.lib.current == 0 && w.mgr.lib.active == x
    ensures w.mgr.lib.entries ==
            [Store(x, Cache(true, [Item(f, Unused, Crc(path)), Item(g, Used, Crc(path)), Item(g, Unused, Crc(path))])),
             Store(y, Cache(true, [Item(f, Unused, Crc(path))]))]
  {
    var loc := Crc(path);
    var c, d := Cache(true, [Item(f, Unused, loc), Item(g, Used, loc)]), Cache(true, [Item(f, Unused, loc), Item(g, Unused, loc)]);
    w := SecondShown(x, path, f, g);
    w := CreateTwo(w, y, path, f, g);
    assert w.mgr.lib.entries == [Store(x, c), Store(y, d)];
    assert c.items + [d.items[1]] == [Item(f, Unused, loc), Item(g, Used, loc), Item(g, Unused, loc)];
    w := MoveSecond(w, x, y, c, d, g);
  }

  lemma ShownTwice(entries: seq<Store>, items: seq<Item>)
    requires entries != [] && |items| == 3 && items[1] == items[2] && entries[0].cache.items == items
    ensures !ItemsDistinct(entries)
  {
    assert !DistinctItems(entries[0].cache.items);
  }

  /** Two collections from one directory: show a wallpaper of the first, move the same one over from
      the second, and show that too.  Both entries are now the same item. */
  lemma TwinArises(x: Text, y: Text, path: Text, f: Text, g: Text) returns (w: World, w': World)
    requires x != y && x != g && f != g && path != []
    ensures Reached(w) && ItemsDistinct(w.mgr.lib.entries)
    ensures Enabled(w, Do(NextWall(2))) && w' == Following(w, Do(NextWall(2)))
    ensures w'.mgr.lib.entries != [] && !ItemsDistinct(w'.mgr.lib.entries)
    ensures w'.mgr.lib.entries[0].cache.items == [Item(f, Unused, Crc(path)), Item(g, Used, Crc(path)), Item(g, Used, Crc(path))]
  {
    var loc := Crc(path);
    var items := [Item(f, Unused, loc), Item(g, Used, loc), Item(g, Unused, loc)];
    var rest := [Store(y, Cache(true, [Item(f, Unused, loc)]))];
    w := SecondTwice(x, y, path, f, g);
    assert w.mgr.lib.entries == [Store(x, Cache(true, items))] + rest;
    w' := ShowInFirst(w, 2, x, items, rest);
    assert WithState(items, 2, Used) == [items[0], items[1], Item(g, Used, loc)];
    ShownTwice(w'.mgr.lib.entries, w'.mgr.lib.entries[0].cache.items);
  }
}
