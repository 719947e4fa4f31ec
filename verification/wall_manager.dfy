/**
 The commands of src/change_app/wall_manager.cpp over the library and the path table.

 The file system appears as arguments: whether a directory exists and what it lists, and whether
 a wallpaper file exists.  `next_wall` draws at random until it hits an unused item; the draws are
 an argument, and the command has the index that they end with.
 */
module WallManager {
  import opened Options
  import opened Bits
  import opened Crc32
  import opened WallCache
  import opened JsonHelper
  import opened CacheLibrary
  import opened Persistence
  import opened PathTables

  datatype DirEntry = DirEntry(filename: Text, isDirectory: bool)

  /** An entry of the history; the path is what the lookup in the path table gave. */
  datatype Shown = Shown(wallpaper: Text, path: Option<Text>, index: nat, collection: Text)

  datatype ManagerState = ManagerState(lib: Library, paths: PathTable, previous: seq<Shown>)

  datatype Command =
    | Create(name: Text, path: Text, found: bool, listing: seq<DirEntry>)
    | Add(name: Text, parent: Text, filename: Text)
    | Forward(op: Op)   // change_active, rename, merge, remove, remove item, move
    | NextWall(index: nat)
    | PreviousWall
    | MarkFavorate
    | Validate(name: Text)

  /** The files of a directory, each name once. */
  function Collected(listing: seq<DirEntry>, loc: U32): Cache {
    if listing == [] then Cache(false, [])
    else
      var c, last := Collected(listing[..|listing| - 1], loc), listing[|listing| - 1];
      if last.isDirectory then c else WallCache.Inserted(c, last.filename, loc)
  }

  function Created(m: ManagerState, name: Text, path: Text, found: bool, listing: seq<DirEntry>): (ManagerState, bool) {
    var scan := path != [] && found;
    var cache := if scan then Collected(listing, Crc(path)) else Cache(false, []);
    var (lib, outcome) := Insert(m.lib, name, cache);
    (m.(lib := lib, paths := if scan then PathInserted(m.paths, path) else m.paths), outcome == Done)
  }

  function Added(m: ManagerState, name: Text, parent: Text, filename: Text): (ManagerState, bool) {
    if !Exists(m.lib.entries, name) then (m, false)
    else
      var i := IndexOf(m.lib.entries, name);
      var cache := WallCache.Inserted(m.lib.entries[i].cache, filename, Crc(parent));
      (m.(lib := m.lib.(entries := WithCache(m.lib.entries, i, cache)), paths := PathInserted(m.paths, parent)), true)
  }

  function WithState(items: seq<Item>, at: nat, state: CacheState): seq<Item>
    requires at < |items|
  {
    items[at := items[at].(state := state)]
  }

  /** The item at `index` of the active collection becomes used and goes to the history. */
  function Next(m: ManagerState, index: nat): ManagerState
    requires CanExecute(m, NextWall(index))
  {
    var entries := m.lib.entries;
    if !Exists(entries, m.lib.active) then m
    else
      var i := IndexOf(entries, m.lib.active);
      var items := entries[i].cache.items;
      var shown := Shown(items[index].value, Get(m.paths, items[index].loc), index, m.lib.active);
      m.(lib := m.lib.(entries := WithCache(entries, i, Cache(true, WithState(items, index, Used)))),
         previous := m.previous + [shown])
  }

  /** The item shown last becomes a favourite in the collection under the cursor. */
  function Marked(m: ManagerState): ManagerState
    requires CanExecute(m, MarkFavorate)
  {
    if m.previous == [] then m
    else
      var i := m.lib.current;
      var items := m.lib.entries[i].cache.items;
      var at := FindValue(items, m.previous[|m.previous| - 1].wallpaper);
      m.(lib := m.lib.(entries := WithCache(m.lib.entries, i, Cache(true, WithState(items, at, Favorate)))))
  }

  /** Where the program has a defined effect: the drawn index is an unused item, and the item to
      mark is in the collection under the cursor. */
  predicate CanExecute(m: ManagerState, c: Command) {
    match c
    case NextWall(index) =>
      Exists(m.lib.entries, m.lib.active) ==>
        var items := m.lib.entries[IndexOf(m.lib.entries, m.lib.active)].cache.items;
        index < |items| && items[index].state == Unused
    case MarkFavorate =>
      m.previous != [] ==>
        && m.lib.current < |m.lib.entries|
        && Contains(m.lib.entries[m.lib.current].cache, m.previous[|m.previous| - 1].wallpaper)
    case Forward(op) => !op.OpInsert?
    case _ => true
  }

  function Executed(m: ManagerState, c: Command): (ManagerState, bool)
    requires CanExecute(m, c)
  {
    match c
    case Create(name, path, found, listing) => Created(m, name, path, found, listing)
    case Add(name, parent, filename) => Added(m, name, parent, filename)
    case Forward(op) => var (lib, outcome) := Apply(m.lib, op); (m.(lib := lib), outcome == Done)
    case NextWall(index) => (Next(m, index), true)
    case PreviousWall => (if m.previous == [] then m else m.(previous := m.previous[..|m.previous| - 1]), true)
    case MarkFavorate => (Marked(m), true)
    case Validate(name) =>
      // looking at the collection through a non-const reference marks it
      if Exists(m.lib.entries, name)
      then (m.(lib := m.lib.(entries := Touched(m.lib.entries, IndexOf(m.lib.entries, name)))), true)
      else (m, false)
  }

  // ---------- the object ----------

  /** The loop of `create_collection` over the directory. */
  method CollectFiles(listing: seq<DirEntry>, loc: U32) returns (c: Cache)
    ensures c == Collected(listing, loc)
  {
    var content := new CacheObject();
    for i := 0 to |listing|
      invariant content.Value() == Collected(listing[..i], loc)
      invariant fresh(content)
    {
      assert listing[..i + 1][..i] == listing[..i];
      if !listing[i].isDirectory {
        content.Insert(listing[i].filename, loc);
      }
    }
    assert listing[..|listing|] == listing;
    c := content.Value();
  }

  /** All draws before `hit` are in range and not unused, and draw `hit` is unused. */
  ghost predicate FirstHit(items: seq<Item>, draws: nat -> nat, hit: nat) {
    && (forall t :: 0 <= t <= hit ==> draws(t) < |items|)
    && (forall t :: 0 <= t < hit ==> items[draws(t)].state != Unused)
    && items[draws(hit)].state == Unused
  }

  /** The loop of `next_wall`. */
  method DrawUnused(items: seq<Item>, draws: nat -> nat, ghost hit: nat) returns (index: nat)
    requires FirstHit(items, draws, hit)
    ensures index == draws(hit)
  {
    var t := 0;
    index := draws(t);
    while items[index].state != Unused
      invariant t <= hit && index == draws(t)
      decreases hit - t
    {
      t := t + 1;
      index := draws(t);
    }
  }

  predicate AllHaveKeys(items: seq<Item>, store: seq<Entry>) {
    forall x :: x in items ==> HasKey(store, x.loc)
  }

  class Manager {
    const cache: CacheLib
    const pathBuf: PathTableObject
    var previous: seq<Shown>

    constructor (lib: CacheLib, table: PathTableObject)
      ensures cache == lib && pathBuf == table
      ensures Value() == ManagerState(lib.Value(), table.Value(), [])
    {
      cache := lib;
      pathBuf := table;
      previous := [];
    }

    function Value(): ManagerState
      reads this, cache, pathBuf
    {
      ManagerState(cache.Value(), pathBuf.Value(), previous)
    }

    method CreateCollection(name: Text, path: Text, found: bool, listing: seq<DirEntry>) returns (ok: bool)
      modifies cache, pathBuf
      ensures (Value(), ok) == Executed(old(Value()), Create(name, path, found, listing))
    {
      var content := Cache(false, []);
      if path != [] && found {
        var loc := ComputeCrc(path);
        content := CollectFiles(listing, loc);
        pathBuf.Insert(path);
      }
      var outcome := cache.InsertCache(name, content);
      ok := outcome == Done;
    }

    method AddToCollection(name: Text, parent: Text, filename: Text) returns (ok: bool)
      modifies cache, pathBuf
      ensures (Value(), ok) == Executed(old(Value()), Add(name, parent, filename))
    {
      var loc := ComputeCrc(parent);
      ok := cache.ExistsNamed(name);
      if ok {
        var i := IndexOf(cache.entries, name);
        cache.entries := WithCache(cache.entries, i, WallCache.Inserted(cache.entries[i].cache, filename, loc));
        pathBuf.Insert(parent);
      }
    }

    method ForwardOp(op: Op) returns (ok: bool)
      requires !op.OpInsert?
      modifies cache
      ensures (Value(), ok) == Executed(old(Value()), Forward(op))
    {
      var outcome;
      match op {
        case OpChangeActive(name) => outcome := cache.SetActive(name);
        case OpRename(fromName, toName) => outcome := cache.RenameStore(fromName, toName);
        case OpRemove(name) => outcome := cache.RemoveCache(name);
        case OpRemoveItem(name, item) => outcome := cache.RemoveCacheItem(name, item);
        case OpMerge(col1, col2) => outcome := cache.MergeCache(col1, col2);
        case OpMove(source, dest, item) => outcome := cache.MoveCacheItem(source, dest, item);
      }
      ok := outcome == Done;
    }

    /** `draws` are the random numbers in their order; draw number `hit` is the first unused item. */
    method ShowNext(draws: nat -> nat, ghost hit: nat)
      requires Exists(cache.entries, cache.active) ==>
                 FirstHit(cache.entries[IndexOf(cache.entries, cache.active)].cache.items, draws, hit)
      modifies this, cache
      ensures CanExecute(old(Value()), NextWall(draws(hit)))
      ensures Value() == Executed(old(Value()), NextWall(draws(hit))).0
    {
      var there := cache.ExistsNamed(cache.active);
      if there {
        var i := IndexOf(cache.entries, cache.active);
        var items := cache.entries[i].cache.items;
        var index := DrawUnused(items, draws, hit);
        cache.entries := WithCache(cache.entries, i, Cache(true, WithState(items, index, Used)));
        var path := pathBuf.Lookup(items[index].loc);
        previous := previous + [Shown(items[index].value, path, index, cache.active)];
      }
    }

    method ShowPrevious() returns (shown: Option<Shown>)
      modifies this
      ensures Value() == Executed(old(Value()), PreviousWall).0
      ensures old(previous) == [] ==> shown == None
      ensures old(previous) != [] ==> shown == Some(old(previous)[|old(previous)| - 1])
    {
      shown := None;
      if |previous| > 0 {
        shown := Some(previous[|previous| - 1]);
        previous := previous[..|previous| - 1];
      }
    }

    method MarkFavorateItem()
      requires CanExecute(Value(), MarkFavorate)
      modifies cache
      ensures Value() == Executed(old(Value()), MarkFavorate).0
    {
      if |previous| > 0 {
        var i := cache.current;
        var items := cache.entries[i].cache.items;
        var at := FindValue(items, previous[|previous| - 1].wallpaper);
        cache.entries := WithCache(cache.entries, i, Cache(true, WithState(items, at, Favorate)));
      }
    }

    /** Lists the wallpapers whose file is gone; every lookup must find its directory. */
    method ValidateCollection(name: Text, onDisk: (Text, Text) -> bool) returns (ok: bool, invalid: seq<Item>)
      requires Exists(cache.entries, name) ==> AllHaveKeys(cache.entries[IndexOf(cache.entries, name)].cache.items, pathBuf.store)
      modifies cache
      ensures (Value(), ok) == Executed(old(Value()), Validate(name))
      ensures ok ==> invalid == Missing(old(cache.entries[IndexOf(cache.entries, name)].cache.items), pathBuf.Value(), onDisk)
    {
      invalid := [];
      ok := cache.ExistsNamed(name);
      if ok {
        var i := IndexOf(cache.entries, name);
        var items := cache.entries[i].cache.items;
        cache.entries := Touched(cache.entries, i);
        invalid := FindMissing(items, onDisk);
      }
    }

    method FindMissing(items: seq<Item>, onDisk: (Text, Text) -> bool) returns (invalid: seq<Item>)
      requires AllHaveKeys(items, pathBuf.store)
      ensures invalid == Missing(items, pathBuf.Value(), onDisk)
    {
      invalid := [];
      for k := 0 to |items|
        invariant invalid == Missing(items[..k], pathBuf.Value(), onDisk)
      {
        assert items[..k + 1][..k] == items[..k];
        assert items[k] in items;
        var path := pathBuf.Lookup(items[k].loc);
        if !onDisk(path.value, items[k].value) {
          invalid := invalid + [items[k]];
        }
      }
      assert items[..|items|] == items;
    }

    /** The history file, which is never read again, then the path file, then the library file. */
    method Store(histFile: File, pathFile: File, libFile: File) returns (histFile': File, pathFile': File, libFile': File)
      requires CanSerialize(cache.Value())
      ensures histFile' == HistoryStored(previous, histFile)
      ensures pathFile' == Stored(pathBuf.Value(), pathFile)
      ensures libFile' == Serialized(cache.Value(), libFile)
    {
      histFile' := HistoryStored(previous, histFile);
      pathFile' := pathBuf.Store(pathFile);
      libFile' := Serialize(cache, libFile);
    }
  }

  function ShownToJson(s: Shown): Json {
    JObject(map["wallpaper" := JString(s.wallpaper),
                "path" := if s.path.Some? then JString(s.path.value) else JNull,
                "index" := JNumber(s.index),
                "collection" := JString(s.collection)])
  }

  /** An empty history is not written. */
  function HistoryStored(previous: seq<Shown>, file: File): File {
    if previous == [] then file
    else Holds(JObject(map["histoy" := JArray(seq(|previous|, i requires 0 <= i < |previous| => ShownToJson(previous[i])))]))
  }

  /** The item's directory is known and its file is not there. */
  predicate IsMissing(x: Item, paths: PathTable, onDisk: (Text, Text) -> bool) {
    Get(paths, x.loc).Some? && !onDisk(Get(paths, x.loc).value, x.value)
  }

  /** The items whose file does not exist in their directory. */
  function Missing(items: seq<Item>, paths: PathTable, onDisk: (Text, Text) -> bool): seq<Item> {
    if items == [] then []
    else
      var last := items[|items| - 1];
      Missing(items[..|items| - 1], paths, onDisk) + if IsMissing(last, paths, onDisk) then [last] else []
  }

  /** Each item counts as often as it is there if its file is missing, and not at all otherwise. */
  lemma {:induction false} MissingExactly(items: seq<Item>, paths: PathTable, onDisk: (Text, Text) -> bool, x: Item)
    ensures multiset(Missing(items, paths, onDisk))[x] == if IsMissing(x, paths, onDisk) then multiset(items)[x] else 0
  {
    if items != [] {
      var front, last := items[..|items| - 1], items[|items| - 1];
      MissingExactly(front, paths, onDisk, x);
      assert items == front + [last];
      CountSnoc(front, last, x);
      CountSnoc(Missing(front, paths, onDisk), last, x);
      assert Missing(front, paths, onDisk) + [] == Missing(front, paths, onDisk);
    }
  }

  lemma CountSnoc(items: seq<Item>, last: Item, x: Item)
    ensures multiset(items + [last])[x] == multiset(items)[x] + if last == x then 1 else 0
  {
    assert multiset(items + [last]) == multiset(items) + multiset{last};
  }

  // ---------- showing, then marking ----------

  /** The item at the index of this collection is now a favourite, and nothing else has changed. */
  ghost predicate ShownIsMarked(before: ManagerState, after: ManagerState, i: nat, index: nat)
    requires i < |before.lib.entries| && index < |before.lib.entries[i].cache.items|
  {
    after.lib == before.lib.(entries :=
      WithCache(before.lib.entries, i, Cache(true, WithState(before.lib.entries[i].cache.items, index, Favorate))))
  }

  lemma SetTwice(items: seq<Item>, index: nat, at: nat)
    requires index < |items| && at < |items|
    ensures WithState(WithState(items, index, Used), at, Favorate) == WithState(items, index, Favorate) <==> at == index
  {
    var twice, once := WithState(WithState(items, index, Used), at, Favorate), WithState(items, index, Favorate);
    assert once[index].state == Favorate;
    assert at != index ==> twice[index].state == Used;
    assert at == index ==> twice == once;
  }

  lemma FirstValue(items: seq<Item>, index: nat)
    requires index < |items|
    ensures FindValue(WithState(items, index, Used), items[index].value) == index <==>
            forall j :: 0 <= j < index ==> items[j].value != items[index].value
  {
    var shown := WithState(items, index, Used);
    assert forall j :: 0 <= j < |items| ==> shown[j].value == items[j].value;
  }

  /** Marking right after showing marks the shown item exactly when the cursor is on the active
      collection and no earlier item there has the same value. */
  lemma ShowThenMarkIff(m: ManagerState, index: nat)
    requires CanExecute(m, NextWall(index)) && Exists(m.lib.entries, m.lib.active)
    requires CanExecute(Executed(m, NextWall(index)).0, MarkFavorate)
    ensures var i := IndexOf(m.lib.entries, m.lib.active);
            var items := m.lib.entries[i].cache.items;
            ShownIsMarked(m, Executed(Executed(m, NextWall(index)).0, MarkFavorate).0, i, index) <==>
              m.lib.current == i && forall j :: 0 <= j < index ==> items[j].value != items[index].value
  {
    var i, c := IndexOf(m.lib.entries, m.lib.active), m.lib.current;
    var items := m.lib.entries[i].cache.items;
    var shown := Executed(m, NextWall(index)).0;
    var marked := Executed(shown, MarkFavorate).0;
    var at := FindValue(shown.lib.entries[c].cache.items, items[index].value);
    assert marked.lib.entries == WithCache(shown.lib.entries, c, Cache(true, WithState(shown.lib.entries[c].cache.items, at, Favorate)));
    if c == i {
      SetTwice(items, index, at);
      FirstValue(items, index);
      var once := Cache(true, WithState(items, index, Favorate));
      assert WithCache(m.lib.entries, i, once)[i].cache == once;
      assert at == index ==> marked.lib.entries == WithCache(m.lib.entries, i, once);
    } else {
      assert marked.lib.entries[i].cache.items[index].state == Used;
      assert WithState(items, index, Favorate)[index].state == Favorate;
    }
  }

  // ---------- distinctness ----------

  /** Setting the state of an item keeps a collection free of repetitions exactly when the item
      with that state was not there already in another place. */
  lemma StateKeepsDistinctIff(items: seq<Item>, at: nat, state: CacheState)
    requires at < |items| && DistinctItems(items)
    ensures DistinctItems(WithState(items, at, state)) <==>
            items[at].state == state || Item(items[at].value, state, items[at].loc) !in items
  {
    var now := Item(items[at].value, state, items[at].loc);
    var r := WithState(items, at, state);
    assert r[at] == now;
    assert forall i :: 0 <= i < |items| && i != at ==> r[i] == items[i];
    if items[at].state == state {
      assert r == items;
    } else if now in items {
      var j :| 0 <= j < |items| && items[j] == now;
      assert r[j] == now && j != at;
    }
  }

  /** A collection made from a directory has each of its files once, unused, and nothing else. */
  lemma {:induction false} CollectedFiles(listing: seq<DirEntry>, loc: U32)
    ensures DistinctValues(Collected(listing, loc).items)
    ensures forall x :: x in Collected(listing, loc).items <==>
              x.state == Unused && x.loc == loc && DirEntry(x.value, false) in listing
  {
    if listing != [] {
      var front, last := listing[..|listing| - 1], listing[|listing| - 1];
      CollectedFiles(front, loc);
      assert listing == front + [last];
      var c := Collected(front, loc);
      InsertKeepsDistinct(c, last.filename, loc);
      ContainsValue(c, last.filename);
      if !last.isDirectory && Contains(c, last.filename) {
        var i :| 0 <= i < |c.items| && c.items[i].value == last.filename;
        assert c.items[i] in c.items;
      }
    }
  }
}
