/**
 The table of directories: src/change_lib/path_table.cpp.

 A directory is stored once, under the checksum of its path; items refer to it by that key.
 */
module PathTables {
  import opened Options
  import opened Bits
  import opened Crc32
  import opened WallCache
  import opened JsonHelper
  import opened Persistence

  datatype Entry = Entry(key: U32, path: Text)

  datatype PathTable = PathTable(store: seq<Entry>, modified: bool)

  /** `std::ranges::find` over the keys. */
  function Find(store: seq<Entry>, id: U32): (i: nat)
    ensures i <= |store|
    ensures forall j :: 0 <= j < i ==> store[j].key != id
    ensures i < |store| ==> store[i].key == id
  {
    if store == [] || store[0].key == id then 0 else 1 + Find(store[1..], id)
  }

  predicate HasKey(store: seq<Entry>, id: U32) {
    Find(store, id) < |store|
  }

  function Get(t: PathTable, id: U32): Option<Text> {
    if HasKey(t.store, id) then Some(t.store[Find(t.store, id)].path) else None
  }

  function PathInserted(t: PathTable, path: Text): PathTable {
    if HasKey(t.store, Crc(path)) then t else PathTable(t.store + [Entry(Crc(path), path)], true)
  }

  function PathsInserted(t: PathTable, paths: seq<Text>): PathTable
    decreases |paths|
  {
    if paths == [] then t else PathsInserted(PathInserted(t, paths[0]), paths[1..])
  }

  // ---------- the file ----------

  /** A pair is written as an array of two. */
  function EntryToJson(e: Entry): Json {
    JArray([JNumber(e.key), JString(e.path)])
  }

  function EntryFromJson(j: Json): Parsed<Entry> {
    if j.JArray? && |j.elems| >= 2 && j.elems[0].JNumber? && j.elems[1].JString? then
      Ok(Entry(j.elems[0].n % TWO32, j.elems[1].s))
    else Throws
  }

  function EntriesToJson(store: seq<Entry>): seq<Json> {
    if store == [] then [] else [EntryToJson(store[0])] + EntriesToJson(store[1..])
  }

  function EntriesFromJson(elems: seq<Json>): Parsed<seq<Entry>> {
    if elems == [] then Ok([])
    else
      match (EntryFromJson(elems[0]), EntriesFromJson(elems[1..]))
      case (Ok(e), Ok(rest)) => Ok([e] + rest)
      case _ => Throws
  }

  function TableToJson(store: seq<Entry>): Json {
    JObject(map["entries" := JArray(EntriesToJson(store))])
  }

  /** Only a modified table is written. */
  function Stored(t: PathTable, file: File): File {
    if t.modified then Holds(TableToJson(t.store)) else file
  }

  function LoadedTable(file: File): Parsed<PathTable> {
    match file
    case Absent => Ok(PathTable([], false))
    case Holds(JNull) => Ok(PathTable([], false))
    case Holds(JObject(f)) =>
      if "entries" in f && f["entries"].JArray? then
        match EntriesFromJson(f["entries"].elems)
        case Throws => Throws
        case Ok(store) => Ok(PathTable(store, false))
      else Throws
    case Holds(_) => Throws
  }

  class PathTableObject {
    var store: seq<Entry>
    var modified: bool

    constructor (content: PathTable)
      ensures Value() == content
    {
      store := content.store;
      modified := content.modified;
    }

    function Value(): PathTable
      reads this
    {
      PathTable(store, modified)
    }

    method Insert(path: Text)
      modifies this
      ensures Value() == PathInserted(old(Value()), path)
    {
      var hash := ComputeCrc(path);
      if !HasKey(store, hash) {
        modified := true;
        store := store + [Entry(hash, path)];
      }
    }

    method Lookup(id: U32) returns (path: Option<Text>)
      ensures path == Get(Value(), id)
    {
      path := None;
      if HasKey(store, id) {
        path := Some(store[Find(store, id)].path);
      }
    }

    method Store(file: File) returns (file': File)
      ensures file' == Stored(Value(), file)
    {
      file' := file;
      if modified {
        file' := Holds(TableToJson(store));
      }
    }
  }

  // ---------- what the table keeps ----------

  /** Keys are pairwise distinct and each is the checksum of its path. */
  ghost predicate WellKeyed(store: seq<Entry>) {
    && (forall i, j :: 0 <= i < j < |store| ==> store[i].key != store[j].key)
    && (forall i :: 0 <= i < |store| ==> store[i].key == Crc(store[i].path))
  }

  lemma {:induction false} FindInLonger(store: seq<Entry>, more: seq<Entry>, id: U32)
    requires HasKey(store, id)
    ensures Find(store + more, id) == Find(store, id)
  {
    if store[0].key != id {
      assert (store + more)[1..] == store[1..] + more;
      FindInLonger(store[1..], more, id);
    }
  }

  lemma InsertExtends(t: PathTable, path: Text)
    ensures t.store <= PathInserted(t, path).store
    ensures WellKeyed(t.store) ==> WellKeyed(PathInserted(t, path).store)
    ensures HasKey(PathInserted(t, path).store, Crc(path))
    ensures PathInserted(t, path).modified == t.modified ==> PathInserted(t, path).store == t.store || t.modified
  {
    if !HasKey(t.store, Crc(path)) {
      assert PathInserted(t, path).store[|t.store|].key == Crc(path);
    }
  }

  /** Along any run of insertions keys stay well formed, and a key once bound keeps its path. */
  lemma {:induction false} BoundForever(t: PathTable, paths: seq<Text>, id: U32)
    requires WellKeyed(t.store)
    ensures t.store <= PathsInserted(t, paths).store
    ensures WellKeyed(PathsInserted(t, paths).store)
    ensures Get(t, id).Some? ==> Get(PathsInserted(t, paths), id) == Get(t, id)
    decreases |paths|
  {
    if paths != [] {
      var next := PathInserted(t, paths[0]);
      InsertExtends(t, paths[0]);
      if HasKey(t.store, id) {
        FindInLonger(t.store, next.store[|t.store|..], id);
        assert next.store == t.store + next.store[|t.store|..];
      }
      BoundForever(next, paths[1..], id);
    }
  }

  lemma InsertTwice(t: PathTable, path: Text)
    ensures PathInserted(PathInserted(t, path), path) == PathInserted(t, path)
  {
    InsertExtends(t, path);
  }

  /** A lookup after an insertion gives a path with the same checksum, and gives the inserted path
      exactly when no other path with that checksum was there before. */
  lemma LookupAfterInsert(t: PathTable, path: Text)
    requires WellKeyed(t.store)
    ensures var found := Get(PathInserted(t, path), Crc(path));
            && found.Some? && Crc(found.value) == Crc(path)
            && (found.value == path <==>
                forall i :: 0 <= i < |t.store| && Crc(t.store[i].path) == Crc(path) ==> t.store[i].path == path)
  {
    InsertExtends(t, path);
    var store := PathInserted(t, path).store;
    var at := Find(store, Crc(path));
    if !HasKey(t.store, Crc(path)) {
      assert forall i :: 0 <= i < |t.store| ==> t.store[i].key != Crc(path);
      assert at == |t.store|;
    }
  }

  lemma EntryRoundTrip(e: Entry)
    ensures EntryFromJson(EntryToJson(e)) == Ok(e)
  {
  }

  lemma {:induction false} EntriesRoundTrip(store: seq<Entry>)
    ensures EntriesFromJson(EntriesToJson(store)) == Ok(store)
  {
    if store != [] {
      EntryRoundTrip(store[0]);
      EntriesRoundTrip(store[1..]);
      assert EntriesToJson(store)[1..] == EntriesToJson(store[1..]);
      assert [store[0]] + store[1..] == store;
    }
  }

  /** The file has one array of two for each entry, in order: the key and the path. */
  ghost predicate TableDescribed(j: Json, store: seq<Entry>) {
    && j.JObject? && j.fields.Keys == {"entries"} && j.fields["entries"].JArray?
    && PairsDescribed(j.fields["entries"].elems, store)
  }

  ghost predicate PairsDescribed(elems: seq<Json>, store: seq<Entry>) {
    |elems| == |store| && forall i :: 0 <= i < |store| ==> elems[i] == JArray([JNumber(store[i].key), JString(store[i].path)])
  }

  lemma {:induction false} PairsInOrder(store: seq<Entry>)
    ensures PairsDescribed(EntriesToJson(store), store)
  {
    if store != [] { PairsInOrder(store[1..]); }
  }

  /** What the file holds after storing a modified table, and what is read of no file or a null. */
  lemma TableFile(t: PathTable, file: File)
    ensures t.modified ==> Stored(t, file).Holds? && TableDescribed(Stored(t, file).json, t.store)
    ensures file == Absent || file == Holds(JNull) ==> LoadedTable(file) == Ok(PathTable([], false))
    ensures LoadedTable(file).Ok? ==> !LoadedTable(file).value.modified
  {
    PairsInOrder(t.store);
  }

  /** What was stored is what is loaded; an unmodified table leaves the file alone. */
  lemma TableRoundTrip(t: PathTable, file: File)
    ensures t.modified ==> LoadedTable(Stored(t, file)) == Ok(PathTable(t.store, false))
    ensures !t.modified ==> Stored(t, file) == file
  {
    EntriesRoundTrip(t.store);
  }
}
