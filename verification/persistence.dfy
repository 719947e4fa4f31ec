/**
 Saving and loading a library: `serialize`, `deserialize` and the loading constructor of
 src/change_lib/wall_cache_library.cpp.

 The file `libraries.json` is a JSON tree, or absent.  The main result says exactly what a library
 is after it was saved and loaded, and when that is the same library.
 */
module Persistence {
  import opened Bits
  import opened WallCache
  import opened CacheLibrary
  import opened LibraryRefinement
  import opened LibraryRuns
  import opened JsonHelper

  datatype File = Absent | Holds(json: Json)

  /** `serialize` reads the collection under the cursor, and `modified` must find a modified one. */
  ghost predicate CanSerialize(lib: Library) {
    ModifiedDefined(lib.entries) && (lib.entries != [] ==> lib.current < |lib.entries|)
  }

  function LibraryToJson(lib: Library): Json
    requires lib.current < |lib.entries|
  {
    JObject(map["total_count" := JNumber(|lib.entries|),
                "active" := JString(lib.entries[lib.current].name),
                "cache_libraries" := JArray(StoresToJson(lib.entries))])
  }

  /** An empty library writes nothing: the file keeps what it had. */
  function Serialized(lib: Library, file: File): File
    requires lib.entries != [] ==> lib.current < |lib.entries|
  {
    if lib.entries == [] then file else Holds(LibraryToJson(lib))
  }

  function Loaded(file: File): Parsed<Library> {
    match file
    case Absent => Ok(Library([], 0, []))
    case Holds(JObject(f)) =>
      if "cache_libraries" in f && f["cache_libraries"].JArray? && "active" in f && f["active"].JString? then
        match StoresFromJson(f["cache_libraries"].elems)
        case Throws => Throws
        case Ok(entries) =>
          var pos := IndexOf(entries, f["active"].s);
          Ok(Library(entries, if pos < |entries| then pos % TWO32 else 0, f["active"].s))
      else Throws
    case Holds(_) => Throws
  }

  /** The file counts the collections, names the one under the cursor and describes each in order. */
  ghost predicate LibraryDescribed(j: Json, lib: Library) {
    && lib.current < |lib.entries|
    && j.JObject? && j.fields.Keys == {"total_count", "active", "cache_libraries"}
    && j.fields["total_count"] == JNumber(|lib.entries|)
    && j.fields["active"] == JString(lib.entries[lib.current].name)
    && j.fields["cache_libraries"].JArray?
    && EntriesDescribed(j.fields["cache_libraries"].elems, lib.entries)
  }

  ghost predicate EntriesDescribed(elems: seq<Json>, entries: seq<Store>) {
    |elems| == |entries| && forall i :: 0 <= i < |entries| ==> StoreDescribed(elems[i], entries[i])
  }

  lemma {:induction false} EntriesInOrder(entries: seq<Store>)
    ensures EntriesDescribed(StoresToJson(entries), entries)
  {
    if entries != [] {
      StoreFields(entries[0]);
      EntriesInOrder(entries[1..]);
    }
  }

  /** What is in the file after saving a library, and that an empty one leaves it alone. */
  lemma SavedFile(lib: Library, file: File)
    requires lib.entries != [] ==> lib.current < |lib.entries|
    ensures lib.entries == [] ==> Serialized(lib, file) == file
    ensures lib.entries != [] ==> Serialized(lib, file).Holds? && LibraryDescribed(Serialized(lib, file).json, lib)
  {
    EntriesInOrder(lib.entries);
  }

  /** The cursor of a loaded library is on the first collection with the active name, and on the
      first of all if there is none. */
  ghost predicate CursorLoaded(lib: Library) {
    if exists i :: 0 <= i < |lib.entries| && lib.entries[i].name == lib.active
    then |lib.entries| <= TWO32 ==>
           && lib.current < |lib.entries| && lib.entries[lib.current].name == lib.active
           && forall j :: 0 <= j < lib.current ==> lib.entries[j].name != lib.active
    else lib.current == 0
  }

  /** What is loaded: nothing without a file, and else the collections of the file, its active name,
      and the cursor that goes with it. */
  lemma LoadedReads(file: File)
    ensures file == Absent ==> Loaded(file) == Ok(Library([], 0, []))
    ensures Loaded(file).Ok? ==> CursorLoaded(Loaded(file).value)
    ensures Loaded(file).Ok? && file.Holds? ==>
              && file.json.JObject? && "active" in file.json.fields && "cache_libraries" in file.json.fields
              && file.json.fields["active"] == JString(Loaded(file).value.active)
              && file.json.fields["cache_libraries"].JArray?
              && StoresFromJson(file.json.fields["cache_libraries"].elems) == Ok(Loaded(file).value.entries)
  {
    if Loaded(file).Ok? && file.Holds? {
      var lib := Loaded(file).value;
      var pos := IndexOf(lib.entries, lib.active);
      if pos < |lib.entries| <= TWO32 { FitsWord(pos); }
    }
  }

  method Serialize(lib: CacheLib, file: File) returns (file': File)
    requires CanSerialize(lib.Value())
    ensures file' == Serialized(lib.Value(), file)
  {
    file' := file;
    var modified := lib.Modified();
    if modified {
      file' := Holds(LibraryToJson(lib.Value()));
    }
  }

  /** The loading constructor; no object comes to be when an exception is thrown. */
  method Load(file: File) returns (lib: CacheLib?)
    ensures lib == null <==> Loaded(file).Throws?
    ensures lib != null ==> fresh(lib) && Loaded(file) == Ok(lib.Value())
  {
    match file {
      case Absent => lib := new CacheLib();
      case Holds(json) =>
        lib := null;
        if json.JObject? {
          var f := json.fields;
          if "cache_libraries" in f && f["cache_libraries"].JArray? && "active" in f && f["active"].JString? {
            match StoresFromJson(f["cache_libraries"].elems) {
              case Throws =>
              case Ok(entries) =>
                lib := new CacheLib();
                lib.entries := entries;
                lib.active := f["active"].s;
                var pos := IndexOf(lib.entries, lib.active);
                if pos != |lib.entries| {
                  lib.current := pos % TWO32;
                } else {
                  lib.current := 0;
                }
            }
          }
        }
    }
  }

  // ---------- the search for a modified collection ----------

  ghost predicate SomeModified(entries: seq<Store>) {
    exists i :: 0 <= i < |entries| && entries[i].cache.modified
  }

  /** The search finds nothing exactly when nothing is modified. */
  lemma FindModifiedIff(entries: seq<Store>)
    ensures FindModified(entries) == |entries| <==> !SomeModified(entries)
    ensures ModifiedDefined(entries) <==> entries == [] || SomeModified(entries)
  {
    if FindModified(entries) < |entries| {
      assert entries[FindModified(entries)].cache.modified;
    }
  }

  // ---------- the round trip ----------

  /** What comes back: the same collections in the same order, each with its repeated items
      collapsed, and the name under the cursor as the active one. */
  function Restored(lib: Library): Library
    requires lib.current < |lib.entries|
  {
    var name := lib.entries[lib.current].name;
    Library(ReloadedAll(lib.entries), IndexOf(lib.entries, name) % TWO32, name)
  }

  lemma {:induction false} SameIndex(a: seq<Store>, b: seq<Store>, name: Text)
    requires |a| == |b| && forall i :: 0 <= i < |a| ==> a[i].name == b[i].name
    ensures IndexOf(a, name) == IndexOf(b, name)
  {
    if a != [] && a[0].name != name { SameIndex(a[1..], b[1..], name); }
  }

  lemma SaveThenLoad(lib: Library, file: File)
    requires lib.current < |lib.entries|
    ensures Loaded(Serialized(lib, file)) == Ok(Restored(lib))
  {
    StoresRoundTrip(lib.entries);
    SameIndex(ReloadedAll(lib.entries), lib.entries, lib.entries[lib.current].name);
  }

  /** Item lists come back unchanged exactly when no collection repeats an item. */
  lemma ItemsRestoredIff(lib: Library)
    requires lib.current < |lib.entries|
    ensures (forall i :: 0 <= i < |lib.entries| ==> Restored(lib).entries[i].cache.items == lib.entries[i].cache.items)
            <==> forall i :: 0 <= i < |lib.entries| ==> DistinctItems(lib.entries[i].cache.items)
  {
    forall i | 0 <= i < |lib.entries|
      ensures Restored(lib).entries[i].cache.items == lib.entries[i].cache.items <==> DistinctItems(lib.entries[i].cache.items)
    {
      FirstOccurrencesIdentityIff(lib.entries[i].cache.items);
    }
  }

  lemma FirstNamed(entries: seq<Store>, i: nat)
    requires i < |entries|
    ensures IndexOf(entries, entries[i].name) <= i
    ensures IndexOf(entries, entries[i].name) == i <==> forall j :: 0 <= j < i ==> entries[j].name != entries[i].name
  {
  }

  lemma FitsWord(n: nat)
    requires n < TWO32
    ensures n % TWO32 == n
  {
  }

  lemma RestoredCursor(lib: Library)
    requires lib.current < |lib.entries| <= TWO32
    ensures Restored(lib).current == IndexOf(lib.entries, lib.entries[lib.current].name)
  {
    FitsWord(IndexOf(lib.entries, lib.entries[lib.current].name));
  }

  lemma RestoredAgrees(lib: Library)
    requires lib.current < |lib.entries| <= TWO32
    ensures CursorAgrees(Restored(lib))
  {
    var at := IndexOf(lib.entries, lib.entries[lib.current].name);
    RestoredCursor(lib);
    assert ReloadedAll(lib.entries)[at].name == lib.entries[at].name;
  }

  /** The cursor comes back exactly when no earlier collection has the same name. */
  lemma CursorRestoredIff(lib: Library)
    requires lib.current < |lib.entries| <= TWO32
    ensures Restored(lib).current == lib.current <==>
            forall i :: 0 <= i < lib.current ==> lib.entries[i].name != lib.entries[lib.current].name
  {
    FirstNamed(lib.entries, lib.current);
    RestoredCursor(lib);
  }

  /** After loading, the cursor agrees with the active name; the active name itself comes back
      exactly when the two agreed before. */
  lemma ActiveRestoredIff(lib: Library)
    requires lib.current < |lib.entries| <= TWO32
    ensures CursorAgrees(Restored(lib))
    ensures Restored(lib).active == lib.active <==> CursorAgrees(lib)
  {
    RestoredAgrees(lib);
  }

  /** The same collections, cursor and active name; only the modified flags are set anew. */
  ghost predicate SameButFlags(back: Library, lib: Library) {
    && back.current == lib.current && back.active == lib.active
    && |back.entries| == |lib.entries|
    && forall i :: 0 <= i < |lib.entries| ==>
         && back.entries[i].name == lib.entries[i].name
         && back.entries[i].cache == Cache(lib.entries[i].cache.items != [], lib.entries[i].cache.items)
  }

  /** The library can be saved, and loading gives it back. */
  ghost predicate ComesBack(lib: Library, file: File) {
    && lib.entries != [] && CanSerialize(lib)
    && Loaded(Serialized(lib, file)).Ok?
    && SameButFlags(Loaded(Serialized(lib, file)).value, lib)
  }

  lemma DistinctEntries(entries: seq<Store>)
    requires NamesDistinct(entries) && AllDistinct(Meaning(entries))
    ensures forall i :: 0 <= i < |entries| ==> DistinctItems(entries[i].cache.items)
  {
    forall i | 0 <= i < |entries| ensures DistinctItems(entries[i].cache.items) {
      MeaningAt(entries, entries[i].name);
      UniqueIndex(entries, i);
    }
  }

  /** Saving and loading is defined, and the identity up to the flags, exactly when some collection
      is modified, no item is repeated in a collection, the name under the cursor is active, and no
      earlier collection has it. */
  lemma {:induction false} RoundTripIdentityIff(lib: Library, file: File)
    requires 0 < |lib.entries| <= TWO32
    ensures ComesBack(lib, file) <==>
            && (exists i :: 0 <= i < |lib.entries| && lib.entries[i].cache.modified)
            && (forall i :: 0 <= i < |lib.entries| ==> DistinctItems(lib.entries[i].cache.items))
            && CursorAgrees(lib)
            && (forall i :: 0 <= i < lib.current ==> lib.entries[i].name != lib.entries[lib.current].name)
  {
    FindModifiedIff(lib.entries);
    if lib.current < |lib.entries| { RestoredIdentityIff(lib, file); }
  }

  lemma {:induction false} RestoredIdentityIff(lib: Library, file: File)
    requires lib.current < |lib.entries| <= TWO32
    ensures Loaded(Serialized(lib, file)).Ok?
    ensures SameButFlags(Loaded(Serialized(lib, file)).value, lib) <==>
            && (forall i :: 0 <= i < |lib.entries| ==> DistinctItems(lib.entries[i].cache.items))
            && (forall i :: 0 <= i < lib.current ==> lib.entries[i].name != lib.entries[lib.current].name)
            && CursorAgrees(lib)
  {
    SaveThenLoad(lib, file);
    ItemsRestoredIff(lib);
    CursorRestoredIff(lib);
    ActiveRestoredIff(lib);
    FlagsRestored(lib);
  }

  lemma FlagsRestored(lib: Library)
    requires lib.current < |lib.entries|
    ensures SameButFlags(Restored(lib), lib) <==>
            && Restored(lib).current == lib.current && Restored(lib).active == lib.active
            && forall i :: 0 <= i < |lib.entries| ==> Restored(lib).entries[i].cache.items == lib.entries[i].cache.items
  {
  }
}
