/**
 What runs of the library keep: whole items distinct, and the cursor in step with the active name.
 Both come with the exact condition under which one operation keeps them.
 */
module LibraryRuns {
  import opened Bits
  import opened WallCache
  import opened ItemMerge
  import opened CacheLibrary
  import opened LibraryRefinement

  // ---------- distinct items ----------

  ghost predicate AllDistinct(m: Collections) {
    forall name :: name in m ==> DistinctItems(m[name])
  }

  ghost predicate Disjoint(a: seq<Item>, b: seq<Item>) {
    forall x :: x in a ==> x !in b
  }

  /** A merge that takes place joins collections without a common item; what is inserted is distinct. */
  ghost predicate KeepsDistinct(m: Collections, op: Op) {
    match op
    case OpInsert(name, cache) => name !in m ==> DistinctItems(cache.items)
    case OpMerge(col1, col2) => MapMerge(m, col1, col2).1 == Done ==> Disjoint(m[col1], m[col2])
    case _ => true
  }

  lemma MergeDistinct(m: Collections, col1: Text, col2: Text)
    requires AllDistinct(m)
    ensures AllDistinct(MapMerge(m, col1, col2).0) <==> KeepsDistinct(m, OpMerge(col1, col2))
  {
    if MapMerge(m, col1, col2).1 == Done {
      var m' := MapMerge(m, col1, col2).0;
      MergeDistinctIff(m[col1], m[col2]);
      assert m'[col1] == Merge(m[col1], m[col2]);
      if KeepsDistinct(m, OpMerge(col1, col2)) {
        forall n | n in m' ensures DistinctItems(m'[n]) { assert n != col1 ==> m'[n] == m[n]; }
      }
    }
  }

  lemma InsertDistinct(m: Collections, name: Text, cache: Cache)
    requires AllDistinct(m)
    ensures AllDistinct(MapInsert(m, name, cache.items).0) <==> KeepsDistinct(m, OpInsert(name, cache))
  {
    var m' := MapInsert(m, name, cache.items).0;
    if name !in m {
      assert m'[name] == cache.items;
      assert forall n :: n in m' && n != name ==> m'[n] == m[n];
    }
  }

  lemma MoveDistinct(m: Collections, source: Text, dest: Text, item: Text)
    requires AllDistinct(m)
    ensures AllDistinct(MapMove(m, source, dest, item).0)
  {
    if MapMove(m, source, dest, item).1 == Done {
      var at := FindValue(m[source], item);
      RemoveKeepsDistinct(m[source], at);
      ElemInsertKeepsDistinct(Cache(true, m[dest]), m[source][at]);
    }
  }

  lemma RemoveItemDistinct(m: Collections, name: Text, item: Text)
    requires AllDistinct(m)
    ensures AllDistinct(MapRemoveItem(m, name, item).0)
  {
    if MapRemoveItem(m, name, item).1 == Done {
      RemoveKeepsDistinct(m[name], FindValue(m[name], item));
    }
  }

  /** Whole-item distinctness survives an operation exactly when it is not a merge of collections
      that share an item, or an insertion of a collection that repeats one. */
  lemma OperationKeepsDistinctIff(lib: Library, op: Op)
    requires NamesDistinct(lib.entries) && AllDistinct(Meaning(lib.entries))
    ensures AllDistinct(Meaning(Apply(lib, op).0.entries)) <==> KeepsDistinct(Meaning(lib.entries), op)
  {
    OperationRefines(lib, op);
    var m := Meaning(lib.entries);
    match op {
      case OpInsert(name, cache) => InsertDistinct(m, name, cache);
      case OpMerge(col1, col2) => MergeDistinct(m, col1, col2);
      case OpMove(source, dest, item) => MoveDistinct(m, source, dest, item);
      case OpRemoveItem(name, item) => RemoveItemDistinct(m, name, item);
      case OpRename(_, _) =>
      case OpRemove(_) =>
      case OpChangeActive(_) =>
    }
  }

  ghost predicate RunKeepsDistinct(lib: Library, ops: seq<Op>)
    decreases |ops|
  {
    ops == [] || (KeepsDistinct(Meaning(lib.entries), ops[0]) && RunKeepsDistinct(Apply(lib, ops[0]).0, ops[1..]))
  }

  lemma {:induction false} DistinctAlongRun(lib: Library, ops: seq<Op>)
    requires NamesDistinct(lib.entries) && AllDistinct(Meaning(lib.entries))
    requires RunKeepsDistinct(lib, ops)
    ensures AllDistinct(Meaning(Run(lib, ops).entries))
    decreases |ops|
  {
    if ops != [] {
      OperationKeepsDistinctIff(lib, ops[0]);
      OperationRefines(lib, ops[0]);
      DistinctAlongRun(Apply(lib, ops[0]).0, ops[1..]);
    }
  }

  // ---------- the cursor ----------

  /** The collection under the cursor is the active one. */
  predicate CursorAgrees(lib: Library) {
    lib.current < |lib.entries| && lib.entries[lib.current].name == lib.active
  }

  /** A removal must be behind the cursor; a merge too, unless the active collection is merged into
      and the cursor is where the merged one is put. */
  predicate KeepsCursor(lib: Library, op: Op) {
    match op
    case OpRemove(name) => Exists(lib.entries, name) ==> IndexOf(lib.entries, name) > lib.current
    case OpMerge(col1, col2) =>
      MergeCaches(lib, col1, col2).1 == Done ==>
        || (IndexOf(lib.entries, col1) > lib.current && IndexOf(lib.entries, col2) > lib.current)
        || (lib.active == col1 && lib.current == |lib.entries| - 2)
    case _ => true
  }

  lemma RemoveCursor(lib: Library, name: Text)
    requires NamesDistinct(lib.entries) && CursorAgrees(lib) && Exists(lib.entries, name)
    ensures CursorAgrees(Remove(lib, name).0) <==> IndexOf(lib.entries, name) > lib.current
  {
    RemoveEntryAt(lib.entries, IndexOf(lib.entries, name));
  }

  lemma RemovedAt(e: seq<Store>, i: nat, k: nat)
    requires i < |e| && k < |e| - 1
    ensures RemoveEntry(e, i)[k] == e[if k < i then k else k + 1]
  {
  }

  /** Position `j` after the entry at `i` is gone. */
  function Shifted(i: nat, j: nat): nat
    requires i != j
  {
    if j < i then j else j - 1
  }

  /** Where the entry at `k` was before those at `lo` and `hi` were removed. */
  function BeforeBoth(lo: nat, hi: nat, k: nat): nat
    requires lo < hi
  {
    if k < lo then k else if k < hi - 1 then k + 1 else k + 2
  }

  lemma TwiceRemovedAt(e: seq<Store>, i: nat, j: nat, k: nat)
    requires i < |e| && j < |e| && i != j && k < |e| - 2
    ensures RemoveEntry(RemoveEntry(e, i), Shifted(i, j))[k] == e[BeforeBoth(if i < j then i else j, if i < j then j else i, k)]
  {
    var at := Shifted(i, j);
    RemovedAt(RemoveEntry(e, i), at, k);
    RemovedAt(e, i, if k < at then k else k + 1);
  }

  lemma SecondAfterFirst(e: seq<Store>, i: nat, j: nat)
    requires NamesDistinct(e) && i < |e| && j < |e| && i != j
    ensures IndexOf(RemoveEntry(e, i), e[j].name) == Shifted(i, j) < |e| - 1
  {
    RemovedAt(e, i, Shifted(i, j));
    RemoveEntryAt(e, i);
    UniqueIndex(RemoveEntry(e, i), Shifted(i, j));
  }

  lemma MergedEntries(lib: Library, col1: Text, col2: Text)
    requires NamesDistinct(lib.entries) && MergeCaches(lib, col1, col2).1 == Done
    ensures var e := lib.entries;
            var i, j := IndexOf(e, col1), IndexOf(e, col2);
            && i < |e| && j < |e| && i != j
            && MergeCaches(lib, col1, col2).0.entries ==
                 RemoveEntry(RemoveEntry(e, i), Shifted(i, j)) + [Store(col1, Cache(true, Merge(e[i].cache.items, e[j].cache.items)))]
  {
    SecondAfterFirst(lib.entries, IndexOf(lib.entries, col1), IndexOf(lib.entries, col2));
  }

  lemma MergedAt(lib: Library, col1: Text, col2: Text, k: nat)
    requires NamesDistinct(lib.entries) && MergeCaches(lib, col1, col2).1 == Done
    requires k < |lib.entries| - 2
    ensures var e, e' := lib.entries, MergeCaches(lib, col1, col2).0.entries;
            var i, j := IndexOf(e, col1), IndexOf(e, col2);
            && i < |e| && j < |e| && i != j && |e'| == |e| - 1
            && e'[k] == e[BeforeBoth(if i < j then i else j, if i < j then j else i, k)]
  {
    MergedEntries(lib, col1, col2);
    TwiceRemovedAt(lib.entries, IndexOf(lib.entries, col1), IndexOf(lib.entries, col2), k);
  }

  lemma MergedLast(lib: Library, col1: Text, col2: Text)
    requires NamesDistinct(lib.entries) && MergeCaches(lib, col1, col2).1 == Done
    ensures var e, e' := lib.entries, MergeCaches(lib, col1, col2).0.entries;
            && |e| >= 2 && |e'| == |e| - 1 && e'[|e| - 2].name == col1
  {
    MergedEntries(lib, col1, col2);
  }

  lemma MergedAll(lib: Library, col1: Text, col2: Text, lo: nat, hi: nat)
    requires NamesDistinct(lib.entries) && MergeCaches(lib, col1, col2).1 == Done && lo < hi < |lib.entries|
    requires || (lo == IndexOf(lib.entries, col1) && hi == IndexOf(lib.entries, col2))
             || (hi == IndexOf(lib.entries, col1) && lo == IndexOf(lib.entries, col2))
    ensures |MergeCaches(lib, col1, col2).0.entries| == |lib.entries| - 1
    ensures forall k :: 0 <= k < |lib.entries| - 2 ==>
              MergeCaches(lib, col1, col2).0.entries[k] == lib.entries[BeforeBoth(lo, hi, k)]
  {
    MergedLast(lib, col1, col2);
    forall k | 0 <= k < |lib.entries| - 2
      ensures MergeCaches(lib, col1, col2).0.entries[k] == lib.entries[BeforeBoth(lo, hi, k)]
    {
      MergedAt(lib, col1, col2, k);
    }
  }

  /** Where the collections are after a merge. */
  lemma MergePositions(lib: Library, col1: Text, col2: Text)
    requires NamesDistinct(lib.entries) && MergeCaches(lib, col1, col2).1 == Done
    ensures var e, e' := lib.entries, MergeCaches(lib, col1, col2).0.entries;
            var i, j := IndexOf(e, col1), IndexOf(e, col2);
            var lo, hi := if i < j then i else j, if i < j then j else i;
            && lo < hi < |e| && |e'| == |e| - 1 && e'[|e| - 2].name == col1
            && forall k :: 0 <= k < |e| - 2 ==> e'[k] == e[BeforeBoth(lo, hi, k)]
  {
    var i, j := IndexOf(lib.entries, col1), IndexOf(lib.entries, col2);
    MergedLast(lib, col1, col2);
    MergedEntries(lib, col1, col2);
    MergedAll(lib, col1, col2, if i < j then i else j, if i < j then j else i);
  }

  lemma UniqueIndex(entries: seq<Store>, i: nat)
    requires NamesDistinct(entries) && i < |entries|
    ensures IndexOf(entries, entries[i].name) == i
  {
  }

  /** Behind a removed entry stands another name. */
  lemma OtherName(e: seq<Store>, lo: nat, hi: nat, k: nat)
    requires NamesDistinct(e) && lo < hi < |e| && k < |e| - 2
    ensures e[BeforeBoth(lo, hi, k)].name == e[k].name <==> k < lo
  {
  }

  /** The cursor after a merge: on the same collection in front of both, on another behind. */
  lemma MergedUnderCursor(lib: Library, col1: Text, col2: Text)
    requires NamesDistinct(lib.entries) && CursorAgrees(lib) && MergeCaches(lib, col1, col2).1 == Done
    ensures var e, c := lib.entries, lib.current;
            var i, j := IndexOf(e, col1), IndexOf(e, col2);
            CursorAgrees(MergeCaches(lib, col1, col2).0) <==>
              if c < |e| - 2 then c < i && c < j else c == |e| - 2 && e[c].name == col1
  {
    var e, c := lib.entries, lib.current;
    var i, j := IndexOf(e, col1), IndexOf(e, col2);
    var lo, hi := if i < j then i else j, if i < j then j else i;
    MergedLast(lib, col1, col2);
    if c < |e| - 2 {
      MergedAt(lib, col1, col2, c);
      OtherName(e, lo, hi, c);
    }
  }

  lemma MergeCursor(lib: Library, col1: Text, col2: Text)
    requires NamesDistinct(lib.entries) && CursorAgrees(lib) && MergeCaches(lib, col1, col2).1 == Done
    ensures CursorAgrees(MergeCaches(lib, col1, col2).0) <==> KeepsCursor(lib, OpMerge(col1, col2))
  {
    MergedUnderCursor(lib, col1, col2);
  }

  lemma RenameCursor(lib: Library, fromName: Text, toName: Text)
    requires NamesDistinct(lib.entries) && CursorAgrees(lib)
    ensures CursorAgrees(Rename(lib, fromName, toName).0)
  {
    if fromName == lib.active { UniqueIndex(lib.entries, lib.current); }
  }

  lemma InsertCursor(lib: Library, name: Text, cache: Cache)
    requires CursorAgrees(lib)
    ensures CursorAgrees(Insert(lib, name, cache).0)
  {
  }

  lemma RemoveItemCursor(lib: Library, name: Text, item: Text)
    requires CursorAgrees(lib)
    ensures CursorAgrees(RemoveItem(lib, name, item).0)
  {
  }

  lemma MoveCursor(lib: Library, source: Text, dest: Text, item: Text)
    requires CursorAgrees(lib)
    ensures CursorAgrees(MoveItem(lib, source, dest, item).0)
  {
  }

  /** The cursor and the active name still agree after an operation exactly under `KeepsCursor`. */
  lemma OperationKeepsCursorIff(lib: Library, op: Op)
    requires NamesDistinct(lib.entries) && CursorAgrees(lib)
    ensures CursorAgrees(Apply(lib, op).0) <==> KeepsCursor(lib, op)
  {
    match op {
      case OpRemove(name) => if Exists(lib.entries, name) { RemoveCursor(lib, name); }
      case OpMerge(col1, col2) => if MergeCaches(lib, col1, col2).1 == Done { MergeCursor(lib, col1, col2); }
      case OpRename(fromName, toName) => RenameCursor(lib, fromName, toName);
      case OpInsert(name, cache) => InsertCursor(lib, name, cache);
      case OpChangeActive(name) => if ChangeActive(lib, name).1 == Done { ChangeActiveAgrees(lib, name); }
      case OpRemoveItem(name, item) => RemoveItemCursor(lib, name, item);
      case OpMove(source, dest, item) => MoveCursor(lib, source, dest, item);
    }
  }

  /** Choosing an active collection brings the two into step. */
  lemma ChangeActiveAgrees(lib: Library, name: Text)
    requires ChangeActive(lib, name).1 == Done
    ensures CursorAgrees(ChangeActive(lib, name).0)
    ensures IndexOf(lib.entries, name) < TWO32 ==> ChangeActive(lib, name).0.active == name
  {
  }

  ghost predicate RunKeepsCursor(lib: Library, ops: seq<Op>)
    decreases |ops|
  {
    ops == [] || (KeepsCursor(lib, ops[0]) && RunKeepsCursor(Apply(lib, ops[0]).0, ops[1..]))
  }

  lemma {:induction false} CursorAlongRun(lib: Library, ops: seq<Op>)
    requires NamesDistinct(lib.entries) && CursorAgrees(lib) && RunKeepsCursor(lib, ops)
    ensures CursorAgrees(Run(lib, ops))
    decreases |ops|
  {
    if ops != [] {
      OperationKeepsCursorIff(lib, ops[0]);
      OperationRefines(lib, ops[0]);
      CursorAlongRun(Apply(lib, ops[0]).0, ops[1..]);
    }
  }
}
