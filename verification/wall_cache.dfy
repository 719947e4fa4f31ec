/**
 A collection of wallpapers: src/change_lib/wall_cache.hpp.

 `Cache` is the value of a collection: its item list and the modified flag that tells whether it
 has to be written out.  Library entries hold such values.  `CacheObject` is the class that updates
 one in place.  A `std::string` is the sequence of its bytes.
 */
module WallCache {
  import opened Bits

  type Text = seq<Byte>

  datatype CacheState = Null | Unused | Used | Favorate {
    function Rank(): nat {
      match this
      case Null => 0
      case Unused => 1
      case Used => 2
      case Favorate => 3
    }
  }

  datatype Item = Item(value: Text, state: CacheState, loc: U32)

  datatype Cache = Cache(modified: bool, items: seq<Item>)

  /** `std::ranges::find` over the values: the first position, or the length. */
  function FindValue(items: seq<Item>, value: Text): (i: nat)
    ensures i <= |items|
    ensures forall j :: 0 <= j < i ==> items[j].value != value
    ensures i < |items| ==> items[i].value == value
  {
    if items == [] || items[0].value == value then 0 else 1 + FindValue(items[1..], value)
  }

  predicate Contains(c: Cache, value: Text) {
    FindValue(c.items, value) < |c.items|
  }

  /** `insert`: only a value that is not there yet. */
  function Inserted(c: Cache, value: Text, loc: U32): Cache {
    if Contains(c, value) then c else Cache(true, c.items + [Item(value, Unused, loc)])
  }

  /** `insert_elem`: compares the whole item. */
  function ElemInserted(c: Cache, item: Item): Cache {
    if item in c.items then c else Cache(true, c.items + [item])
  }

  function RemoveAt(items: seq<Item>, i: nat): (r: seq<Item>)
    requires i < |items|
    ensures |r| == |items| - 1
  {
    items[..i] + items[i + 1..]
  }

  class CacheObject {
    var modified: bool
    var list: seq<Item>

    constructor ()
      ensures Value() == Cache(false, [])
    {
      modified := false;
      list := [];
    }

    function Value(): Cache
      reads this
    {
      Cache(modified, list)
    }

    method Insert(value: Text, loc: U32)
      modifies this
      ensures Value() == Inserted(old(Value()), value, loc)
    {
      var i := FindValue(list, value);
      if i == |list| {
        list := list + [Item(value, Unused, loc)];
        modified := true;
      }
    }

    method InsertElem(item: Item)
      modifies this
      ensures Value() == ElemInserted(old(Value()), item)
    {
      if item !in list {
        list := list + [item];
        modified := true;
      }
    }

    method Clear()
      modifies this
      ensures Value() == Cache(true, [])
    {
      list := [];
      modified := true;
    }

    method Erase(pos: nat)
      requires pos < |list|
      modifies this
      ensures Value() == Cache(true, RemoveAt(old(list), pos))
      ensures list == old(list)[..pos] + old(list)[pos + 1..]
    {
      modified := true;
      list := RemoveAt(list, pos);
    }
  }

  // ---------- distinctness ----------

  ghost predicate DistinctValues(items: seq<Item>) {
    forall i, j :: 0 <= i < j < |items| ==> items[i].value != items[j].value
  }

  ghost predicate DistinctItems(items: seq<Item>) {
    forall i, j :: 0 <= i < j < |items| ==> items[i] != items[j]
  }

  lemma ContainsValue(c: Cache, value: Text)
    ensures Contains(c, value) <==> exists i :: 0 <= i < |c.items| && c.items[i].value == value
  {
  }

  /** `insert` keeps values distinct; its value is there afterwards and no other value is new. */
  lemma InsertKeepsDistinct(c: Cache, value: Text, loc: U32)
    ensures DistinctValues(c.items) ==> DistinctValues(Inserted(c, value, loc).items)
    ensures DistinctItems(c.items) ==> DistinctItems(Inserted(c, value, loc).items)
    ensures forall v :: Contains(Inserted(c, value, loc), v) <==> v == value || Contains(c, v)
    ensures c.items <= Inserted(c, value, loc).items
  {
    var r := Inserted(c, value, loc);
    ContainsValue(c, value);
    forall v ensures Contains(r, v) <==> v == value || Contains(c, v) {
      if !Contains(c, value) {
        assert r.items[|c.items|].value == value;
        assert forall i :: 0 <= i < |c.items| ==> r.items[i] == c.items[i];
      }
      ContainsValue(r, v);
      ContainsValue(c, v);
    }
  }

  lemma ElemInsertKeepsDistinct(c: Cache, item: Item)
    ensures DistinctItems(c.items) ==> DistinctItems(ElemInserted(c, item).items)
    ensures forall x :: x in ElemInserted(c, item).items <==> x == item || x in c.items
  {
  }

  lemma RemoveKeepsDistinct(items: seq<Item>, i: nat)
    requires i < |items|
    ensures DistinctValues(items) ==> DistinctValues(RemoveAt(items, i))
    ensures DistinctItems(items) ==> DistinctItems(RemoveAt(items, i))
    ensures multiset(items) == multiset(RemoveAt(items, i)) + multiset{items[i]}
    ensures forall x :: x in RemoveAt(items, i) ==> x in items
  {
    var r := RemoveAt(items, i);
    assert items == items[..i] + [items[i]] + items[i + 1..];
    assert forall j :: 0 <= j < |r| ==> r[j] == items[if j < i then j else j + 1];
  }

  // ---------- the order of items ----------

  /** `std::string` comparison. */
  predicate TextLess(a: Text, b: Text) {
    b != [] && (a == [] || a[0] < b[0] || (a[0] == b[0] && TextLess(a[1..], b[1..])))
  }

  /** The defaulted `operator<=>`: by value, then state, then location. */
  predicate ItemLess(x: Item, y: Item) {
    || TextLess(x.value, y.value)
    || (x.value == y.value && (x.state.Rank() < y.state.Rank() || (x.state == y.state && x.loc < y.loc)))
  }

  lemma {:induction false} TextTotal(a: Text, b: Text)
    ensures TextLess(a, b) || a == b || TextLess(b, a)
    ensures !(TextLess(a, b) && TextLess(b, a))
    ensures !TextLess(a, a)
  {
    if a != [] { TextTotal(a[1..], a[1..]); }
    if a != [] && b != [] && a[0] == b[0] {
      TextTotal(a[1..], b[1..]);
      if a[1..] == b[1..] { assert a == [a[0]] + a[1..] == b; }
    }
  }

  lemma {:induction false} TextTransitive(a: Text, b: Text, c: Text)
    requires TextLess(a, b) && TextLess(b, c)
    ensures TextLess(a, c)
  {
    if a != [] && a[0] == b[0] && b[0] == c[0] {
      TextTransitive(a[1..], b[1..], c[1..]);
    }
  }

  lemma ItemTotal(x: Item, y: Item)
    ensures ItemLess(x, y) || x == y || ItemLess(y, x)
    ensures !(ItemLess(x, y) && ItemLess(y, x))
    ensures !ItemLess(x, x)
  {
    TextTotal(x.value, y.value);
    TextTotal(x.value, x.value);
  }

  lemma ItemTransitive(x: Item, y: Item, z: Item)
    requires ItemLess(x, y) && ItemLess(y, z)
    ensures ItemLess(x, z)
  {
    if TextLess(x.value, y.value) && TextLess(y.value, z.value) {
      TextTransitive(x.value, y.value, z.value);
    }
  }

  /** The first difference decides: `a` ends there, or has the smaller byte. */
  ghost predicate TextBefore(a: Text, b: Text) {
    exists k: nat :: DiffersAt(a, b, k)
  }

  ghost predicate DiffersAt(a: Text, b: Text, k: nat) {
    k <= |a| && k < |b| && a[..k] == b[..k] && (k == |a| || a[k] < b[k])
  }

  lemma {:induction false} TextLessIff(a: Text, b: Text)
    ensures TextLess(a, b) <==> TextBefore(a, b)
  {
    if a != [] && b != [] && a[0] == b[0] {
      TextLessIff(a[1..], b[1..]);
      if k: nat :| DiffersAt(a[1..], b[1..], k) { DiffersLater(a, b, k); }
      if k: nat :| DiffersAt(a, b, k) { DiffersEarlier(a, b, k); }
    } else if a == [] && b != [] {
      assert DiffersAt(a, b, 0);
    } else if a != [] && b != [] {
      if a[0] < b[0] { assert DiffersAt(a, b, 0); }
      if k: nat :| DiffersAt(a, b, k) { FirstDiffers(a, b, k); }
    }
  }

  lemma FirstDiffers(a: Text, b: Text, k: nat)
    requires a != [] && b != [] && a[0] != b[0] && DiffersAt(a, b, k)
    ensures k == 0
  {
  }

  lemma DiffersLater(a: Text, b: Text, k: nat)
    requires a != [] && b != [] && a[0] == b[0] && DiffersAt(a[1..], b[1..], k)
    ensures DiffersAt(a, b, k + 1)
  {
    assert a[..k + 1] == [a[0]] + a[1..][..k] && b[..k + 1] == [b[0]] + b[1..][..k];
  }

  lemma DiffersEarlier(a: Text, b: Text, k: nat)
    requires a != [] && b != [] && a[0] == b[0] && DiffersAt(a, b, k)
    ensures k > 0 && DiffersAt(a[1..], b[1..], k - 1)
  {
    assert a[1..][..k - 1] == a[..k][1..] && b[1..][..k - 1] == b[..k][1..];
  }

  /** The order of the enumerators. */
  predicate StateBefore(x: CacheState, y: CacheState) {
    || (x == Null && (y == Unused || y == Used || y == Favorate))
    || (x == Unused && (y == Used || y == Favorate))
    || (x == Used && y == Favorate)
  }

  /** By value, then by state, then by location. */
  ghost predicate Precedes(x: Item, y: Item) {
    || TextBefore(x.value, y.value)
    || (x.value == y.value && StateBefore(x.state, y.state))
    || (x.value == y.value && x.state == y.state && x.loc < y.loc)
  }

  lemma ItemLessIff(x: Item, y: Item)
    ensures ItemLess(x, y) <==> Precedes(x, y)
  {
    TextLessIff(x.value, y.value);
  }

  // ---------- contents, position by position ----------

  /** Erasing moves every later item one place forward and no other. */
  lemma RemovedPositions(items: seq<Item>, i: nat)
    requires i < |items|
    ensures |RemoveAt(items, i)| == |items| - 1
    ensures forall j :: 0 <= j < |items| - 1 ==> RemoveAt(items, i)[j] == items[if j < i then j else j + 1]
    ensures RemoveAt(items, i) == items[..i] + items[i + 1..]
  {
  }

  ghost predicate HasValue(items: seq<Item>, value: Text) {
    exists i :: 0 <= i < |items| && items[i].value == value
  }

  /** `insert` appends one unused item with this value and location, and marks the collection, unless
      an item has the value. */
  lemma InsertedItem(c: Cache, value: Text, loc: U32)
    ensures HasValue(c.items, value) ==> Inserted(c, value, loc) == c
    ensures !HasValue(c.items, value) ==>
              Inserted(c, value, loc).modified && Inserted(c, value, loc).items == c.items + [Item(value, Unused, loc)]
  {
    ContainsValue(c, value);
  }

  /** `insert_elem` appends the item and marks the collection, unless the very item is there. */
  lemma InsertedElem(c: Cache, item: Item)
    ensures (exists i :: 0 <= i < |c.items| && c.items[i] == item) ==> ElemInserted(c, item) == c
    ensures (forall i :: 0 <= i < |c.items| ==> c.items[i] != item) ==>
              ElemInserted(c, item).modified && ElemInserted(c, item).items == c.items + [item]
  {
  }
}
