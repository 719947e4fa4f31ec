/**
 The JSON conversions of src/change_lib/json_helper.hpp, over a tree of JSON values.

 `Parsed` is what reading gives: a value, or the exception the JSON library throws.  Numbers are
 integers; booleans and fractions, which the program never writes, are left out.
 */
module JsonHelper {
  import opened Bits
  import opened WallCache
  import opened CacheLibrary

  datatype Json =
    | JNull
    | JNumber(n: int)
    | JString(s: Text)
    | JArray(elems: seq<Json>)
    | JObject(fields: map<string, Json>)

  datatype Parsed<+T> = Ok(value: T) | Throws

  // ---------- cache states and items ----------

  const UNUSED: Text := [0x75, 0x6E, 0x75, 0x73, 0x65, 0x64]
  const USED: Text := [0x75, 0x73, 0x65, 0x64]
  const FAVORATE: Text := [0x66, 0x61, 0x76, 0x6F, 0x72, 0x61, 0x74, 0x65]

  function StateToJson(state: CacheState): Json {
    match state
    case Null => JNull
    case Unused => JString(UNUSED)
    case Used => JString(USED)
    case Favorate => JString(FAVORATE)
  }

  /** Anything not in the table reads as its first entry. */
  function StateFromJson(j: Json): CacheState {
    if j == JString(UNUSED) then Unused
    else if j == JString(USED) then Used
    else if j == JString(FAVORATE) then Favorate
    else Null
  }

  function ItemToJson(item: Item): Json {
    JObject(map["value" := JString(item.value), "state" := StateToJson(item.state), "loc" := JNumber(item.loc)])
  }

  function ItemFromJson(j: Json): Parsed<Item> {
    match j
    case JNull => Ok(Item([], Null, 0))
    case JObject(f) =>
      if "value" in f && "state" in f && "loc" in f && f["value"].JString? && f["loc"].JNumber? then
        Ok(Item(f["value"].s, StateFromJson(f["state"]), f["loc"].n % TWO32))
      else Throws
    case _ => Throws
  }

  /** The bytes of an ASCII string. */
  function Ascii(s: string): Text
    requires forall i :: 0 <= i < |s| ==> s[i] as int < 0x80
  {
    seq(|s|, i requires 0 <= i < |s| => s[i] as int)
  }

  /** The names of the states; a null and anything else is the state `null`. */
  lemma StateNames(j: Json)
    ensures StateToJson(Unused) == JString(Ascii("unused")) && StateToJson(Used) == JString(Ascii("used"))
    ensures StateToJson(Favorate) == JString(Ascii("favorate")) && StateToJson(Null) == JNull
    ensures StateFromJson(j) == Unused <==> j == JString(Ascii("unused"))
    ensures StateFromJson(j) == Used <==> j == JString(Ascii("used"))
    ensures StateFromJson(j) == Favorate <==> j == JString(Ascii("favorate"))
  {
    assert UNUSED == Ascii("unused") && USED == Ascii("used") && FAVORATE == Ascii("favorate");
    assert |UNUSED| == 6 && |USED| == 4 && |FAVORATE| == 8;
  }

  /** The names and kinds of an item's fields. */
  lemma ItemFields(item: Item)
    ensures ItemToJson(item).JObject? && ItemToJson(item).fields.Keys == {"value", "state", "loc"}
    ensures ItemToJson(item).fields["value"] == JString(item.value)
    ensures StateFromJson(ItemToJson(item).fields["state"]) == item.state
    ensures ItemToJson(item).fields["loc"] == JNumber(item.loc)
  {
    StateNames(ItemToJson(item).fields["state"]);
    assert |UNUSED| == 6 && |USED| == 4 && |FAVORATE| == 8;
  }

  lemma ItemRoundTrip(item: Item)
    ensures ItemFromJson(ItemToJson(item)) == Ok(item)
  {
    assert |UNUSED| == 6 && |USED| == 4 && |FAVORATE| == 8;
  }

  // ---------- collections ----------

  function ItemsToJson(items: seq<Item>): (r: seq<Json>)
    ensures |r| == |items|
  {
    if items == [] then [] else ItemsToJson(items[..|items| - 1]) + [ItemToJson(items[|items| - 1])]
  }

  function CacheToJson(c: Cache): Json {
    if c.items == [] then JNull else JArray(ItemsToJson(c.items))
  }

  // ---------- walking through a JSON value ----------

  /** `std::string` comparison of object keys. */
  predicate KeyLess(a: string, b: string) {
    b != "" && (a == "" || a[0] < b[0] || (a[0] == b[0] && KeyLess(a[1..], b[1..])))
  }

  lemma {:induction false} KeyTotal(a: string, b: string)
    ensures KeyLess(a, b) || a == b || KeyLess(b, a)
    ensures !(KeyLess(a, b) && KeyLess(b, a))
    ensures !KeyLess(a, a)
  {
    if a != "" { KeyTotal(a[1..], a[1..]); }
    if a != "" && b != "" && a[0] == b[0] {
      KeyTotal(a[1..], b[1..]);
      if a[1..] == b[1..] { assert a == [a[0]] + a[1..] == b; }
    }
  }

  lemma {:induction false} KeyTransitive(a: string, b: string, c: string)
    requires KeyLess(a, b) && KeyLess(b, c)
    ensures KeyLess(a, c)
  {
    if a != "" && a[0] == b[0] && b[0] == c[0] { KeyTransitive(a[1..], b[1..], c[1..]); }
  }

  predicate IsLeast(key: string, keys: set<string>) {
    key in keys && forall k :: k in keys ==> !KeyLess(k, key)
  }

  lemma {:induction false} LeastKey(keys: set<string>)
    requires keys != {}
    ensures exists k :: IsLeast(k, keys)
    ensures forall x, y :: IsLeast(x, keys) && IsLeast(y, keys) ==> x == y
    decreases keys
  {
    var k :| k in keys;
    var rest := keys - {k};
    if rest == {} {
      KeyTotal(k, k);
      assert keys == {k} && IsLeast(k, keys);
    } else {
      LeastKey(rest);
      var m :| IsLeast(m, rest);
      LeastOfMore(keys, k, m);
    }
    forall x, y | IsLeast(x, keys) && IsLeast(y, keys) ensures x == y { KeyTotal(x, y); }
  }

  lemma LeastOfMore(keys: set<string>, k: string, m: string)
    requires k in keys && IsLeast(m, keys - {k})
    ensures IsLeast(if KeyLess(k, m) then k else m, keys)
  {
    KeyTotal(k, m);
    KeyTotal(k, k);
    if KeyLess(k, m) {
      forall x | x in keys ensures !KeyLess(x, k) {
        if KeyLess(x, k) { KeyTransitive(x, k, m); }
      }
    }
  }

  /** The keys of an object, as its sorted map keeps them. */
  function SortedKeys(keys: set<string>): (r: seq<string>)
    ensures |r| == |keys|
    ensures forall k :: k in r <==> k in keys
    ensures forall i, j :: 0 <= i < j < |r| ==> KeyLess(r[i], r[j])
  {
    if keys == {} then []
    else
      LeastKey(keys);
      var k :| IsLeast(k, keys);
      var rest := SortedKeys(keys - {k});
      LeastFirst(k, keys, rest);
      [k] + rest
  }

  lemma LeastFirst(k: string, keys: set<string>, rest: seq<string>)
    requires IsLeast(k, keys) && forall x :: x in rest <==> x in keys - {k}
    ensures forall i :: 0 <= i < |rest| ==> KeyLess(k, rest[i])
  {
    forall i | 0 <= i < |rest| ensures KeyLess(k, rest[i]) {
      assert rest[i] in keys - {k};
      KeyTotal(k, rest[i]);
    }
  }

  /** What a range-based loop visits: the elements of an array, the values of an object in the order
      of their keys, nothing for null, and any other value itself. */
  function Elements(j: Json): seq<Json> {
    match j
    case JNull => []
    case JArray(elems) => elems
    case JObject(fields) =>
      var keys := SortedKeys(fields.Keys);
      seq(|keys|, i requires 0 <= i < |keys| => assert keys[i] in keys; fields[keys[i]])
    case _ => [j]
  }

  /** `insert_elem` for each element in turn. */
  function InsertAll(c: Cache, elems: seq<Json>): Parsed<Cache> {
    if elems == [] then Ok(c)
    else
      match InsertAll(c, elems[..|elems| - 1])
      case Throws => Throws
      case Ok(front) =>
        match ItemFromJson(elems[|elems| - 1])
        case Throws => Throws
        case Ok(item) => Ok(ElemInserted(front, item))
  }

  /** A null leaves the fresh collection as it is; anything else clears it and is walked through. */
  function CacheFromJson(j: Json): Parsed<Cache> {
    if j == JNull then Ok(Cache(false, [])) else InsertAll(Cache(true, []), Elements(j))
  }

  method WriteCache(rhs: Cache) returns (j: Json)
    ensures j == CacheToJson(rhs)
  {
    if |rhs.items| == 0 {
      return JNull;
    }
    var arr := [];
    for i := 0 to |rhs.items|
      invariant arr == ItemsToJson(rhs.items[..i])
    {
      arr := arr + [ItemToJson(rhs.items[i])];
      assert rhs.items[..i + 1][..i] == rhs.items[..i];
    }
    assert rhs.items[..|rhs.items|] == rhs.items;
    j := JArray(arr);
  }

  /** Fills `rhs`; an exception leaves it half filled. */
  method ReadCache(j: Json, rhs: CacheObject) returns (thrown: bool)
    requires rhs.Value() == Cache(false, [])
    modifies rhs
    ensures thrown <==> CacheFromJson(j).Throws?
    ensures !thrown ==> CacheFromJson(j) == Ok(rhs.Value())
  {
    thrown := false;
    if j != JNull {
      rhs.Clear();
      var elems := Elements(j);
      for i := 0 to |elems|
        invariant ReadSoFar(elems, i, rhs.Value())
      {
        ReadNext(elems, i, rhs.Value());
        match ItemFromJson(elems[i]) {
          case Throws => return true;
          case Ok(item) => rhs.InsertElem(item);
        }
      }
      ReadAll(elems, rhs.Value());
    }
  }

  /** What the first `n` elements give. */
  ghost predicate ReadSoFar(elems: seq<Json>, n: nat, c: Cache) {
    n <= |elems| && InsertAll(Cache(true, []), elems[..n]) == Ok(c)
  }

  lemma ReadNext(elems: seq<Json>, n: nat, c: Cache)
    requires ReadSoFar(elems, n, c) && n < |elems|
    ensures match ItemFromJson(elems[n])
            case Throws => InsertAll(Cache(true, []), elems).Throws?
            case Ok(item) => ReadSoFar(elems, n + 1, ElemInserted(c, item))
  {
    assert elems[..n + 1][..n] == elems[..n];
    if ItemFromJson(elems[n]).Throws? { ThrowsOnwards(Cache(true, []), elems, n + 1); }
  }

  lemma ReadAll(elems: seq<Json>, c: Cache)
    requires ReadSoFar(elems, |elems|, c)
    ensures InsertAll(Cache(true, []), elems) == Ok(c)
  {
    assert elems[..|elems|] == elems;
  }

  lemma {:induction false} ThrowsOnwards(c: Cache, elems: seq<Json>, n: nat)
    requires n <= |elems| && InsertAll(c, elems[..n]).Throws?
    ensures InsertAll(c, elems).Throws?
    decreases |elems| - n
  {
    if n == |elems| {
      assert elems[..n] == elems;
    } else {
      assert elems[..n + 1][..n] == elems[..n];
      ThrowsOnwards(c, elems, n + 1);
    }
  }

  /** An array, or an object whose values are the same in the order of the keys, gives the same
      collection; a string or a number cannot be read as one. */
  lemma CacheFromOther(j: Json)
    ensures j.JObject? ==> CacheFromJson(j) == CacheFromJson(JArray(Elements(j)))
    ensures j.JString? || j.JNumber? ==> CacheFromJson(j).Throws?
  {
    if j.JString? || j.JNumber? {
      assert [j][..0] == [];
      assert InsertAll(Cache(true, []), [j]).Throws?;
    }
  }

  /** Each item where it occurs first. */
  function FirstOccurrences(items: seq<Item>): seq<Item> {
    if items == [] then []
    else
      var front, last := items[..|items| - 1], items[|items| - 1];
      FirstOccurrences(front) + if last in front then [] else [last]
  }

  lemma {:induction false} FirstOccurrencesAll(items: seq<Item>)
    ensures forall x :: x in FirstOccurrences(items) <==> x in items
    ensures DistinctItems(FirstOccurrences(items))
    ensures |FirstOccurrences(items)| <= |items|
  {
    if items != [] {
      var front, last := items[..|items| - 1], items[|items| - 1];
      FirstOccurrencesAll(front);
      assert items == front + [last];
    }
  }

  lemma DistinctFront(items: seq<Item>)
    requires items != []
    ensures DistinctItems(items) <==> DistinctItems(items[..|items| - 1]) && items[|items| - 1] !in items[..|items| - 1]
  {
    var front, last := items[..|items| - 1], items[|items| - 1];
    assert forall i :: 0 <= i < |front| ==> front[i] == items[i];
  }

  /** Nothing collapses exactly when no item is repeated. */
  lemma {:induction false} FirstOccurrencesIdentityIff(items: seq<Item>)
    ensures FirstOccurrences(items) == items <==> DistinctItems(items)
  {
    if items != [] {
      var front, last := items[..|items| - 1], items[|items| - 1];
      FirstOccurrencesIdentityIff(front);
      FirstOccurrencesAll(front);
      DistinctFront(items);
      assert items == front + [last];
      if FirstOccurrences(items) == items {
        assert last !in front;
        assert FirstOccurrences(items)[..|front|] == front;
      }
    }
  }

  /** An item stands where it occurs first: appending one that is there changes nothing, and any
      other one comes last. */
  lemma FirstOccurrencesNext(items: seq<Item>, next: Item)
    ensures FirstOccurrences([]) == []
    ensures FirstOccurrences(items + [next]) ==
            FirstOccurrences(items) + if exists i :: 0 <= i < |items| && items[i] == next then [] else [next]
  {
    assert (items + [next])[..|items|] == items;
  }

  lemma InsertAllSnoc(c: Cache, elems: seq<Json>, front: Cache, item: Item)
    requires InsertAll(c, elems) == Ok(front)
    ensures InsertAll(c, elems + [ItemToJson(item)]) == Ok(ElemInserted(front, item))
  {
    assert (elems + [ItemToJson(item)])[..|elems|] == elems;
    ItemRoundTrip(item);
  }

  lemma NextOccurrence(front: seq<Item>, last: Item)
    ensures ElemInserted(Cache(true, FirstOccurrences(front)), last) == Cache(true, FirstOccurrences(front + [last]))
  {
    FirstOccurrencesAll(front);
    assert (front + [last])[..|front|] == front;
  }

  lemma ItemsToJsonSnoc(front: seq<Item>, last: Item)
    ensures ItemsToJson(front + [last]) == ItemsToJson(front) + [ItemToJson(last)]
  {
    assert (front + [last])[..|front|] == front;
  }

  lemma InsertAllOneMore(front: seq<Item>, last: Item)
    requires InsertAll(Cache(true, []), ItemsToJson(front)) == Ok(Cache(true, FirstOccurrences(front)))
    ensures InsertAll(Cache(true, []), ItemsToJson(front + [last])) == Ok(Cache(true, FirstOccurrences(front + [last])))
  {
    ItemsToJsonSnoc(front, last);
    InsertAllSnoc(Cache(true, []), ItemsToJson(front), Cache(true, FirstOccurrences(front)), last);
    NextOccurrence(front, last);
  }

  lemma {:induction false} InsertAllItems(items: seq<Item>)
    ensures InsertAll(Cache(true, []), ItemsToJson(items)) == Ok(Cache(true, FirstOccurrences(items)))
  {
    if items != [] {
      var front, last := items[..|items| - 1], items[|items| - 1];
      InsertAllItems(front);
      InsertAllOneMore(front, last);
      assert items == front + [last];
    }
  }

  // ---------- what is read of any JSON value ----------

  /** A null is an item without a value; an object must have the three fields, the value a string
      and the location a number, of which 32 bits count; nothing else is an item. */
  lemma ItemReads(j: Json)
    ensures j == JNull ==> ItemFromJson(j) == Ok(Item([], Null, 0))
    ensures j.JNumber? || j.JString? || j.JArray? ==> ItemFromJson(j).Throws?
    ensures j.JObject? ==>
              var f := j.fields;
              (ItemFromJson(j).Ok? <==>
                 {"value", "state", "loc"} <= f.Keys && f["value"].JString? && f["loc"].JNumber?)
    ensures j.JObject? && ItemFromJson(j).Ok? ==>
              ItemFromJson(j).value == Item(j.fields["value"].s, StateFromJson(j.fields["state"]), j.fields["loc"].n % TWO32)
  {
  }

  ghost predicate ReadsAs(elems: seq<Json>, items: seq<Item>) {
    |elems| == |items| && forall i :: 0 <= i < |items| ==> ItemFromJson(elems[i]) == Ok(items[i])
  }

  /** An array reads as its items, each where it occurs first, and counts as modified even if empty. */
  lemma {:induction false} ArrayReads(elems: seq<Json>, items: seq<Item>)
    requires ReadsAs(elems, items)
    ensures CacheFromJson(JArray(elems)) == Ok(Cache(true, FirstOccurrences(items)))
  {
    if elems != [] {
      var n := |elems| - 1;
      assert ReadsAs(elems[..n], items[..n]);
      ArrayReads(elems[..n], items[..n]);
      assert elems[..n] + [elems[n]] == elems && items[..n] + [items[n]] == items;
      NextOccurrence(items[..n], items[n]);
    }
  }

  /** An element that is no item makes the whole array unreadable. */
  lemma ArrayThrows(elems: seq<Json>, i: nat)
    requires i < |elems| && ItemFromJson(elems[i]).Throws?
    ensures CacheFromJson(JArray(elems)).Throws?
  {
    assert elems[..i + 1][..i] == elems[..i];
    ThrowsOnwards(Cache(true, []), elems, i + 1);
  }

  /** What a loop over a JSON value visits. */
  lemma ElementsOf(j: Json) returns (keys: seq<string>)
    ensures j == JNull ==> Elements(j) == []
    ensures j.JArray? ==> Elements(j) == j.elems
    ensures j.JString? || j.JNumber? ==> Elements(j) == [j]
    ensures j.JObject? ==>
              && (forall k :: k in keys <==> k in j.fields)
              && (forall i, k :: 0 <= i < k < |keys| ==> KeyLess(keys[i], keys[k]))
              && |Elements(j)| == |keys|
              && forall i :: 0 <= i < |keys| ==> keys[i] in j.fields && Elements(j)[i] == j.fields[keys[i]]
  {
    keys := if j.JObject? then SortedKeys(j.fields.Keys) else [];
  }

  /** The order of keys: the first difference decides. */
  ghost predicate KeyDiffersAt(a: string, b: string, k: nat) {
    k <= |a| && k < |b| && a[..k] == b[..k] && (k == |a| || a[k] < b[k])
  }

  lemma {:induction false} KeyLessDiffers(a: string, b: string) returns (k: nat)
    requires KeyLess(a, b)
    ensures KeyDiffersAt(a, b, k)
  {
    k := 0;
    if a != "" && a[0] == b[0] {
      var later := KeyLessDiffers(a[1..], b[1..]);
      k := later + 1;
      assert a[..k] == [a[0]] + a[1..][..later] && b[..k] == [b[0]] + b[1..][..later];
    }
  }

  /** What a collection is after it was written and read back. */
  function Reloaded(c: Cache): Cache {
    if c.items == [] then Cache(false, []) else Cache(true, FirstOccurrences(c.items))
  }

  lemma CacheRoundTrip(c: Cache)
    ensures CacheFromJson(CacheToJson(c)) == Ok(Reloaded(c))
  {
    InsertAllItems(c.items);
  }

  // ---------- named collections ----------

  function StoreToJson(s: Store): Json {
    JObject(map["Name" := JString(s.name), "Count" := JNumber(|s.cache.items|), "Store" := CacheToJson(s.cache)])
  }

  function StoreFromJson(j: Json): Parsed<Store> {
    match j
    case JNull => Ok(Store([], Cache(false, [])))
    case JObject(f) =>
      if "Name" in f && "Store" in f && f["Name"].JString? then
        match CacheFromJson(f["Store"])
        case Throws => Throws
        case Ok(cache) => Ok(Store(f["Name"].s, cache))
      else Throws
    case _ => Throws
  }

  /** What is read of a named collection: null gives a nameless empty one. */
  lemma StoreReads(j: Json)
    ensures j == JNull ==> StoreFromJson(j) == Ok(Store([], Cache(false, [])))
    ensures StoreFromJson(j).Ok? && j != JNull ==>
              && j.JObject? && "Name" in j.fields && "Store" in j.fields
              && j.fields["Name"] == JString(StoreFromJson(j).value.name)
              && CacheFromJson(j.fields["Store"]) == Ok(StoreFromJson(j).value.cache)
  {
  }

  lemma StoreRoundTrip(s: Store)
    ensures StoreFromJson(StoreToJson(s)) == Ok(Store(s.name, Reloaded(s.cache)))
  {
    CacheRoundTrip(s.cache);
  }

  /** The object of a collection has its name, the number of its items, and one element for each. */
  ghost predicate StoreDescribed(j: Json, s: Store) {
    && j.JObject? && j.fields.Keys == {"Name", "Count", "Store"}
    && j.fields["Name"] == JString(s.name)
    && j.fields["Count"] == JNumber(|s.cache.items|)
    && (if s.cache.items == [] then j.fields["Store"] == JNull
        else j.fields["Store"].JArray? && ItemsDescribed(j.fields["Store"].elems, s.cache.items))
  }

  ghost predicate ItemsDescribed(elems: seq<Json>, items: seq<Item>) {
    |elems| == |items| && forall i :: 0 <= i < |items| ==> elems[i] == ItemToJson(items[i])
  }

  lemma {:induction false} ItemsInOrder(items: seq<Item>)
    ensures ItemsDescribed(ItemsToJson(items), items)
  {
    if items != [] { ItemsInOrder(items[..|items| - 1]); }
  }

  lemma StoreFields(s: Store)
    ensures StoreDescribed(StoreToJson(s), s)
  {
    ItemsInOrder(s.cache.items);
  }

  function StoresToJson(entries: seq<Store>): (r: seq<Json>)
    ensures |r| == |entries|
  {
    if entries == [] then [] else [StoreToJson(entries[0])] + StoresToJson(entries[1..])
  }

  function StoresFromJson(elems: seq<Json>): Parsed<seq<Store>> {
    if elems == [] then Ok([])
    else
      match (StoreFromJson(elems[0]), StoresFromJson(elems[1..]))
      case (Ok(s), Ok(rest)) => Ok([s] + rest)
      case _ => Throws
  }

  function ReloadedAll(entries: seq<Store>): (r: seq<Store>)
    ensures |r| == |entries|
    ensures forall i :: 0 <= i < |entries| ==> r[i] == Store(entries[i].name, Reloaded(entries[i].cache))
  {
    if entries == [] then [] else [Store(entries[0].name, Reloaded(entries[0].cache))] + ReloadedAll(entries[1..])
  }

  lemma {:induction false} StoresRoundTrip(entries: seq<Store>)
    ensures StoresFromJson(StoresToJson(entries)) == Ok(ReloadedAll(entries))
  {
    if entries != [] {
      StoreRoundTrip(entries[0]);
      StoresRoundTrip(entries[1..]);
    }
  }
}
