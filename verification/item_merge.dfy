/**
 `std::ranges::merge` as src/change_lib/wall_cache_library.cpp uses it: two item lists, not
 necessarily sorted, into a buffer of exactly their joint length.
 */
module ItemMerge {
  import opened WallCache

  /** Takes the front of the second list only when it is strictly less. */
  function Merge(a: seq<Item>, b: seq<Item>): (m: seq<Item>)
    ensures |m| == |a| + |b|
  {
    if a == [] then b
    else if b == [] then a
    else if ItemLess(b[0], a[0]) then [b[0]] + Merge(a, b[1..])
    else [a[0]] + Merge(a[1..], b)
  }

  /** Which positions of the merge come from the first list. */
  function FromFirst(a: seq<Item>, b: seq<Item>): (f: seq<bool>)
    ensures |f| == |a| + |b|
  {
    if a == [] then seq(|b|, i => false)
    else if b == [] then seq(|a|, i => true)
    else if ItemLess(b[0], a[0]) then [false] + FromFirst(a, b[1..])
    else [true] + FromFirst(a[1..], b)
  }

  /** The entries at the positions with the given mark, in order. */
  function Pick(s: seq<Item>, marks: seq<bool>, mark: bool): seq<Item>
    requires |s| == |marks|
  {
    if s == [] then [] else (if marks[0] == mark then [s[0]] else []) + Pick(s[1..], marks[1..], mark)
  }

  /** What is written, followed by the merge of what is left, is the whole merge. */
  ghost predicate OnTheWay(written: seq<Item>, c1: seq<Item>, c2: seq<Item>, i: nat, j: nat) {
    i <= |c1| && j <= |c2| && |written| == i + j && written + Merge(c1[i..], c2[j..]) == Merge(c1, c2)
  }

  lemma MergeStep(a: seq<Item>, b: seq<Item>)
    requires a != [] && b != []
    ensures ItemLess(b[0], a[0]) ==> Merge(a, b) == [b[0]] + Merge(a, b[1..])
    ensures !ItemLess(b[0], a[0]) ==> Merge(a, b) == [a[0]] + Merge(a[1..], b)
  {
  }

  lemma Appended(written: seq<Item>, x: Item, rest: seq<Item>)
    ensures written + ([x] + rest) == (written + [x]) + rest
  {
  }

  lemma Tail(s: seq<Item>, i: nat)
    requires i < |s|
    ensures s[i..] != [] && s[i..][0] == s[i] && s[i..][1..] == s[i + 1..]
  {
  }

  lemma TakeSecond(written: seq<Item>, c1: seq<Item>, c2: seq<Item>, i: nat, j: nat)
    requires OnTheWay(written, c1, c2, i, j) && i < |c1| && j < |c2| && ItemLess(c2[j], c1[i])
    ensures OnTheWay(written + [c2[j]], c1, c2, i, j + 1)
  {
    Tail(c1, i);
    Tail(c2, j);
    MergeStep(c1[i..], c2[j..]);
    Appended(written, c2[j], Merge(c1[i..], c2[j + 1..]));
  }

  lemma TakeFirst(written: seq<Item>, c1: seq<Item>, c2: seq<Item>, i: nat, j: nat)
    requires OnTheWay(written, c1, c2, i, j) && i < |c1| && j < |c2| && !ItemLess(c2[j], c1[i])
    ensures OnTheWay(written + [c1[i]], c1, c2, i + 1, j)
  {
    Tail(c1, i);
    Tail(c2, j);
    MergeStep(c1[i..], c2[j..]);
    Appended(written, c1[i], Merge(c1[i + 1..], c2[j..]));
  }

  lemma MergeEnd(written: seq<Item>, c1: seq<Item>, c2: seq<Item>, i: nat, j: nat)
    requires OnTheWay(written, c1, c2, i, j)
    ensures i == |c1| ==> written + c2[j..] == Merge(c1, c2)
    ensures j == |c2| ==> written + c1[i..] == Merge(c1, c2)
  {
  }

  lemma MergeStart(c1: seq<Item>, c2: seq<Item>)
    ensures OnTheWay([], c1, c2, 0, 0)
  {
    assert c1[0..] == c1 && c2[0..] == c2;
  }

  /** `std::copy` of the rest of an input. */
  method Copy(src: seq<Item>, start: nat, out: array<Item>, at: nat)
    requires start <= |src| && at + (|src| - start) == out.Length
    modifies out
    ensures out[..] == old(out[..at]) + src[start..]
  {
    var k := start;
    while k < |src|
      invariant start <= k <= |src|
      invariant out[..at + (k - start)] == old(out[..at]) + src[start..k]
    {
      out[at + (k - start)] := src[k];
      k := k + 1;
    }
    assert out[..] == out[..at + (k - start)];
  }

  /** The two-pointer loop. */
  method RangesMerge(c1: seq<Item>, c2: seq<Item>, out: array<Item>)
    requires out.Length == |c1| + |c2|
    modifies out
    ensures out[..] == Merge(c1, c2)
  {
    var i, j := 0, 0;
    MergeStart(c1, c2);
    while i < |c1| && j < |c2|
      invariant 0 <= i <= |c1| && 0 <= j <= |c2|
      invariant OnTheWay(out[..i + j], c1, c2, i, j)
    {
      ghost var written := out[..i + j];
      if ItemLess(c2[j], c1[i]) {
        TakeSecond(written, c1, c2, i, j);
        out[i + j] := c2[j];
        assert out[..i + j + 1] == written + [c2[j]];
        j := j + 1;
      } else {
        TakeFirst(written, c1, c2, i, j);
        out[i + j] := c1[i];
        assert out[..i + j + 1] == written + [c1[i]];
        i := i + 1;
      }
    }
    CopyRest(c1, c2, out, i, j);
  }

  /** One input is used up: the rest of the other is copied. */
  method CopyRest(c1: seq<Item>, c2: seq<Item>, out: array<Item>, i: nat, j: nat)
    requires i <= |c1| && j <= |c2| && (i == |c1| || j == |c2|)
    requires out.Length == |c1| + |c2| && OnTheWay(out[..i + j], c1, c2, i, j)
    modifies out
    ensures out[..] == Merge(c1, c2)
  {
    MergeEnd(out[..i + j], c1, c2, i, j);
    if i < |c1| {
      Copy(c1, i, out, i + j);
    } else {
      Copy(c2, j, out, i + j);
    }
  }

  lemma {:induction false} PickAll(s: seq<Item>, mark: bool)
    ensures Pick(s, seq(|s|, i => mark), mark) == s
    ensures Pick(s, seq(|s|, i => mark), !mark) == []
  {
    if s != [] {
      assert seq(|s|, i => mark)[1..] == seq(|s| - 1, i => mark);
      PickAll(s[1..], mark);
    }
  }

  /** Both inputs are order-preserving complementary subsequences of the merge. */
  lemma {:induction false} MergeInterleaves(a: seq<Item>, b: seq<Item>)
    ensures Pick(Merge(a, b), FromFirst(a, b), true) == a
    ensures Pick(Merge(a, b), FromFirst(a, b), false) == b
  {
    if a == [] {
      PickAll(b, false);
    } else if b == [] {
      PickAll(a, true);
    } else {
      var m, f := Merge(a, b), FromFirst(a, b);
      if ItemLess(b[0], a[0]) {
        assert m[1..] == Merge(a, b[1..]) && f[1..] == FromFirst(a, b[1..]);
        MergeInterleaves(a, b[1..]);
      } else {
        assert m[1..] == Merge(a[1..], b) && f[1..] == FromFirst(a[1..], b);
        MergeInterleaves(a[1..], b);
      }
    }
  }

  lemma AddFront(x: Item, s: seq<Item>)
    ensures multiset([x] + s) == multiset{x} + multiset(s)
  {
  }

  lemma FrontAndRest(s: seq<Item>)
    requires s != []
    ensures s == [s[0]] + s[1..]
  {
  }

  lemma PickCons(s: seq<Item>, marks: seq<bool>, mark: bool)
    requires |s| == |marks| && s != []
    ensures Pick(s, marks, mark) == if marks[0] == mark then [s[0]] + Pick(s[1..], marks[1..], mark) else Pick(s[1..], marks[1..], mark)
  {
  }

  lemma {:induction false} PickPartition(s: seq<Item>, marks: seq<bool>)
    requires |s| == |marks|
    ensures multiset(s) == multiset(Pick(s, marks, true)) + multiset(Pick(s, marks, false))
  {
    if s != [] {
      PickPartition(s[1..], marks[1..]);
      PickCons(s, marks, true);
      PickCons(s, marks, false);
      AddFront(s[0], s[1..]);
      FrontAndRest(s);
      AddFront(s[0], Pick(s[1..], marks[1..], marks[0]));
    }
  }

  /** Nothing is lost, added or collapsed. */
  lemma MergeKeepsItems(a: seq<Item>, b: seq<Item>)
    ensures multiset(Merge(a, b)) == multiset(a) + multiset(b)
    ensures forall x :: x in Merge(a, b) <==> x in a || x in b
  {
    MergeInterleaves(a, b);
    PickPartition(Merge(a, b), FromFirst(a, b));
    forall x ensures x in Merge(a, b) <==> x in a || x in b {
      assert x in Merge(a, b) <==> multiset(Merge(a, b))[x] > 0;
      assert x in a <==> multiset(a)[x] > 0;
      assert x in b <==> multiset(b)[x] > 0;
    }
  }

  // ---------- order ----------

  ghost predicate Sorted(s: seq<Item>) {
    forall i, j :: 0 <= i < j < |s| ==> !ItemLess(s[j], s[i])
  }

  lemma LeastFront(a: seq<Item>, b: seq<Item>)
    requires a != [] && b != [] && Sorted(a) && Sorted(b)
    ensures ItemLess(b[0], a[0]) ==> forall x :: x in a || x in b[1..] ==> !ItemLess(x, b[0])
    ensures ItemLess(b[0], a[0]) ==> forall x :: x in a ==> ItemLess(b[0], x)
    ensures !ItemLess(b[0], a[0]) ==> forall x :: x in a[1..] || x in b ==> !ItemLess(x, a[0])
  {
    forall x | x in a ensures !ItemLess(x, a[0]) && (ItemLess(b[0], a[0]) ==> ItemLess(b[0], x)) {
      var i :| 0 <= i < |a| && a[i] == x;
      ItemTotal(a[0], x);
      if ItemLess(b[0], a[0]) && ItemLess(a[0], x) { ItemTransitive(b[0], a[0], x); }
    }
    forall x | x in b ensures !ItemLess(x, b[0]) && (!ItemLess(b[0], a[0]) ==> !ItemLess(x, a[0])) {
      var i :| 0 <= i < |b| && b[i] == x;
      ItemTotal(b[0], x);
      if ItemLess(b[0], x) && ItemLess(x, a[0]) { ItemTransitive(b[0], x, a[0]); }
    }
    forall x | x in a && ItemLess(b[0], a[0]) ensures !ItemLess(x, b[0]) { ItemTotal(x, b[0]); }
  }

  lemma SortedCons(x: Item, s: seq<Item>)
    requires Sorted(s) && forall y :: y in s ==> !ItemLess(y, x)
    ensures Sorted([x] + s)
  {
  }

  lemma {:induction false} MergeSorted(a: seq<Item>, b: seq<Item>)
    requires Sorted(a) && Sorted(b)
    ensures Sorted(Merge(a, b))
  {
    if a != [] && b != [] {
      LeastFront(a, b);
      if ItemLess(b[0], a[0]) {
        MergeSorted(a, b[1..]);
        MergeKeepsItems(a, b[1..]);
        SortedCons(b[0], Merge(a, b[1..]));
      } else {
        MergeSorted(a[1..], b);
        MergeKeepsItems(a[1..], b);
        SortedCons(a[0], Merge(a[1..], b));
      }
    }
  }

  lemma {:induction false} PickIn(s: seq<Item>, marks: seq<bool>, mark: bool)
    requires |s| == |marks|
    ensures forall x :: x in Pick(s, marks, mark) ==> x in s
  {
    if s != [] { PickIn(s[1..], marks[1..], mark); }
  }

  lemma {:induction false} PickSorted(s: seq<Item>, marks: seq<bool>, mark: bool)
    requires |s| == |marks| && Sorted(s)
    ensures Sorted(Pick(s, marks, mark))
  {
    if s != [] {
      PickSorted(s[1..], marks[1..], mark);
      PickIn(s[1..], marks[1..], mark);
      assert forall y :: y in s[1..] ==> !ItemLess(y, s[0]);
      if marks[0] == mark { SortedCons(s[0], Pick(s[1..], marks[1..], mark)); }
    }
  }

  /** The result is sorted exactly when both inputs are. */
  lemma MergeSortedIff(a: seq<Item>, b: seq<Item>)
    ensures Sorted(Merge(a, b)) <==> Sorted(a) && Sorted(b)
  {
    if Sorted(a) && Sorted(b) { MergeSorted(a, b); }
    if Sorted(Merge(a, b)) {
      MergeInterleaves(a, b);
      PickSorted(Merge(a, b), FromFirst(a, b), true);
      PickSorted(Merge(a, b), FromFirst(a, b), false);
    }
  }

  lemma SecondFrontLess(a: seq<Item>, b: seq<Item>, j: nat)
    requires a != [] && b != [] && Sorted(a) && Sorted(b) && ItemLess(b[0], a[0])
    requires j < |a| + |b| - 1 && FromFirst(a, b[1..])[j]
    ensures ItemLess(b[0], Merge(a, b[1..])[j])
  {
    LeastFront(a, b);
    PickMember(Merge(a, b[1..]), FromFirst(a, b[1..]), j);
    MergeInterleaves(a, b[1..]);
  }

  lemma FromFirstStep(a: seq<Item>, b: seq<Item>)
    requires a != [] && b != []
    ensures FromFirst(a, b) == if ItemLess(b[0], a[0]) then [false] + FromFirst(a, b[1..]) else [true] + FromFirst(a[1..], b)
  {
  }

  lemma AfterFront(a: seq<Item>, b: seq<Item>, k: nat)
    requires a != [] && b != [] && 0 < k < |a| + |b|
    ensures var (a', b') := if ItemLess(b[0], a[0]) then (a, b[1..]) else (a[1..], b);
            Merge(a, b)[k] == Merge(a', b')[k - 1] && FromFirst(a, b)[k] == FromFirst(a', b')[k - 1]
  {
    MergeStep(a, b);
    FromFirstStep(a, b);
  }

  lemma BothLeft(a: seq<Item>, b: seq<Item>, i: nat, j: nat)
    requires i < |a| + |b| && j < |a| + |b| && !FromFirst(a, b)[i] && FromFirst(a, b)[j]
    ensures a != [] && b != []
  {
  }

  lemma SortedTail(s: seq<Item>)
    requires Sorted(s) && s != []
    ensures Sorted(s[1..])
  {
  }

  /** Stability: an item of the second list gets in front of one of the first only if it is less. */
  lemma {:induction false} MergeStable(a: seq<Item>, b: seq<Item>, i: nat, j: nat)
    requires Sorted(a) && Sorted(b) && i < j < |a| + |b|
    requires !FromFirst(a, b)[i] && FromFirst(a, b)[j]
    ensures ItemLess(Merge(a, b)[i], Merge(a, b)[j])
  {
    BothLeft(a, b, i, j);
    AfterFront(a, b, j);
    if i == 0 {
      SecondFrontLess(a, b, j - 1);
    } else {
      AfterFront(a, b, i);
      SortedTail(a);
      SortedTail(b);
      var (a', b') := if ItemLess(b[0], a[0]) then (a, b[1..]) else (a[1..], b);
      MergeStable(a', b', i - 1, j - 1);
    }
  }

  lemma {:induction false} PickMember(s: seq<Item>, marks: seq<bool>, i: nat)
    requires i < |s| == |marks|
    ensures s[i] in Pick(s, marks, marks[i])
  {
    if i > 0 { PickMember(s[1..], marks[1..], i - 1); }
  }

  /** Every item is the same as a later one or precedes it. */
  ghost predicate InOrder(s: seq<Item>) {
    forall i, j :: 0 <= i < j < |s| ==> s[i] == s[j] || Precedes(s[i], s[j])
  }

  lemma InOrderIff(s: seq<Item>)
    ensures InOrder(s) <==> Sorted(s)
  {
    forall i, j | 0 <= i < j < |s| ensures s[i] == s[j] || Precedes(s[i], s[j]) <==> !ItemLess(s[j], s[i]) {
      ItemTotal(s[i], s[j]);
      ItemTotal(s[i], s[i]);
      ItemLessIff(s[i], s[j]);
    }
  }

  /** The merge is in order, by value, state and location, exactly when both inputs are; and then an
      item of the second list that comes before one of the first strictly precedes it. */
  lemma MergeInOrderIff(a: seq<Item>, b: seq<Item>)
    ensures InOrder(Merge(a, b)) <==> InOrder(a) && InOrder(b)
    ensures InOrder(a) && InOrder(b) ==>
              forall i, j :: 0 <= i < j < |a| + |b| && !FromFirst(a, b)[i] && FromFirst(a, b)[j] ==>
                Precedes(Merge(a, b)[i], Merge(a, b)[j])
  {
    InOrderIff(a);
    InOrderIff(b);
    InOrderIff(Merge(a, b));
    MergeSortedIff(a, b);
    if InOrder(a) && InOrder(b) {
      forall i, j | 0 <= i < j < |a| + |b| && !FromFirst(a, b)[i] && FromFirst(a, b)[j]
        ensures Precedes(Merge(a, b)[i], Merge(a, b)[j])
      {
        MergeStable(a, b, i, j);
        ItemLessIff(Merge(a, b)[i], Merge(a, b)[j]);
      }
    }
  }

  /** How many of the first `k` items come from the first list. */
  function TakenFirst(marks: seq<bool>, k: nat): (n: nat)
    requires k <= |marks|
    ensures n <= k
  {
    if k == 0 then 0 else (if marks[0] then 1 else 0) + TakenFirst(marks[1..], k - 1)
  }

  /** What is taken next when `i` and `j` items have been taken: the front of the second list if that
      strictly precedes the front of the first or the first is used up, and else that of the first. */
  ghost predicate Chosen(a: seq<Item>, b: seq<Item>, i: nat, j: nat, item: Item, fromFirst: bool) {
    && i <= |a| && j <= |b|
    && (if fromFirst then i < |a| && item == a[i] && (j < |b| ==> !Precedes(b[j], a[i]))
        else j < |b| && item == b[j] && (i < |a| ==> Precedes(b[j], a[i])))
  }

  /** The `k`th item of `m`, from the list that `marks` tells, is the one to be taken next. */
  ghost predicate ChosenAt(a: seq<Item>, b: seq<Item>, m: seq<Item>, marks: seq<bool>, k: nat)
    requires |m| == |marks| && k < |m|
  {
    var i := TakenFirst(marks, k);
    Chosen(a, b, i, k - i, m[k], marks[k])
  }

  /** The whole merge, position by position, for any inputs, in order or not. */
  lemma MergeChoices(a: seq<Item>, b: seq<Item>, k: nat)
    requires k < |a| + |b|
    ensures ChosenAt(a, b, Merge(a, b), FromFirst(a, b), k)
  {
    LessChoices(a, b, k);
    ChoiceSpelt(a, b, Merge(a, b), FromFirst(a, b), k);
  }

  predicate ChosenByLess(a: seq<Item>, b: seq<Item>, m: seq<Item>, marks: seq<bool>, k: nat)
    requires |m| == |marks| && k < |m|
  {
    var i := TakenFirst(marks, k);
    var j := k - i;
    && i <= |a| && j <= |b|
    && (if marks[k] then i < |a| && m[k] == a[i] && (j < |b| ==> !ItemLess(b[j], a[i]))
        else j < |b| && m[k] == b[j] && (i < |a| ==> ItemLess(b[j], a[i])))
  }

  lemma ChoiceSpelt(a: seq<Item>, b: seq<Item>, m: seq<Item>, marks: seq<bool>, k: nat)
    requires |m| == |marks| && k < |m| && ChosenByLess(a, b, m, marks, k)
    ensures ChosenAt(a, b, m, marks, k)
  {
    var i := TakenFirst(marks, k);
    if i < |a| && k - i < |b| { ItemLessIff(b[k - i], a[i]); }
  }

  lemma TakenCons(mark: bool, rest: seq<bool>, k: nat)
    requires 0 < k <= |rest| + 1
    ensures TakenFirst([mark] + rest, k) == (if mark then 1 else 0) + TakenFirst(rest, k - 1)
  {
    assert ([mark] + rest)[1..] == rest;
  }

  lemma ChoiceAfterFirst(a: seq<Item>, b: seq<Item>, m: seq<Item>, marks: seq<bool>, k: nat)
    requires |m| == |marks| && 0 < k <= |m| && a != [] && ChosenByLess(a[1..], b, m, marks, k - 1)
    ensures ChosenByLess(a, b, [a[0]] + m, [true] + marks, k)
  {
    TakenCons(true, marks, k);
  }

  lemma ChoiceAfterSecond(a: seq<Item>, b: seq<Item>, m: seq<Item>, marks: seq<bool>, k: nat)
    requires |m| == |marks| && 0 < k <= |m| && b != [] && ChosenByLess(a, b[1..], m, marks, k - 1)
    ensures ChosenByLess(a, b, [b[0]] + m, [false] + marks, k)
  {
    TakenCons(false, marks, k);
  }

  lemma ChoiceOfOne(a: seq<Item>, b: seq<Item>, m: seq<Item>, marks: seq<bool>, k: nat)
    requires k < |m| == |marks| == |a| + |b|
    requires || (a == [] && m == b && forall i :: 0 <= i < |b| ==> !marks[i])
             || (b == [] && m == a && forall i :: 0 <= i < |a| ==> marks[i])
    ensures ChosenByLess(a, b, m, marks, k)
  {
    AllFromOne(marks, k, b == []);
  }

  lemma {:induction false} LessChoices(a: seq<Item>, b: seq<Item>, k: nat)
    requires k < |a| + |b|
    ensures ChosenByLess(a, b, Merge(a, b), FromFirst(a, b), k)
  {
    if a == [] || b == [] {
      ChoiceOfOne(a, b, Merge(a, b), FromFirst(a, b), k);
    } else {
      MergeStep(a, b);
      FromFirstStep(a, b);
      if k > 0 {
        if ItemLess(b[0], a[0]) {
          LessChoices(a, b[1..], k - 1);
          ChoiceAfterSecond(a, b, Merge(a, b[1..]), FromFirst(a, b[1..]), k);
        } else {
          LessChoices(a[1..], b, k - 1);
          ChoiceAfterFirst(a, b, Merge(a[1..], b), FromFirst(a[1..], b), k);
        }
      }
    }
  }

  lemma {:induction false} AllFromOne(marks: seq<bool>, k: nat, mark: bool)
    requires k <= |marks| && forall i :: 0 <= i < |marks| ==> marks[i] == mark
    ensures TakenFirst(marks, k) == if mark then k else 0
  {
    if k > 0 { AllFromOne(marks[1..], k - 1, mark); }
  }

  // ---------- distinctness ----------

  lemma DistinctIffSingle(items: seq<Item>)
    ensures DistinctItems(items) <==> forall x :: multiset(items)[x] <= 1
  {
    if DistinctItems(items) {
      forall x ensures multiset(items)[x] <= 1 { DistinctSingle(items, x); }
    } else {
      var i, j :| 0 <= i < j < |items| && items[i] == items[j];
      RepeatedTwice(items, i, j);
    }
  }

  lemma RepeatedTwice(items: seq<Item>, i: nat, j: nat)
    requires i < j < |items| && items[i] == items[j]
    ensures multiset(items)[items[i]] >= 2
  {
    var front, back := items[..j], items[j..];
    assert items == front + back;
    assert front[i] in front && back[0] in back;
    assert multiset(items) == multiset(front) + multiset(back);
  }

  lemma {:induction false} DistinctSingle(items: seq<Item>, x: Item)
    requires DistinctItems(items)
    ensures multiset(items)[x] <= 1
  {
    if items != [] {
      var front, last := items[..|items| - 1], items[|items| - 1];
      assert items == front + [last];
      DistinctSingle(front, x);
      if last == x { assert x !in front; }
    }
  }

  /** A merge keeps items distinct exactly when the inputs are distinct and share none. */
  lemma MergeDistinctIff(a: seq<Item>, b: seq<Item>)
    ensures DistinctItems(Merge(a, b)) <==>
            DistinctItems(a) && DistinctItems(b) && forall x :: x in a ==> x !in b
  {
    MergeKeepsItems(a, b);
    DistinctIffSingle(Merge(a, b));
    DistinctIffSingle(a);
    DistinctIffSingle(b);
    var ma, mb, m := multiset(a), multiset(b), multiset(Merge(a, b));
    assert forall x :: m[x] == ma[x] + mb[x];
    assert forall x :: (x in a <==> ma[x] > 0) && (x in b <==> mb[x] > 0);
  }
}
