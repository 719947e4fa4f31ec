/**
 What a thread can rely on when it calls `push_back`, `wait` or `update` of
 src/change_lib/net/connect_queue.hpp and server_interface.hpp, over all runs of the locking
 protocol: a push puts its item on the queue once; `wait` returns only when there is an item, and
 sleeps only after it saw none; `update` pops exactly when it saw an item.
 */
module QueueWaiting {
  import opened QueueConcurrency

  lemma RunStep<T>(states: seq<State<T>>, events: seq<Event<T>>, k: nat)
    requires IsRun(states, events) && k < |events|
    ensures Enabled(states[k], events[k]) && Defined(states[k], events[k]) && states[k + 1] == Next(states[k], events[k])
    ensures Inv(states[k]) && Inv(states[k + 1])
  {
    RunKeepsInv(states, events, k);
    RunKeepsInv(states, events, k + 1);
  }

  // ---------- pushing ----------

  /** A thread is about to push this item. */
  ghost predicate AboutToPush<T>(s: State<T>, i: nat, item: T) {
    i in s.producers && s.producers[i] == HoldQueue(item)
  }

  /** Exactly the threads that hold the queue for a push put their item on it, once and at the end;
      a call of `push_back` is what brings an item there. */
  lemma PushesOnce<T>(states: seq<State<T>>, events: seq<Event<T>>, k: nat)
    requires IsRun(states, events) && k < |events|
    ensures states[k + 1].pushed == states[k].pushed ||
            exists i, item :: events[k] == Continue(Producer(i)) && AboutToPush(states[k], i, item) &&
              states[k + 1].pushed == states[k].pushed + [item]
    ensures forall i, item :: events[k] == Continue(Producer(i)) && AboutToPush(states[k], i, item) ==>
              states[k + 1].pushed == states[k].pushed + [item]
    ensures forall i, item :: events[k] == CallPush(i, item) ==>
              i in states[k + 1].producers && states[k + 1].producers[i] == WantQueue(item)
  {
    RunStep(states, events, k);
    if events[k].Continue? && events[k].thread.Producer? && states[k].producers[events[k].thread.id].HoldQueue? {
      var i := events[k].thread.id;
      assert AboutToPush(states[k], i, states[k].producers[i].item);
    }
  }

  /** Only a call brings a thread to ask for the queue, and it keeps its item until it pushes it. */
  lemma PushesTheItemCalled<T>(states: seq<State<T>>, events: seq<Event<T>>, k: nat, i: nat, item: T)
    requires IsRun(states, events) && k < |events| && AboutToPush(states[k + 1], i, item)
    ensures AboutToPush(states[k], i, item) || (i in states[k].producers && states[k].producers[i] == WantQueue(item))
  {
    RunStep(states, events, k);
  }

  lemma ItemFromCall<T>(states: seq<State<T>>, events: seq<Event<T>>, k: nat, i: nat, item: T)
    requires IsRun(states, events) && k < |events| && i in states[k + 1].producers
    requires states[k + 1].producers[i] == WantQueue(item)
    ensures events[k] == CallPush(i, item) || (i in states[k].producers && states[k].producers[i] == WantQueue(item))
  {
    RunStep(states, events, k);
  }

  // ---------- notifying ----------

  /** The producer has pushed in this call of `push_back`. */
  ghost predicate HasPushed<T>(s: State<T>, i: nat) {
    i in s.producers && (s.producers[i].WantBlocking? || s.producers[i].HoldBoth? || s.producers[i].Notified? || s.producers[i].Leaving?)
  }

  ghost predicate HasNotified<T>(s: State<T>, i: nat) {
    i in s.producers && (s.producers[i].Notified? || s.producers[i].Leaving?)
  }

  ghost predicate Pushes<T>(s: State<T>, e: Event<T>, i: nat) {
    i in s.producers && s.producers[i].HoldQueue? && e == Continue(Producer(i))
  }

  ghost predicate Notifies<T>(s: State<T>, e: Event<T>, i: nat) {
    i in s.producers && s.producers[i].HoldBoth? && e == Continue(Producer(i))
  }

  lemma PushBefore<T>(states: seq<State<T>>, events: seq<Event<T>>, k: nat, i: nat)
    requires IsRun(states, events) && k < |events| && HasPushed(states[k + 1], i)
    ensures HasPushed(states[k], i) || Pushes(states[k], events[k], i)
  {
    RunStep(states, events, k);
  }

  lemma NotifyBefore<T>(states: seq<State<T>>, events: seq<Event<T>>, k: nat, i: nat)
    requires IsRun(states, events) && k < |events| && HasNotified(states[k + 1], i)
    ensures HasNotified(states[k], i) || Notifies(states[k], events[k], i)
  {
    RunStep(states, events, k);
  }

  lemma NothingBefore<T>(states: seq<State<T>>, events: seq<Event<T>>, i: nat)
    requires IsRun(states, events)
    ensures !HasPushed(states[0], i)
  {
  }

  lemma {:induction false} PushedInThisCall<T>(states: seq<State<T>>, events: seq<Event<T>>, k: nat, i: nat) returns (push: nat)
    requires IsRun(states, events) && k < |states| && HasPushed(states[k], i)
    ensures push < k && Pushes(states[push], events[push], i)
    ensures forall t :: push < t <= k ==> HasPushed(states[t], i)
    decreases k
  {
    NothingBefore(states, events, i);
    PushBefore(states, events, k - 1, i);
    if HasPushed(states[k - 1], i) {
      push := PushedInThisCall(states, events, k - 1, i);
    } else {
      push := k - 1;
    }
  }

  lemma {:induction false} NotifiedInThisCall<T>(states: seq<State<T>>, events: seq<Event<T>>, k: nat, i: nat) returns (notify: nat)
    requires IsRun(states, events) && k < |states| && HasNotified(states[k], i)
    ensures notify < k && Notifies(states[notify], events[notify], i)
    ensures forall t :: notify < t <= k ==> HasNotified(states[t], i)
    decreases k
  {
    NothingBefore(states, events, i);
    NotifyBefore(states, events, k - 1, i);
    if HasNotified(states[k - 1], i) {
      notify := NotifiedInThisCall(states, events, k - 1, i);
    } else {
      notify := k - 1;
    }
  }

  /** No producer comes back from `push_back` without having pushed and then notified. */
  lemma ReturnsAfterNotify<T>(states: seq<State<T>>, events: seq<Event<T>>, k: nat, i: nat) returns (push: nat, notify: nat)
    requires IsRun(states, events) && k < |events| && i in states[k].producers && i in states[k + 1].producers
    requires !states[k].producers[i].Idle? && states[k + 1].producers[i].Idle?
    ensures push < notify < k && Pushes(states[push], events[push], i) && Notifies(states[notify], events[notify], i)
    ensures forall t :: push < t <= k ==> HasPushed(states[t], i)
  {
    RunStep(states, events, k);
    assert HasNotified(states[k], i);
    notify := NotifiedInThisCall(states, events, k, i);
    push := PushedInThisCall(states, events, notify, i);
    forall t | push < t <= k ensures HasPushed(states[t], i) {
      if t > notify { assert HasNotified(states[t], i); }
    }
  }

  // ---------- waiting ----------

  predicate InWait(c: ConsumerAt) {
    c in {WaitWantQueue, WaitHoldQueue, WaitWantBlocking, WaitHoldBlocking, Sleeping, Waking, Woken}
  }

  /** A call of `wait` does not return at once. */
  lemma WaitBegins<T>(states: seq<State<T>>, events: seq<Event<T>>, k: nat)
    requires IsRun(states, events) && k < |events|
    ensures events[k] == CallWait ==> InWait(states[k + 1].consumer)
    ensures InWait(states[k + 1].consumer) && !InWait(states[k].consumer) ==> events[k] == CallWait
  {
    RunStep(states, events, k);
  }

  /** When `wait` returns the queue has an item. */
  lemma WaitReturns<T>(states: seq<State<T>>, events: seq<Event<T>>, k: nat)
    requires IsRun(states, events) && k < |events|
    requires InWait(states[k].consumer) && !InWait(states[k + 1].consumer)
    ensures states[k + 1].consumer == Ready && states[k + 1].queue != [] && states[k + 1].queue == states[k].queue
  {
    RunStep(states, events, k);
  }

  /** `wait` is over with the test exactly if that finds an item. */
  lemma WaitTests<T>(states: seq<State<T>>, events: seq<Event<T>>, k: nat)
    requires IsRun(states, events) && k < |events|
    requires states[k].consumer == WaitHoldQueue && events[k] == Continue(Consumer)
    ensures states[k + 1].consumer == Ready <==> states[k].queue != []
    ensures states[k + 1].consumer == WaitWantBlocking <==> states[k].queue == []
  {
    RunStep(states, events, k);
  }

  predicate OnTheWayToSleep(c: ConsumerAt) {
    c in {WaitWantBlocking, WaitHoldBlocking, Sleeping}
  }

  lemma SleepBack<T>(states: seq<State<T>>, events: seq<Event<T>>, k: nat)
    requires IsRun(states, events) && k < |events| && OnTheWayToSleep(states[k + 1].consumer)
    ensures OnTheWayToSleep(states[k].consumer) ||
            (states[k].consumer == WaitHoldQueue && events[k] == Continue(Consumer) && states[k].queue == [])
  {
    RunStep(states, events, k);
  }

  /** A consumer that sleeps, or is about to, has seen the queue empty since it last did anything else. */
  lemma {:induction false} SleepsAfterEmpty<T>(states: seq<State<T>>, events: seq<Event<T>>, k: nat) returns (j: nat)
    requires IsRun(states, events) && k < |states| && OnTheWayToSleep(states[k].consumer)
    ensures j < k && states[j].consumer == WaitHoldQueue && events[j] == Continue(Consumer) && states[j].queue == []
    ensures forall i :: j < i <= k ==> OnTheWayToSleep(states[i].consumer)
    decreases k
  {
    SleepBack(states, events, k - 1);
    if OnTheWayToSleep(states[k - 1].consumer) {
      j := SleepsAfterEmpty(states, events, k - 1);
    } else {
      j := k - 1;
    }
  }

  /** A notification wakes a sleeping consumer, and only that or a spurious wake-up does. */
  lemma NotifyWakes<T>(states: seq<State<T>>, events: seq<Event<T>>, k: nat)
    requires IsRun(states, events) && k < |events|
    ensures var notifies := exists i :: i in states[k].producers && states[k].producers[i].HoldBoth? && events[k] == Continue(Producer(i));
            && (notifies ==> states[k + 1].consumer != Sleeping)
            && (states[k].consumer == Sleeping ==>
                  (states[k + 1].consumer == Waking <==> notifies || events[k] == SpuriousWake)
                  && (states[k + 1].consumer == Sleeping <==> !(notifies || events[k] == SpuriousWake)))
  {
    RunStep(states, events, k);
  }

  lemma GrowStep<T>(states: seq<State<T>>, events: seq<Event<T>>, k: nat)
    requires IsRun(states, events) && k < |events|
    ensures states[k].pushed <= states[k + 1].pushed && states[k].popped <= states[k + 1].popped
  {
    RunStep(states, events, k);
  }

  lemma {:induction false} PushedGrows<T>(states: seq<State<T>>, events: seq<Event<T>>, j: nat, k: nat)
    requires IsRun(states, events) && j <= k < |states|
    ensures states[j].pushed <= states[k].pushed && states[j].popped <= states[k].popped
    decreases k
  {
    if j < k {
      PushedGrows(states, events, j, k - 1);
      GrowStep(states, events, k - 1);
    }
  }

  /** Once there is an item there is one until the next pop: the consumer that `wait` has returned to
      finds it. */
  lemma ItemStays<T>(states: seq<State<T>>, events: seq<Event<T>>, j: nat, k: nat)
    requires IsRun(states, events) && j <= k < |states|
    requires states[j].queue != [] && |states[k].popped| == |states[j].popped|
    ensures states[k].queue != [] && states[k].queue[0] == states[j].queue[0]
  {
    PushedGrows(states, events, j, k);
    RunKeepsInv(states, events, j);
    RunKeepsInv(states, events, k);
    assert states[k].pushed[|states[j].popped|] == states[j].pushed[|states[j].popped|];
  }

  // ---------- updating ----------

  predicate AboutToPop(c: ConsumerAt) {
    c in {PopWantQueue, PopHoldQueue}
  }

  /** The test of `update` is followed by a pop exactly if it finds an item. */
  lemma UpdateTests<T>(states: seq<State<T>>, events: seq<Event<T>>, k: nat)
    requires IsRun(states, events) && k < |events|
    requires states[k].consumer == TestHoldQueue && events[k] == Continue(Consumer)
    ensures AboutToPop(states[k + 1].consumer) <==> states[k].queue != []
    ensures states[k + 1].consumer == Ready <==> states[k].queue == []
  {
    RunStep(states, events, k);
  }

  lemma UpdateBegins<T>(states: seq<State<T>>, events: seq<Event<T>>, k: nat)
    requires IsRun(states, events) && k < |events|
    ensures events[k] == CallUpdate ==> states[k + 1].consumer == TestWantQueue
    ensures states[k + 1].consumer == TestHoldQueue && states[k].consumer != TestHoldQueue ==> states[k].consumer == TestWantQueue
  {
    RunStep(states, events, k);
  }

  /** A consumer on the way to a pop gets there: it stays on the way until it takes the front item. */
  lemma PopsTheFront<T>(states: seq<State<T>>, events: seq<Event<T>>, k: nat)
    requires IsRun(states, events) && k < |events| && AboutToPop(states[k].consumer)
    ensures states[k].queue != []
    ensures if AboutToPop(states[k + 1].consumer) then states[k + 1].popped == states[k].popped
            else states[k + 1].consumer == PopLeaving
                 && states[k + 1].popped == states[k].popped + [states[k].queue[0]]
                 && states[k + 1].queue == states[k].queue[1..]
    ensures events[k] == Continue(Consumer) && states[k].consumer == PopHoldQueue ==> states[k + 1].consumer == PopLeaving
  {
    RunStep(states, events, k);
  }

  lemma PopBack<T>(states: seq<State<T>>, events: seq<Event<T>>, k: nat)
    requires IsRun(states, events) && k < |events| && AboutToPop(states[k + 1].consumer)
    ensures AboutToPop(states[k].consumer) ||
            (states[k].consumer == TestHoldQueue && events[k] == Continue(Consumer) && states[k].queue != [])
  {
    RunStep(states, events, k);
  }

  /** Nothing is popped but by a consumer that has seen an item. */
  lemma {:induction false} PopsAfterItem<T>(states: seq<State<T>>, events: seq<Event<T>>, k: nat) returns (j: nat)
    requires IsRun(states, events) && k < |states| && AboutToPop(states[k].consumer)
    ensures j < k && states[j].consumer == TestHoldQueue && events[j] == Continue(Consumer) && states[j].queue != []
    ensures forall i :: j < i <= k ==> AboutToPop(states[i].consumer)
    decreases k
  {
    PopBack(states, events, k - 1);
    if AboutToPop(states[k - 1].consumer) {
      j := PopsAfterItem(states, events, k - 1);
    } else {
      j := k - 1;
    }
  }

  lemma PopsOnlyThen<T>(states: seq<State<T>>, events: seq<Event<T>>, k: nat)
    requires IsRun(states, events) && k < |events|
    ensures states[k + 1].popped != states[k].popped ==> AboutToPop(states[k].consumer) && !AboutToPop(states[k + 1].consumer)
  {
    RunStep(states, events, k);
  }
}
