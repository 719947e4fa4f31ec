/**
 The locking protocol of src/change_lib/net/connect_queue.hpp, for any number of producers that
 call `push_back` and one consumer that calls `wait`, `empty` and `pop_front` as the server's
 `update` loop does.

 A thread's program counter names the lock operation it is about to perform or the work it does
 while holding locks.  One event is one such operation, so every interleaving is a run.
 Condition-variable wake-ups may be spurious.  Only safety is claimed: the emptiness test of
 `wait` is made without the blocking mutex, so a notification can be missed.
 */
module QueueConcurrency {
  import opened Options

  datatype Thread = Consumer | Producer(id: nat)

  datatype ProducerAt<+T> =
    | Idle
    | WantQueue(item: T)     // push_back called
    | HoldQueue(item: T)     // scoped_lock taken, about to push
    | WantBlocking           // pushed, still holding the queue mutex
    | HoldBoth               // about to notify
    | Notified               // about to release the blocking mutex
    | Leaving                // about to release the queue mutex

  datatype ConsumerAt =
    | Ready
    | WaitWantQueue | WaitHoldQueue        // wait(): the emptiness test
    | WaitWantBlocking | WaitHoldBlocking  // the queue was seen empty
    | Sleeping                             // in the condition variable, no mutex held
    | Waking | Woken                       // taking the blocking mutex back, then releasing it
    | TestWantQueue | TestHoldQueue        // update(): the emptiness test
    | PopWantQueue | PopHoldQueue | PopLeaving

  datatype State<+T> = State(
    queue: seq<T>,
    queueMutex: Option<Thread>,
    blockingMutex: Option<Thread>,
    producers: map<nat, ProducerAt<T>>,
    consumer: ConsumerAt,
    pushed: seq<T>,
    popped: seq<T>)

  datatype Event<+T> =
    | CallPush(id: nat, item: T)
    | CallWait
    | CallUpdate
    | SpuriousWake
    | Continue(thread: Thread)

  // ---------- what each program counter means ----------

  predicate WantsQueueMutex<T>(s: State<T>, t: Thread) {
    match t
    case Consumer => s.consumer in {WaitWantQueue, TestWantQueue, PopWantQueue}
    case Producer(i) => i in s.producers && s.producers[i].WantQueue?
  }

  predicate WantsBlockingMutex<T>(s: State<T>, t: Thread) {
    match t
    case Consumer => s.consumer in {WaitWantBlocking, Waking}
    case Producer(i) => i in s.producers && s.producers[i].WantBlocking?
  }

  predicate HoldsQueueMutex<T>(s: State<T>, t: Thread) {
    match t
    case Consumer => s.consumer in {WaitHoldQueue, TestHoldQueue, PopHoldQueue, PopLeaving}
    case Producer(i) => i in s.producers && !s.producers[i].Idle? && !s.producers[i].WantQueue?
  }

  predicate HoldsBlockingMutex<T>(s: State<T>, t: Thread) {
    match t
    case Consumer => s.consumer in {WaitHoldBlocking, Woken}
    case Producer(i) => i in s.producers && (s.producers[i].HoldBoth? || s.producers[i].Notified?)
  }

  /** Asking for a mutex that some thread has. */
  predicate Blocked<T>(s: State<T>, t: Thread) {
    || (WantsQueueMutex(s, t) && s.queueMutex.Some?)
    || (WantsBlockingMutex(s, t) && s.blockingMutex.Some?)
  }

  /** In the middle of an operation and not blocked. */
  predicate CanContinue<T>(s: State<T>, t: Thread) {
    && !Blocked(s, t)
    && match t
       case Consumer => s.consumer != Ready && s.consumer != Sleeping
       case Producer(i) => i in s.producers && !s.producers[i].Idle?
  }

  predicate Enabled<T>(s: State<T>, e: Event<T>) {
    match e
    case CallPush(i, item) => i in s.producers && s.producers[i].Idle?
    case CallWait => s.consumer == Ready
    case CallUpdate => s.consumer == Ready
    case SpuriousWake => s.consumer == Sleeping
    case Continue(t) => CanContinue(s, t)
  }

  function ProducerStep<T>(s: State<T>, i: nat): State<T>
    requires CanContinue(s, Producer(i))
  {
    match s.producers[i]
    case WantQueue(item) => s.(queueMutex := Some(Producer(i)), producers := s.producers[i := HoldQueue(item)])
    case HoldQueue(item) => s.(queue := s.queue + [item], pushed := s.pushed + [item], producers := s.producers[i := WantBlocking])
    case WantBlocking => s.(blockingMutex := Some(Producer(i)), producers := s.producers[i := HoldBoth])
    case HoldBoth => s.(consumer := if s.consumer == Sleeping then Waking else s.consumer, producers := s.producers[i := Notified])
    case Notified => s.(blockingMutex := None, producers := s.producers[i := Leaving])
    case Leaving => s.(queueMutex := None, producers := s.producers[i := Idle])
  }

  /** `PopHoldQueue` is `pop_front`: it has no meaning on an empty queue. */
  predicate ConsumerStepDefined<T>(s: State<T>) {
    s.consumer == PopHoldQueue ==> s.queue != []
  }

  function ConsumerStep<T>(s: State<T>): State<T>
    requires CanContinue(s, Consumer) && ConsumerStepDefined(s)
  {
    match s.consumer
    case WaitWantQueue => s.(queueMutex := Some(Consumer), consumer := WaitHoldQueue)
    case WaitHoldQueue => s.(queueMutex := None, consumer := if s.queue == [] then WaitWantBlocking else Ready)
    case WaitWantBlocking => s.(blockingMutex := Some(Consumer), consumer := WaitHoldBlocking)
    case WaitHoldBlocking => s.(blockingMutex := None, consumer := Sleeping)
    case Waking => s.(blockingMutex := Some(Consumer), consumer := Woken)
    case Woken => s.(blockingMutex := None, consumer := WaitWantQueue)
    case TestWantQueue => s.(queueMutex := Some(Consumer), consumer := TestHoldQueue)
    case TestHoldQueue => s.(queueMutex := None, consumer := if s.queue == [] then Ready else PopWantQueue)
    case PopWantQueue => s.(queueMutex := Some(Consumer), consumer := PopHoldQueue)
    case PopHoldQueue => s.(queue := s.queue[1..], popped := s.popped + [s.queue[0]], consumer := PopLeaving)
    case PopLeaving => s.(queueMutex := None, consumer := Ready)
  }

  predicate Defined<T>(s: State<T>, e: Event<T>) {
    e.Continue? && e.thread == Consumer ==> ConsumerStepDefined(s)
  }

  function Next<T>(s: State<T>, e: Event<T>): State<T>
    requires Enabled(s, e) && Defined(s, e)
  {
    match e
    case CallPush(i, item) => s.(producers := s.producers[i := WantQueue(item)])
    case CallWait => s.(consumer := WaitWantQueue)
    case CallUpdate => s.(consumer := TestWantQueue)
    case SpuriousWake => s.(consumer := Waking)
    case Continue(Consumer) => ConsumerStep(s)
    case Continue(Producer(i)) => ProducerStep(s, i)
  }

  ghost predicate Initial<T>(s: State<T>) {
    && s.queue == s.pushed == s.popped == []
    && s.queueMutex == s.blockingMutex == None
    && (forall i :: i in s.producers ==> s.producers[i] == Idle)
    && s.consumer == Ready
  }

  /** `states` is a run that takes the given events, all of them enabled. */
  ghost predicate IsRun<T>(states: seq<State<T>>, events: seq<Event<T>>) {
    && |states| == |events| + 1
    && Initial(states[0])
    && forall k :: 0 <= k < |events| ==>
         Enabled(states[k], events[k]) && (Defined(states[k], events[k]) ==> states[k + 1] == Next(states[k], events[k]))
  }

  // ---------- the invariant ----------

  ghost predicate OwnersAgree<T>(s: State<T>) {
    && (forall t: Thread :: HoldsQueueMutex(s, t) <==> s.queueMutex == Some(t))
    && (forall t: Thread :: HoldsBlockingMutex(s, t) <==> s.blockingMutex == Some(t))
  }

  ghost predicate Inv<T>(s: State<T>) {
    && OwnersAgree(s)
    && s.pushed == s.popped + s.queue
    && (s.consumer in {PopWantQueue, PopHoldQueue} ==> s.queue != [])
  }

  lemma InitialInv<T>(s: State<T>)
    requires Initial(s)
    ensures Inv(s)
  {
  }

  lemma ProducerOwners<T>(s: State<T>, i: nat)
    requires OwnersAgree(s) && CanContinue(s, Producer(i))
    ensures OwnersAgree(ProducerStep(s, i))
  {
    var s' := ProducerStep(s, i);
    var me := Producer(i);
    forall t: Thread
      ensures HoldsQueueMutex(s', t) <==> s'.queueMutex == Some(t)
      ensures HoldsBlockingMutex(s', t) <==> s'.blockingMutex == Some(t)
    {
      assert HoldsQueueMutex(s, t) <==> s.queueMutex == Some(t);
      assert HoldsBlockingMutex(s, t) <==> s.blockingMutex == Some(t);
      assert HoldsQueueMutex(s, me) <==> s.queueMutex == Some(me);
      assert HoldsBlockingMutex(s, me) <==> s.blockingMutex == Some(me);
    }
  }

  lemma ConsumerOwners<T>(s: State<T>)
    requires OwnersAgree(s) && CanContinue(s, Consumer) && ConsumerStepDefined(s)
    ensures OwnersAgree(ConsumerStep(s))
  {
    var s' := ConsumerStep(s);
    forall t: Thread
      ensures HoldsQueueMutex(s', t) <==> s'.queueMutex == Some(t)
      ensures HoldsBlockingMutex(s', t) <==> s'.blockingMutex == Some(t)
    {
      assert HoldsQueueMutex(s, t) <==> s.queueMutex == Some(t);
      assert HoldsBlockingMutex(s, t) <==> s.blockingMutex == Some(t);
      assert HoldsQueueMutex(s, Consumer) <==> s.queueMutex == Some(Consumer);
      assert HoldsBlockingMutex(s, Consumer) <==> s.blockingMutex == Some(Consumer);
    }
  }

  lemma CallOwners<T>(s: State<T>, e: Event<T>)
    requires OwnersAgree(s) && Enabled(s, e) && !e.Continue?
    ensures OwnersAgree(Next(s, e))
  {
    var s' := Next(s, e);
    forall t: Thread
      ensures HoldsQueueMutex(s', t) <==> s'.queueMutex == Some(t)
      ensures HoldsBlockingMutex(s', t) <==> s'.blockingMutex == Some(t)
    {
      assert HoldsQueueMutex(s, t) <==> s.queueMutex == Some(t);
      assert HoldsBlockingMutex(s, t) <==> s.blockingMutex == Some(t);
    }
  }

  lemma StepKeepsInv<T>(s: State<T>, e: Event<T>)
    requires Inv(s) && Enabled(s, e)
    ensures Defined(s, e)
    ensures Inv(Next(s, e))
  {
    match e {
      case Continue(Consumer) => ConsumerOwners(s);
      case Continue(Producer(i)) => ProducerOwners(s, i);
      case _ => CallOwners(s, e);
    }
  }

  /** `pop_front` never meets an empty queue, and the invariant holds, at every point of a run. */
  lemma {:induction false} RunKeepsInv<T>(states: seq<State<T>>, events: seq<Event<T>>, k: nat)
    requires IsRun(states, events) && k < |states|
    ensures Inv(states[k])
    ensures k < |events| ==> Defined(states[k], events[k])
    decreases k
  {
    if k == 0 {
      InitialInv(states[0]);
    } else {
      RunKeepsInv(states, events, k - 1);
      StepKeepsInv(states[k - 1], events[k - 1]);
    }
    if k < |events| {
      StepKeepsInv(states[k], events[k]);
    }
  }

  // ---------- the claims over all runs ----------

  /** What the consumer has taken is a prefix of what the producers have pushed, in order. */
  lemma PoppedIsPrefix<T>(states: seq<State<T>>, events: seq<Event<T>>, k: nat)
    requires IsRun(states, events) && k < |states|
    ensures states[k].popped <= states[k].pushed
    ensures states[k].pushed == states[k].popped + states[k].queue
  {
    RunKeepsInv(states, events, k);
  }

  /** No thread that has the blocking mutex ever asks for the queue mutex. */
  lemma LockOrder<T>(states: seq<State<T>>, events: seq<Event<T>>, k: nat, t: Thread)
    requires IsRun(states, events) && k < |states|
    requires states[k].blockingMutex == Some(t)
    ensures !WantsQueueMutex(states[k], t) && CanContinue(states[k], t)
  {
    RunKeepsInv(states, events, k);
    assert HoldsBlockingMutex(states[k], t);
  }

  /** No reachable state is a mutex deadlock: a blocked thread waits for one that can continue,
      or for one that waits for one that can continue. */
  lemma NoMutexDeadlock<T>(states: seq<State<T>>, events: seq<Event<T>>, k: nat, t: Thread)
    requires IsRun(states, events) && k < |states|
    requires Blocked(states[k], t)
    ensures exists u: Thread :: u != t && CanContinue(states[k], u) &&
              (states[k].queueMutex == Some(u) || states[k].blockingMutex == Some(u))
  {
    RunKeepsInv(states, events, k);
    var s := states[k];
    if s.blockingMutex.Some? {
      var u := s.blockingMutex.value;
      LockOrder(states, events, k, u);
    } else {
      var u := s.queueMutex.value;
      assert HoldsQueueMutex(s, u);
      assert CanContinue(s, u);
    }
  }

  /** Each mutex has at most one holder. */
  lemma MutualExclusion<T>(states: seq<State<T>>, events: seq<Event<T>>, k: nat, t: Thread, u: Thread)
    requires IsRun(states, events) && k < |states|
    requires (HoldsQueueMutex(states[k], t) && HoldsQueueMutex(states[k], u)) ||
             (HoldsBlockingMutex(states[k], t) && HoldsBlockingMutex(states[k], u))
    ensures t == u
  {
    RunKeepsInv(states, events, k);
  }
}
