/**
 How a connection ends: what a disconnect, a failed read and a failed write lead to, over all runs.

 An end is live while its socket is open and it counts as connected.  Going down is final: the end
 accepts no more messages, runs what was posted before, then closes, and moves no more bytes.
 */
module Disconnects {
  import opened NetMessage
  import opened Connections
  import opened DeliverySteps
  import opened Delivery

  function EndOf(s: System, first: bool): Side {
    if first then s.a else s.b
  }

  predicate Live(x: Side) {
    x.end.open && x.end.connected
  }

  lemma StepOf(states: seq<System>, events: seq<Event>, k: nat, first: bool)
    requires IsRun(states, events) && k < |events|
    ensures var x, peer := EndOf(states[k], first), EndOf(states[k], !first);
            if events[k].first == first
            then Enabled(x, peer, events[k].action) && EndOf(states[k + 1], first) == Act(x, peer, events[k].action)
            else EndOf(states[k + 1], first) == x
  {
    assert IsStep(states, events, k);
  }

  // ---------- closing ----------

  /** While an end is connected no close is posted; once it is not, the close is the last thing
      posted; once it is closed nothing is. */
  ghost predicate ClosesOnce(e: Endpoint) {
    && (e.connected ==> e.open && CloseTask !in e.posted)
    && (e.open && !e.connected ==>
          e.posted != [] && e.posted[|e.posted| - 1] == CloseTask && CloseTask !in e.posted[..|e.posted| - 1])
    && (!e.open ==> e.posted == [])
  }

  lemma TaskKeepsClose(x: Side, peer: Side)
    requires ClosesOnce(x.end) && Enabled(x, peer, RunTask)
    ensures ClosesOnce(Act(x, peer, RunTask).end)
  {
    var posted := x.end.posted;
    var rest := Act(x, peer, RunTask).end.posted;
    assert rest == posted[1..];
    if x.end.open && !x.end.connected && |posted| > 1 {
      assert posted[0] in posted[..|posted| - 1];
      assert rest[..|rest| - 1] == posted[..|posted| - 1][1..];
    }
  }

  lemma ActKeepsClose(x: Side, peer: Side, action: Action)
    requires ClosesOnce(x.end) && Enabled(x, peer, action)
    ensures ClosesOnce(Act(x, peer, action).end)
  {
    if action.RunTask? {
      TaskKeepsClose(x, peer);
    } else {
      PostsAtMostOne(x, peer, action);
    }
  }

  lemma PostsAtMostOne(x: Side, peer: Side, action: Action)
    requires ClosesOnce(x.end) && Enabled(x, peer, action) && !action.RunTask?
    ensures var e, e' := x.end, Act(x, peer, action).end;
            && e'.open == e.open
            && (|| (e'.posted == e.posted && e'.connected == e.connected)
                || (e.connected && e'.connected && action.Send? && e'.posted == e.posted + [SendTask(action.msg)])
                || (e.connected && !e'.connected && e'.posted == e.posted + [CloseTask]))
  {
  }

  /** At every point of every run, at both ends. */
  lemma {:induction false} ClosesAlways(states: seq<System>, events: seq<Event>, k: nat, first: bool)
    requires IsRun(states, events) && k < |states|
    ensures ClosesOnce(EndOf(states[k], first).end)
    decreases k
  {
    if k > 0 {
      ClosesAlways(states, events, k - 1, first);
      StepOf(states, events, k - 1, first);
      if events[k - 1].first == first {
        ActKeepsClose(EndOf(states[k - 1], first), EndOf(states[k - 1], !first), events[k - 1].action);
      }
    }
  }

  /** An end is live exactly when it is open and no close is posted. */
  lemma LiveIff(states: seq<System>, events: seq<Event>, k: nat, first: bool)
    requires IsRun(states, events) && k < |states|
    ensures var x := EndOf(states[k], first);
            && (Live(x) <==> x.end.open && CloseTask !in x.end.posted)
            && (!Live(x) && x.end.posted == [] ==> !x.end.open)
  {
    ClosesAlways(states, events, k, first);
    var x := EndOf(states[k], first);
    if x.end.open && !x.end.connected {
      assert x.end.posted[|x.end.posted| - 1] == CloseTask;
    }
  }

  // ---------- going down ----------

  predicate GoesDown(action: Action) {
    action.Disconnect? || action.FailRead? || action.FailWrite?
  }

  /** A disconnect or an error takes the end down at once; of a live end the close is then posted. */
  lemma DownAtOnce(states: seq<System>, events: seq<Event>, k: nat, first: bool)
    requires IsRun(states, events) && k < |events| && events[k].first == first && GoesDown(events[k].action)
    ensures var x, x' := EndOf(states[k], first), EndOf(states[k + 1], first);
            && !Live(x') && x'.accepted == x.accepted && x'.end.open == x.end.open
            && x'.end.posted == if Live(x) then x.end.posted + [CloseTask] else x.end.posted
  {
    StepOf(states, events, k, first);
  }

  /** What an end that is not live still does. */
  lemma DownStep(x: Side, peer: Side, action: Action)
    requires Enabled(x, peer, action) && !Live(x)
    ensures var x' := Act(x, peer, action);
            && !Live(x') && x'.accepted == x.accepted
            && x'.end.posted == (if action.RunTask? then x.end.posted[1..] else x.end.posted)
            && (!x.end.open ==> !x'.end.open && x'.emitted == x.emitted && x'.consumed == x.consumed)
  {
  }

  /** How many posted handlers one end runs between two points. */
  function TasksRun(events: seq<Event>, first: bool, j: nat, k: nat): nat
    requires j <= k <= |events|
  {
    if j == k then 0
    else TasksRun(events, first, j, k - 1) + RanTask(events, first, k - 1)
  }

  lemma TasksRunNext(events: seq<Event>, first: bool, j: nat, k: nat)
    requires j <= k < |events|
    ensures TasksRun(events, first, j, k + 1) == TasksRun(events, first, j, k) + RanTask(events, first, k)
  {
  }

  function RanTask(events: seq<Event>, first: bool, k: nat): nat
    requires k < |events|
  {
    if events[k] == Event(first, RunTask) then 1 else 0
  }

  /** The end is down, has accepted nothing since, and has run `n` of the posted handlers. */
  ghost predicate DownSince(x: Side, x': Side, n: nat) {
    && !Live(x') && x'.accepted == x.accepted
    && n <= |x.end.posted| && x'.end.posted == x.end.posted[n..]
  }

  lemma DownRunStep(states: seq<System>, events: seq<Event>, k: nat, first: bool)
    requires IsRun(states, events) && k < |events| && !Live(EndOf(states[k], first))
    ensures DownSince(EndOf(states[k], first), EndOf(states[k + 1], first), RanTask(events, first, k))
  {
    StepOf(states, events, k, first);
    if events[k].first == first { DownStep(EndOf(states[k], first), EndOf(states[k], !first), events[k].action); }
  }

  lemma DownLonger(x: Side, y: Side, z: Side, n: nat, m: nat)
    requires DownSince(x, y, n) && DownSince(y, z, m)
    ensures DownSince(x, z, n + m)
  {
    assert x.end.posted[n..][m..] == x.end.posted[n + m..];
  }

  /** An end that is not live stays so for ever and accepts nothing; of what was posted it runs the
      handlers in order, and nothing is posted any more. */
  lemma {:induction false} DownForEver(states: seq<System>, events: seq<Event>, j: nat, k: nat, first: bool)
    requires IsRun(states, events) && j <= k < |states| && !Live(EndOf(states[j], first))
    ensures DownSince(EndOf(states[j], first), EndOf(states[k], first), TasksRun(events, first, j, k))
    decreases k
  {
    if j < k {
      DownForEver(states, events, j, k - 1, first);
      DownRunStep(states, events, k - 1, first);
      TasksRunNext(events, first, j, k - 1);
      DownLonger(EndOf(states[j], first), EndOf(states[k - 1], first), EndOf(states[k], first),
        TasksRun(events, first, j, k - 1), RanTask(events, first, k - 1));
    }
  }

  /** After a disconnect or an error the end is never live again and accepts nothing more, and once
      it has run what was posted it is closed. */
  lemma DownAfter(states: seq<System>, events: seq<Event>, j: nat, k: nat, first: bool)
    requires IsRun(states, events) && j < k < |states| && events[j].first == first && GoesDown(events[j].action)
    ensures var x, x' := EndOf(states[j], first), EndOf(states[k], first);
            && !Live(x') && x'.accepted == x.accepted
            && (TasksRun(events, first, j + 1, k) == |EndOf(states[j + 1], first).end.posted| ==> !x'.end.open)
  {
    DownAtOnce(states, events, j, first);
    DownForEver(states, events, j + 1, k, first);
    LiveIff(states, events, k, first);
  }

  lemma ClosedStep(states: seq<System>, events: seq<Event>, k: nat, first: bool)
    requires IsRun(states, events) && k < |events| && !EndOf(states[k], first).end.open
    ensures var x, x' := EndOf(states[k], first), EndOf(states[k + 1], first);
            !x'.end.open && x'.emitted == x.emitted && x'.consumed == x.consumed
  {
    StepOf(states, events, k, first);
    if events[k].first == first { DownStep(EndOf(states[k], first), EndOf(states[k], !first), events[k].action); }
  }

  /** A closed end stays closed and moves no more bytes in either direction. */
  lemma {:induction false} ClosedForEver(states: seq<System>, events: seq<Event>, j: nat, k: nat, first: bool)
    requires IsRun(states, events) && j <= k < |states| && !EndOf(states[j], first).end.open
    ensures var x, x' := EndOf(states[j], first), EndOf(states[k], first);
            !x'.end.open && x'.emitted == x.emitted && x'.consumed == x.consumed
    decreases k
  {
    if j < k {
      ClosedForEver(states, events, j, k - 1, first);
      ClosedStep(states, events, k - 1, first);
    }
  }

  /** Every message accepted before the end went down was put on the outbound queue before it closed. */
  lemma ClosedHasQueuedAll(states: seq<System>, events: seq<Event>, k: nat, first: bool)
    requires IsRun(states, events) && k < |states| && !EndOf(states[k], first).end.open
    ensures EndOf(states[k], first).executed == EndOf(states[k], first).accepted
  {
    ClosesAlways(states, events, k, first);
    RunKeepsInv(states, events, k);
  }

  /** A message is accepted and posted exactly by a live end; otherwise sending changes nothing. */
  lemma SendsWhenLive(states: seq<System>, events: seq<Event>, k: nat, first: bool, m: Msg)
    requires IsRun(states, events) && k < |events| && events[k] == Event(first, Send(m))
    ensures var x, x' := EndOf(states[k], first), EndOf(states[k + 1], first);
            if Live(x)
            then x' == x.(end := x.end.(posted := x.end.posted + [SendTask(m)]), accepted := x.accepted + [m])
            else x' == x
  {
    StepOf(states, events, k, first);
  }

  // ---------- errors ----------

  lemma NoReadStep(x: Side, peer: Side, action: Action)
    requires Enabled(x, peer, action) && x.end.read == NoRead
    ensures var x' := Act(x, peer, action);
            x'.end.read == NoRead && x'.consumed == x.consumed && x'.received == x.received
  {
  }

  lemma NoReadRunStep(states: seq<System>, events: seq<Event>, k: nat, first: bool)
    requires IsRun(states, events) && k < |events| && EndOf(states[k], first).end.read == NoRead
    ensures var x, x' := EndOf(states[k], first), EndOf(states[k + 1], first);
            x'.end.read == NoRead && x'.consumed == x.consumed && x'.received == x.received
  {
    StepOf(states, events, k, first);
    if events[k].first == first { NoReadStep(EndOf(states[k], first), EndOf(states[k], !first), events[k].action); }
  }

  lemma {:induction false} NoReadForEver(states: seq<System>, events: seq<Event>, j: nat, k: nat, first: bool)
    requires IsRun(states, events) && j <= k < |states| && EndOf(states[j], first).end.read == NoRead
    ensures var x, x' := EndOf(states[j], first), EndOf(states[k], first);
            x'.end.read == NoRead && x'.consumed == x.consumed && x'.received == x.received
    decreases k
  {
    if j < k {
      NoReadForEver(states, events, j, k - 1, first);
      NoReadRunStep(states, events, k - 1, first);
    }
  }

  /** After a failed read nothing is read or received any more. */
  lemma FailedReadIsLast(states: seq<System>, events: seq<Event>, j: nat, k: nat, first: bool)
    requires IsRun(states, events) && j < k < |states| && events[j] == Event(first, FailRead)
    ensures var x, x' := EndOf(states[j], first), EndOf(states[k], first);
            x'.end.read == NoRead && x'.consumed == x.consumed && x'.received == x.received
  {
    StepOf(states, events, j, first);
    NoReadForEver(states, events, j + 1, k, first);
  }

  lemma FailedWriteStep(x: Side, peer: Side, action: Action)
    requires Enabled(x, peer, action) && WriterInv(x) && x.writeFailed
    ensures var x' := Act(x, peer, action);
            x'.writeFailed && x'.emitted == x.emitted
  {
  }

  lemma FailedHasNoWrite(states: seq<System>, events: seq<Event>, k: nat, first: bool)
    requires IsRun(states, events) && k < |states| && EndOf(states[k], first).writeFailed
    ensures EndOf(states[k], first).end.write == NoWrite
  {
    RunKeepsInv(states, events, k);
  }

  lemma FailedWriteRunStep(states: seq<System>, events: seq<Event>, k: nat, first: bool)
    requires IsRun(states, events) && k < |events| && EndOf(states[k], first).writeFailed
    ensures var x, x' := EndOf(states[k], first), EndOf(states[k + 1], first);
            x'.writeFailed && x'.emitted == x.emitted
  {
    RunKeepsInv(states, events, k);
    StepOf(states, events, k, first);
    if events[k].first == first { FailedWriteStep(EndOf(states[k], first), EndOf(states[k], !first), events[k].action); }
  }

  lemma {:induction false} FailedWriteForEver(states: seq<System>, events: seq<Event>, j: nat, k: nat, first: bool)
    requires IsRun(states, events) && j <= k < |states| && EndOf(states[j], first).writeFailed
    ensures var x, x' := EndOf(states[j], first), EndOf(states[k], first);
            x'.writeFailed && x'.end.write == NoWrite && x'.emitted == x.emitted
    decreases k
  {
    FailedHasNoWrite(states, events, j, first);
    if j < k {
      FailedWriteForEver(states, events, j, k - 1, first);
      FailedWriteRunStep(states, events, k - 1, first);
      FailedHasNoWrite(states, events, k, first);
    }
  }

  /** After a failed write nothing is written any more. */
  lemma FailedWriteIsLast(states: seq<System>, events: seq<Event>, j: nat, k: nat, first: bool)
    requires IsRun(states, events) && j < k < |states| && events[j] == Event(first, FailWrite)
    ensures var x, x' := EndOf(states[j], first), EndOf(states[k], first);
            x'.end.write == NoWrite && x'.emitted == x.emitted
  {
    StepOf(states, events, j, first);
    FailedWriteForEver(states, events, j + 1, k, first);
  }
}
