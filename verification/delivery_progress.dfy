/**
 What a connection can do: every sequence of messages can be delivered in full.  With it the
 behaviour on messages without a body is seen to happen, not only to be allowed.
 */
module DeliveryProgress {
  import opened Bits
  import opened NetMessage
  import opened Connections
  import opened DeliverySteps
  import opened Delivery

  /** Some run ends in this state. */
  ghost predicate Reached(s: System) {
    exists states, events :: IsRun(states, events) && states[|states| - 1] == s
  }

  lemma ReachedStart()
    ensures Reached(System(Start(), Start()))
  {
    assert IsRun([System(Start(), Start())], []);
  }

  lemma ReachedStep(s: System, e: Event)
    requires Reached(s) && EventEnabled(s, e)
    requires e.action.Send? ==> Sized(e.action.msg)
    ensures Reached(Next(s, e))
  {
    var states, events :| IsRun(states, events) && states[|states| - 1] == s;
    var states', events' := states + [Next(s, e)], events + [e];
    forall k | 0 <= k < |events'| ensures IsStep(states', events', k) {
      if k < |events| { assert IsStep(states, events, k); }
    }
    assert IsRun(states', events');
  }

  lemma ReachedInv(s: System)
    requires Reached(s)
    ensures Inv(s)
  {
    var states, events :| IsRun(states, events) && states[|states| - 1] == s;
    RunKeepsInv(states, events, |states| - 1);
  }

  /** The sender can send and has nothing under way; the receiver waits for a header. */
  ghost predicate Quiet(s: System) {
    && s.a.end.open && s.a.end.connected && s.a.end.posted == [] && s.a.end.outbound == [] && s.a.end.write == NoWrite
    && !s.a.writeFailed
    && s.b.end.open && s.b.end.read == ReadingHeader([]) && s.b.consumed == |s.a.emitted|
  }

  lemma QuietDelivered(s: System)
    requires Reached(s) && Quiet(s)
    ensures s.b.received == Delivered(s.a.accepted) && s.a.executed == s.a.accepted
  {
    ReachedInv(s);
    SideDrained(s.a, s.b);
  }

  /** One side of the system takes a step. */
  lemma StepA(s: System, action: Action) returns (s': System)
    requires Reached(s) && Enabled(s.a, s.b, action) && (action.Send? ==> Sized(action.msg))
    ensures Reached(s') && s'.b == s.b && s'.a == Act(s.a, s.b, action)
  {
    ReachedStep(s, Event(true, action));
    s' := Next(s, Event(true, action));
  }

  lemma StepB(s: System, action: Action) returns (s': System)
    requires Reached(s) && Enabled(s.b, s.a, action) && !action.Send?
    ensures Reached(s') && s'.a == s.a && s'.b == Act(s.b, s.a, action)
  {
    ReachedStep(s, Event(false, action));
    s' := Next(s, Event(false, action));
  }

  /** The message is queued and its header is about to be written. */
  lemma Accept(s: System, m: Msg) returns (s': System)
    requires Reached(s) && Quiet(s) && Sized(m)
    ensures Reached(s') && s'.b == s.b
    ensures s'.a == s.a.(end := s.a.end.(outbound := [m], write := WritingHeader(0)),
                         accepted := s.a.accepted + [m], executed := s.a.executed + [m])
  {
    var s1 := StepA(s, Send(m));
    assert s1.a.end.posted == [SendTask(m)];
    s' := StepA(s1, RunTask);
    assert s1.a.end.posted[..1] == [SendTask(m)] && SendsOf([SendTask(m)]) == [m] + SendsOf([]);
  }

  /** The buffer of the outstanding write goes out at once, and the write completes. */
  lemma WriteOut(s: System) returns (s': System)
    requires Reached(s) && s.a.end.open && s.a.end.outbound != [] && s.a.end.write != NoWrite && s.a.end.write.done == 0
    ensures Reached(s') && s'.b == s.b
    ensures var buffer := WriteBuffer(s.a.end);
            var end := s.a.end.(write := s.a.end.write.(done := |buffer|));
            s'.a == s.a.(end := WriteFinished(end), emitted := s.a.emitted + buffer)
  {
    var n := |WriteBuffer(s.a.end)|;
    var s1 := StepA(s, WriteSome(n));
    s' := StepA(s1, FinishWrite);
    assert WriteBuffer(s.a.end)[0..n] == WriteBuffer(s.a.end);
  }

  /** Header and body of the only queued message are written. */
  lemma WriteMessage(s: System, m: Msg) returns (s': System)
    requires Reached(s) && s.a.end.open && s.a.end.outbound == [m] && s.a.end.write == WritingHeader(0)
    ensures Reached(s') && s'.b == s.b
    ensures |s'.a.emitted| == |s.a.emitted| + HEADER_SIZE + |m.body|
    ensures s'.a == s.a.(end := s.a.end.(outbound := [], write := NoWrite), emitted := s'.a.emitted)
  {
    s' := WriteOut(s);
    if m.body != [] {
      assert s'.a.end.write == WritingBody(0);
      s' := WriteOut(s');
    }
  }

  /** The whole header is read, and the read completes. */
  lemma ReadHeaderIn(s: System) returns (s': System)
    requires Reached(s) && s.b.end.open && s.b.end.read == ReadingHeader([]) && s.b.consumed + HEADER_SIZE <= |s.a.emitted|
    ensures Reached(s') && s'.a == s.a && s'.b.consumed == s.b.consumed + HEADER_SIZE && s'.b.end.open
    ensures s'.b.end.read.ReadingBody? ==> s'.b.end.read.done == 0 && s'.b.received == s.b.received
    ensures !s'.b.end.read.ReadingBody? ==> s'.b.end.read == ReadingHeader([]) && |s'.b.received| == |s.b.received| + 1
  {
    var s1 := StepB(s, ReadSome(HEADER_SIZE));
    s' := StepB(s1, FinishRead);
  }

  lemma ReadBodyIn(s: System) returns (s': System)
    requires Reached(s) && s.b.end.open && s.b.end.read == ReadingBody(0)
    requires s.b.consumed + |s.b.end.tempIn.body| <= |s.a.emitted|
    ensures Reached(s') && s'.a == s.a && s'.b.end.open && s'.b.end.read == ReadingHeader([])
    ensures s'.b.consumed == s.b.consumed + |s.b.end.tempIn.body|
  {
    var s1 := StepB(s, ReadSome(|s.b.end.tempIn.body|));
    s' := StepB(s1, FinishRead);
  }

  /** What the reader does after the header of the last message tells whether that has a body. */
  lemma ReadsBody(received: seq<Msg>, tempIn: Msg, consumed: nat, sent: seq<Msg>, emitted: seq<Byte>)
    requires ReadInv(received, ReadingBody(0), tempIn, consumed, sent, emitted)
    ensures |received| < |sent| && |tempIn.body| == |sent[|received|].body|
  {
  }

  lemma ReadsHeader(received: seq<Msg>, tempIn: Msg, consumed: nat, sent: seq<Msg>, emitted: seq<Byte>)
    requires ReadInv(received, ReadingHeader([]), tempIn, consumed, sent, emitted) && |received| == |sent|
    ensures consumed == |Encode(sent)|
  {
    assert sent[..|received|] == sent;
  }

  lemma AfterHeader(s: System, m: Msg, n: nat)
    requires Reached(s) && n + 1 == |s.a.executed| && s.a.executed[n] == m
    requires s.b.consumed == |s.a.emitted| - |m.body| && |s.a.emitted| == |Encode(s.a.executed)|
    ensures s.b.end.read == ReadingBody(0) && |s.b.received| == n ==> |s.b.end.tempIn.body| == |m.body|
    ensures s.b.end.read == ReadingHeader([]) && |s.b.received| == n + 1 ==> m.body == []
  {
    ReachedInv(s);
    if s.b.end.read == ReadingBody(0) && |s.b.received| == n {
      ReadsBody(s.b.received, s.b.end.tempIn, s.b.consumed, s.a.executed, s.a.emitted);
    }
    if s.b.end.read == ReadingHeader([]) && |s.b.received| == n + 1 {
      ReadsHeader(s.b.received, s.b.end.tempIn, s.b.consumed, s.a.executed, s.a.emitted);
    }
  }

  /** From rest one more message is sent and received. */
  lemma DeliverOne(s: System, m: Msg) returns (s': System)
    requires Reached(s) && Quiet(s) && Sized(m)
    ensures Reached(s') && Quiet(s') && s'.a.accepted == s.a.accepted + [m]
  {
    QuietDelivered(s);
    var s1 := Accept(s, m);
    var s2 := WriteMessage(s1, m);
    s' := ReadHeaderIn(s2);
    AllWritten(s');
    AfterHeader(s', m, |s.a.executed|);
    if s'.b.end.read.ReadingBody? {
      s' := ReadBodyIn(s');
    }
  }

  lemma AllWritten(s: System)
    requires Reached(s) && s.a.end.outbound == [] && !s.a.writeFailed
    ensures |s.a.emitted| == |Encode(s.a.executed)|
  {
    ReachedInv(s);
    assert Completed(s.a) == s.a.executed;
  }

  lemma {:induction false} DeliverAll(msgs: seq<Msg>) returns (s: System)
    requires forall i :: 0 <= i < |msgs| ==> Sized(msgs[i])
    ensures Reached(s) && Quiet(s) && s.a.accepted == msgs
  {
    if msgs == [] {
      ReachedStart();
      s := System(Start(), Start());
    } else {
      var front, last := msgs[..|msgs| - 1], msgs[|msgs| - 1];
      var before := DeliverAll(front);
      s := DeliverOne(before, last);
      assert msgs == front + [last];
    }
  }

  /** For every sequence of messages there is a run in which all of them are accepted and received. */
  lemma EverythingCanArrive(msgs: seq<Msg>) returns (s: System)
    requires forall i :: 0 <= i < |msgs| ==> Sized(msgs[i])
    ensures Reached(s) && s.a.accepted == msgs && s.b.received == Delivered(msgs)
  {
    s := DeliverAll(msgs);
    QuietDelivered(s);
  }

  /** So the stale body is seen: a message without a body, sent after one with a body, arrives with
      that body. */
  lemma StaleBodyArrives(first: Msg, second: Msg) returns (s: System)
    requires Sized(first) && first.body != [] && Sized(second) && second.body == []
    ensures Reached(s) && s.a.accepted == [first, second]
    ensures s.b.received == [first, second.(body := first.body)]
    ensures !(s.b.received <= s.a.accepted)
  {
    s := EverythingCanArrive([first, second]);
    DeliveredAt([first, second], 0);
    DeliveredAt([first, second], 1);
    assert [first, second][..1] == [first];
    assert s.b.received[1] == second.(body := first.body);
  }
}
