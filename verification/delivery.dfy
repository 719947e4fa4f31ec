/**
 What a connection delivers, over all its runs.

 Main result: in every reachable state what an end has put on its incoming queue is determined by
 a prefix of what the other end accepted for sending, in order, and it is that prefix exactly when
 no message with an empty body follows one with a body.
 */
module Delivery {
  import opened Crc32
  import opened NetMessage
  import opened Connections
  import opened DeliverySteps

  // ---------- runs ----------

  ghost predicate SideInv(x: Side, peer: Side) {
    WriterInv(x) && AllSized(x.accepted) && ReaderInv(x, peer)
  }

  ghost predicate Inv(s: System) {
    SideInv(s.a, s.b) && SideInv(s.b, s.a)
  }

  lemma StartInv()
    ensures Inv(System(Start(), Start()))
  {
    assert Encode([]) == [] && Delivered([]) == [];
  }

  lemma StepKeepsOwnSide(x: Side, peer: Side, action: Action)
    requires SideInv(x, peer) && SideInv(peer, x) && Enabled(x, peer, action)
    requires action.Send? ==> Sized(action.msg)
    ensures SideInv(Act(x, peer, action), peer)
  {
    WriterStep(x, peer, action);
    ExecutedSized(peer);
    OwnStepKeepsReader(x, peer, action);
    var x' := Act(x, peer, action);
    assert x'.accepted == x.accepted || (action.Send? && x'.accepted == x.accepted + [action.msg]);
  }

  lemma StepKeepsPeerSide(x: Side, peer: Side, action: Action)
    requires SideInv(peer, x) && Enabled(x, peer, action)
    ensures SideInv(peer, Act(x, peer, action))
  {
    PeerStepKeepsReader(peer, x, action);
  }

  lemma StepKeepsSides(x: Side, peer: Side, action: Action)
    requires SideInv(x, peer) && SideInv(peer, x) && Enabled(x, peer, action)
    requires action.Send? ==> Sized(action.msg)
    ensures SideInv(Act(x, peer, action), peer) && SideInv(peer, Act(x, peer, action))
  {
    StepKeepsOwnSide(x, peer, action);
    StepKeepsPeerSide(x, peer, action);
  }

  lemma ExecutedSized(x: Side)
    requires WriterInv(x) && AllSized(x.accepted)
    ensures AllSized(x.executed)
  {
    forall i | 0 <= i < |x.executed| ensures Sized(x.executed[i]) {
      assert x.accepted[i] == x.executed[i];
    }
  }

  lemma {:induction false} RunKeepsInv(states: seq<System>, events: seq<Event>, k: nat)
    requires IsRun(states, events) && k < |states|
    ensures Inv(states[k])
    decreases k
  {
    if k == 0 {
      StartInv();
    } else {
      RunKeepsInv(states, events, k - 1);
      assert IsStep(states, events, k - 1);
      var s, e := states[k - 1], events[k - 1];
      if e.first { StepKeepsSides(s.a, s.b, e.action); } else { StepKeepsSides(s.b, s.a, e.action); }
    }
  }

  /** No message without a body comes after one that has a body. */
  ghost predicate NoEmptyAfterBody(msgs: seq<Msg>) {
    forall i, j :: 0 <= i < j < |msgs| && msgs[i].body != [] ==> msgs[j].body != []
  }

  lemma {:induction false} StaleBodyIsLast(msgs: seq<Msg>)
    ensures StaleBody(msgs) == [] <==> forall i :: 0 <= i < |msgs| ==> msgs[i].body == []
  {
    if msgs != [] {
      var front := msgs[..|msgs| - 1];
      StaleBodyIsLast(front);
      assert forall i :: 0 <= i < |front| ==> front[i] == msgs[i];
    }
  }

  /** The receiver gets the messages unaltered exactly when no empty body follows a non-empty one. */
  lemma {:induction false} DeliveredUnalteredIff(msgs: seq<Msg>)
    ensures Delivered(msgs) == msgs <==> NoEmptyAfterBody(msgs)
  {
    if msgs != [] {
      var front, last := msgs[..|msgs| - 1], msgs[|msgs| - 1];
      DeliveredUnalteredIff(front);
      StaleBodyIsLast(front);
      assert msgs == front + [last];
      assert Delivered(msgs) == Delivered(front) + [last.(body := StaleBody(msgs))];
      assert Delivered(msgs)[..|front|] == Delivered(front) && Delivered(msgs)[|front|] == last.(body := StaleBody(msgs));
      NoEmptySnoc(front, last);
    }
  }

  lemma NoEmptySnoc(front: seq<Msg>, last: Msg)
    ensures NoEmptyAfterBody(front + [last]) <==>
            NoEmptyAfterBody(front) && (last.body != [] || forall i :: 0 <= i < |front| ==> front[i].body == [])
  {
    var msgs := front + [last];
    assert forall i :: 0 <= i < |front| ==> front[i] == msgs[i];
    assert msgs[|front|] == last;
  }

  lemma {:induction false} DeliveredPrefix(msgs: seq<Msg>, n: nat)
    requires n <= |msgs|
    ensures Delivered(msgs[..n]) == Delivered(msgs)[..n]
    decreases |msgs| - n
  {
    if n == |msgs| {
      assert msgs[..n] == msgs;
    } else {
      DeliveredSnoc(msgs[..n], msgs[n]);
      assert msgs[..n] + [msgs[n]] == msgs[..n + 1];
      DeliveredPrefix(msgs, n + 1);
    }
  }

  /** What a receiver gets for one message: its header, and its body or the last one before it. */
  lemma {:induction false} DeliveredAt(msgs: seq<Msg>, i: nat)
    requires i < |msgs|
    ensures Delivered(msgs)[i] == msgs[i].(body := if msgs[i].body != [] then msgs[i].body else StaleBody(msgs[..i]))
  {
    var front := msgs[..|msgs| - 1];
    if i < |front| {
      DeliveredAt(front, i);
      assert front[..i] == msgs[..i];
    }
  }

  /** Every message received has the header of the one sent in its place, and is that message if
      the one sent has a body; otherwise it shows the body last received. */
  ghost predicate ArrivedAs(received: seq<Msg>, sent: seq<Msg>) {
    && |received| <= |sent|
    && forall i :: 0 <= i < |received| ==>
         received[i] == sent[i].(body := if sent[i].body != [] then sent[i].body else StaleBody(sent[..i]))
  }

  lemma DeliveredArrives(sent: seq<Msg>, n: nat)
    requires n <= |sent|
    ensures ArrivedAs(Delivered(sent)[..n], sent)
  {
    forall i | 0 <= i < n
      ensures Delivered(sent)[..n][i] == sent[i].(body := if sent[i].body != [] then sent[i].body else StaleBody(sent[..i]))
    {
      DeliveredAt(sent, i);
    }
  }

  // ---------- the claims over all runs ----------

  lemma SideDelivery(x: Side, peer: Side)
    requires SideInv(x, peer) && SideInv(peer, x)
    ensures |x.received| <= |peer.accepted|
    ensures x.received == Delivered(peer.accepted)[..|x.received|]
    ensures ArrivedAs(x.received, peer.accepted)
    ensures x.received <= peer.accepted <==> NoEmptyAfterBody(peer.accepted[..|x.received|])
  {
    var n := |x.received|;
    assert peer.accepted[..n] == peer.executed[..n];
    DeliveredPrefix(peer.accepted, n);
    DeliveredArrives(peer.accepted, n);
    DeliveredUnalteredIff(peer.accepted[..n]);
  }

  /** Under every interleaving, chunking and failure, each end has received, in order and each
      once, the first messages the other end accepted, with equal headers and bodies; only a
      message with an empty body shows the body of an earlier one, if there was one. */
  lemma EndToEndDelivery(states: seq<System>, events: seq<Event>, k: nat)
    requires IsRun(states, events) && k < |states|
    ensures var a, b := states[k].a, states[k].b;
            && |b.received| <= |a.accepted| && b.received == Delivered(a.accepted)[..|b.received|]
            && |a.received| <= |b.accepted| && a.received == Delivered(b.accepted)[..|a.received|]
            && ArrivedAs(b.received, a.accepted) && ArrivedAs(a.received, b.accepted)
            && (b.received <= a.accepted <==> NoEmptyAfterBody(a.accepted[..|b.received|]))
            && (a.received <= b.accepted <==> NoEmptyAfterBody(b.accepted[..|a.received|]))
  {
    RunKeepsInv(states, events, k);
    SideDelivery(states[k].a, states[k].b);
    SideDelivery(states[k].b, states[k].a);
  }

  /** Without a write error there is an outstanding write exactly when the queue is non-empty, it
      concerns the front, and the socket has been given the completed messages and the written
      part of the front, nothing else. */
  ghost predicate Disciplined(x: Side) {
    && x.executed <= x.accepted
    && x.emitted <= Encode(x.executed)
    && (x.writeFailed ==> x.end.write == NoWrite)
    && (!x.writeFailed ==>
         && (x.end.write != NoWrite <==> x.end.outbound != [])
         && |x.end.outbound| <= |x.executed|
         && x.executed == Completed(x) + x.end.outbound
         && Encode(Completed(x)) <= x.emitted
         && |x.emitted| == |Encode(Completed(x))| + Written(x.end.write)
         && (x.end.outbound != [] ==> Written(x.end.write) <= |Frame(x.end.outbound[0])|))
  }

  lemma WriterDiscipline(states: seq<System>, events: seq<Event>, k: nat)
    requires IsRun(states, events) && k < |states|
    ensures Disciplined(states[k].a) && Disciplined(states[k].b)
  {
    RunKeepsInv(states, events, k);
    SideDisciplined(states[k].a);
    SideDisciplined(states[k].b);
  }

  lemma SideDisciplined(x: Side)
    requires WriterInv(x)
    ensures Disciplined(x)
  {
    if !x.writeFailed { CompletedEmitted(x); }
  }

  lemma CompletedEmitted(x: Side)
    requires WriterInv(x) && !x.writeFailed
    ensures Encode(Completed(x)) <= x.emitted
  {
    EncodePrefix(x.executed, |Completed(x)|);
    assert x.executed[..|Completed(x)|] == Completed(x);
  }

  /** The end has nothing left to run or write, its write has not failed, and the peer has read all
      its bytes and waits for a header. */
  ghost predicate Drained(x: Side, peer: Side) {
    && !x.writeFailed && SendsOf(x.end.posted) == [] && x.end.outbound == []
    && peer.consumed == |x.emitted| && peer.end.read == ReadingHeader([])
  }

  lemma SideDrained(x: Side, peer: Side)
    requires SideInv(x, peer) && SideInv(peer, x) && Drained(x, peer)
    ensures peer.received == Delivered(x.accepted) && x.executed == x.accepted
  {
    var n := |peer.received|;
    assert Completed(x) == x.executed == x.accepted;
    if n < |x.executed| {
      EncodePrefix(x.executed, n);
      assert false;
    }
    assert x.executed[..n] == x.accepted;
  }

  /** Nothing is lost: once an end has nothing left to run, write or have read, and neither its
      write nor the peer's read has failed, the peer has received everything it accepted. */
  lemma DrainedMeansDelivered(states: seq<System>, events: seq<Event>, k: nat)
    requires IsRun(states, events) && k < |states|
    ensures Drained(states[k].a, states[k].b) ==> states[k].b.received == Delivered(states[k].a.accepted)
    ensures Drained(states[k].b, states[k].a) ==> states[k].a.received == Delivered(states[k].b.accepted)
  {
    RunKeepsInv(states, events, k);
    var a, b := states[k].a, states[k].b;
    if Drained(a, b) { SideDrained(a, b); }
    if Drained(b, a) { SideDrained(b, a); }
  }

  /** Of sealed messages exactly these pass the check at the receiver: the ones with a body, and the
      ones without where the body shown instead has the checksum of the empty one. */
  ghost predicate ValidatedAsSent(received: seq<Msg>, sent: seq<Msg>) {
    && |received| <= |sent|
    && forall i :: 0 <= i < |received| && Sealed(sent[i]) ==>
         (Validates(received[i]) <==> sent[i].body != [] || Crc(StaleBody(sent[..i])) == Crc([]))
  }

  lemma ArrivedValidate(received: seq<Msg>, sent: seq<Msg>)
    requires ArrivedAs(received, sent)
    ensures ValidatedAsSent(received, sent)
  {
  }

  lemma ReceivedValidate(states: seq<System>, events: seq<Event>, k: nat)
    requires IsRun(states, events) && k < |states|
    ensures ValidatedAsSent(states[k].b.received, states[k].a.accepted)
    ensures ValidatedAsSent(states[k].a.received, states[k].b.accepted)
  {
    EndToEndDelivery(states, events, k);
    ArrivedValidate(states[k].b.received, states[k].a.accepted);
    ArrivedValidate(states[k].a.received, states[k].b.accepted);
  }
}
