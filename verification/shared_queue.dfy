/**
 Several clients of one server.

 Each client has a connection of its own, and all server ends put what they receive on one queue,
 each message with the connection it came from (src/change_lib/net/connection.hpp:160-167), from
 which `update` takes messages (src/change_lib/net/server_interface.hpp:115-127).  Events of the
 connections interleave in any way; a new client may join at any time.

 Main result: of the messages handled so far, those of one client are what `Delivery` says of the
 first messages that client posted, whatever all the others do.
 */
module SharedQueue {
  import opened NetMessage
  import opened Connections
  import opened DeliverySteps
  import opened Delivery

  /** The connection a message came from, by position, in the place of the owner pointer. */
  datatype Tagged = Tagged(link: nat, msg: Msg)

  /** In each link `a` is the client and `b` the server's end. */
  datatype Hub = Hub(links: seq<System>, queue: seq<Tagged>, handled: seq<Tagged>)

  datatype HubEvent =
    | Join
    | Step(link: nat, event: Event)
    | Handle   // update pops the front

  predicate HubEnabled(h: Hub, e: HubEvent) {
    match e
    case Join => true
    case Step(link, event) =>
      && link < |h.links| && EventEnabled(h.links[link], event)
      && (event.action.Send? ==> Sized(event.action.msg))
    case Handle => h.queue != []
  }

  /** What the server's end puts on its incoming queue in this event. */
  function Arrivals(s: System, event: Event): seq<Msg>
    requires EventEnabled(s, event)
  {
    if !event.first && event.action.FinishRead? && FinishDelivers(s.b.end) then [ReadFinished(s.b.end).tempIn] else []
  }

  function WithLink(link: nat, msgs: seq<Msg>): (r: seq<Tagged>)
    ensures |r| == |msgs|
    ensures forall i :: 0 <= i < |r| ==> r[i] == Tagged(link, msgs[i])
  {
    seq(|msgs|, i requires 0 <= i < |msgs| => Tagged(link, msgs[i]))
  }

  function HubNext(h: Hub, e: HubEvent): Hub
    requires HubEnabled(h, e)
  {
    match e
    case Join => h.(links := h.links + [System(Start(), Start())])
    case Step(link, event) =>
      h.(links := h.links[link := Next(h.links[link], event)],
         queue := h.queue + WithLink(link, Arrivals(h.links[link], event)))
    case Handle => h.(queue := h.queue[1..], handled := h.handled + h.queue[..1])
  }

  ghost predicate IsHubRun(hubs: seq<Hub>, events: seq<HubEvent>) {
    && |hubs| == |events| + 1
    && hubs[0] == Hub([], [], [])
    && forall k :: 0 <= k < |events| ==> HubEnabled(hubs[k], events[k]) && hubs[k + 1] == HubNext(hubs[k], events[k])
  }

  /** The messages of one client, in order. */
  function Of(link: nat, msgs: seq<Tagged>): seq<Msg> {
    if msgs == [] then []
    else Of(link, msgs[..|msgs| - 1]) + if msgs[|msgs| - 1].link == link then [msgs[|msgs| - 1].msg] else []
  }

  lemma {:induction false} OfAppend(link: nat, s: seq<Tagged>, t: seq<Tagged>)
    ensures Of(link, s + t) == Of(link, s) + Of(link, t)
    decreases |t|
  {
    if t == [] {
      assert s + t == s;
    } else {
      var front := t[..|t| - 1];
      OfAppend(link, s, front);
      assert (s + t)[..|s + t| - 1] == s + front;
    }
  }

  lemma {:induction false} OfWithLink(link: nat, other: nat, msgs: seq<Msg>)
    ensures Of(link, WithLink(other, msgs)) == if link == other then msgs else []
    decreases |msgs|
  {
    if msgs != [] {
      var front := msgs[..|msgs| - 1];
      OfWithLink(link, other, front);
      assert WithLink(other, msgs)[..|msgs| - 1] == WithLink(other, front);
      assert msgs == front + [msgs[|msgs| - 1]];
    }
  }

  lemma {:induction false} OfUnknown(link: nat, msgs: seq<Tagged>)
    requires forall i :: 0 <= i < |msgs| ==> msgs[i].link != link
    ensures Of(link, msgs) == []
  {
    if msgs != [] { OfUnknown(link, msgs[..|msgs| - 1]); }
  }

  /** All that was ever put on the queue. */
  function Pushed(h: Hub): seq<Tagged> {
    h.handled + h.queue
  }

  ghost predicate LinkInv(h: Hub, link: nat)
    requires link < |h.links|
  {
    Delivery.Inv(h.links[link]) && Of(link, Pushed(h)) == h.links[link].b.received
  }

  ghost predicate HubInv(h: Hub) {
    && (forall link :: 0 <= link < |h.links| ==> LinkInv(h, link))
    && (forall i :: 0 <= i < |Pushed(h)| ==> Pushed(h)[i].link < |h.links|)
  }

  /** The server's end records exactly its arrivals. */
  lemma ReceivedArrivals(s: System, event: Event)
    requires EventEnabled(s, event)
    ensures Next(s, event).b.received == s.b.received + Arrivals(s, event)
  {
  }

  lemma SystemStep(s: System, event: Event)
    requires Delivery.Inv(s) && EventEnabled(s, event) && (event.action.Send? ==> Sized(event.action.msg))
    ensures Delivery.Inv(Next(s, event))
  {
    if event.first { StepKeepsSides(s.a, s.b, event.action); } else { StepKeepsSides(s.b, s.a, event.action); }
  }

  lemma JoinKeepsInv(h: Hub)
    requires HubInv(h)
    ensures HubInv(HubNext(h, Join))
  {
    var h' := HubNext(h, Join);
    assert Pushed(h') == Pushed(h);
    forall link | 0 <= link < |h'.links| ensures LinkInv(h', link) {
      if link < |h.links| {
        assert LinkInv(h, link);
      } else {
        StartInv();
        OfUnknown(link, Pushed(h));
      }
    }
  }

  lemma PushedByStep(h: Hub, link: nat, event: Event)
    requires HubEnabled(h, Step(link, event))
    ensures Pushed(HubNext(h, Step(link, event))) == Pushed(h) + WithLink(link, Arrivals(h.links[link], event))
  {
  }

  lemma LinkAfterStep(h: Hub, link: nat, event: Event, other: nat)
    requires HubEnabled(h, Step(link, event)) && other < |h.links| && LinkInv(h, other)
    ensures LinkInv(HubNext(h, Step(link, event)), other)
  {
    var arrivals := Arrivals(h.links[link], event);
    PushedByStep(h, link, event);
    OfAppend(other, Pushed(h), WithLink(link, arrivals));
    OfWithLink(other, link, arrivals);
    if other == link {
      ReceivedArrivals(h.links[link], event);
      SystemStep(h.links[link], event);
    }
  }

  lemma StepKeepsInv(h: Hub, link: nat, event: Event)
    requires HubInv(h) && HubEnabled(h, Step(link, event))
    ensures HubInv(HubNext(h, Step(link, event)))
  {
    var h' := HubNext(h, Step(link, event));
    forall other | 0 <= other < |h'.links| ensures LinkInv(h', other) {
      LinkAfterStep(h, link, event, other);
    }
    PushedByStep(h, link, event);
  }

  lemma HandleKeepsInv(h: Hub)
    requires HubInv(h) && h.queue != []
    ensures HubInv(HubNext(h, Handle))
  {
    var h' := HubNext(h, Handle);
    assert Pushed(h') == Pushed(h);
    forall link | 0 <= link < |h'.links| ensures LinkInv(h', link) { assert LinkInv(h, link); }
  }

  lemma {:induction false} HubRunKeepsInv(hubs: seq<Hub>, events: seq<HubEvent>, k: nat)
    requires IsHubRun(hubs, events) && k < |hubs|
    ensures HubInv(hubs[k])
    decreases k
  {
    if k > 0 {
      HubRunKeepsInv(hubs, events, k - 1);
      match events[k - 1] {
        case Join => JoinKeepsInv(hubs[k - 1]);
        case Step(link, event) => StepKeepsInv(hubs[k - 1], link, event);
        case Handle => HandleKeepsInv(hubs[k - 1]);
      }
    }
  }

  lemma ArrivedPrefix(part: seq<Msg>, rest: seq<Msg>, sent: seq<Msg>)
    requires ArrivedAs(part + rest, sent)
    ensures ArrivedAs(part, sent)
  {
    forall i | 0 <= i < |part|
      ensures part[i] == sent[i].(body := if sent[i].body != [] then sent[i].body else StaleBody(sent[..i]))
    {
      assert (part + rest)[i] == part[i];
    }
  }

  /** Of all messages handled, those of one client are the first ones it posted, in order and each
      once, with the same header and, when it has one, the same body; and every message handled is
      some client's. */
  lemma HandledInOrder(hubs: seq<Hub>, events: seq<HubEvent>, k: nat, link: nat)
    requires IsHubRun(hubs, events) && k < |hubs| && link < |hubs[k].links|
    ensures ArrivedAs(Of(link, hubs[k].handled), hubs[k].links[link].a.accepted)
    ensures Of(link, hubs[k].handled) + Of(link, hubs[k].queue) == hubs[k].links[link].b.received
    ensures forall i :: 0 <= i < |hubs[k].handled| ==> hubs[k].handled[i].link < |hubs[k].links|
  {
    HubRunKeepsInv(hubs, events, k);
    var h := hubs[k];
    assert LinkInv(h, link);
    OfAppend(link, h.handled, h.queue);
    SideDelivery(h.links[link].b, h.links[link].a);
    ArrivedPrefix(Of(link, h.handled), Of(link, h.queue), h.links[link].a.accepted);
    forall i | 0 <= i < |h.handled| ensures h.handled[i].link < |h.links| {
      assert Pushed(h)[i] == h.handled[i];
    }
  }
}
