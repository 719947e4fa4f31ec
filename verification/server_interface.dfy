/**
 The server loops of src/change_lib/net/server_interface.hpp.

 The calls of the virtual `on_message` and `on_client_disconnect` are recorded in their order.
 */
module ServerInterfaces {
  import opened NetMessage
  import opened ConnectQueues
  import opened Connections

  predicate Up(client: Connection?)
    reads client
  {
    client != null && client.open && client.connected
  }

  /** Which entries are connected. */
  function Snapshot(list: seq<Connection?>): (up: seq<bool>)
    reads list
    ensures |up| == |list|
    ensures forall i :: 0 <= i < |list| ==> up[i] == Up(list[i])
    decreases |list|
  {
    if list == [] then []
    else
      assert list[|list| - 1] in list;
      Snapshot(list[..|list| - 1]) + [Up(list[|list| - 1])]
  }

  /** The entries whose flag is set, in order. */
  function Kept(list: seq<Connection?>, up: seq<bool>): seq<Connection?>
    requires |list| == |up|
  {
    if list == [] then [] else (if up[0] then [list[0]] else []) + Kept(list[1..], up[1..])
  }

  /** The entries whose flag is not set, in order. */
  function Lost(list: seq<Connection?>, up: seq<bool>): seq<Connection?>
    requires |list| == |up|
  {
    if list == [] then [] else (if up[0] then [] else [list[0]]) + Lost(list[1..], up[1..])
  }

  /** Keeping goes entry by entry, in order. */
  lemma {:induction false} KeptNext(list: seq<Connection?>, up: seq<bool>, c: Connection?, u: bool)
    requires |list| == |up|
    ensures Kept([], []) == []
    ensures Kept(list + [c], up + [u]) == Kept(list, up) + if u then [c] else []
  {
    if list == [] {
      assert list + [c] == [c] && up + [u] == [u];
      KeptCons([c], [u]);
    } else {
      assert (list + [c])[1..] == list[1..] + [c] && (up + [u])[1..] == up[1..] + [u];
      KeptCons(list + [c], up + [u]);
      KeptNext(list[1..], up[1..], c, u);
      KeptCons(list, up);
    }
  }

  lemma KeptCons(list: seq<Connection?>, up: seq<bool>)
    requires |list| == |up| && list != []
    ensures Kept(list, up) == if up[0] then [list[0]] + Kept(list[1..], up[1..]) else Kept(list[1..], up[1..])
  {
  }

  /** What is lost is what is not kept. */
  lemma {:induction false} LostIsKeptOtherwise(list: seq<Connection?>, up: seq<bool>)
    requires |list| == |up|
    ensures Lost(list, up) == Kept(list, seq(|up|, i requires 0 <= i < |up| => !up[i]))
  {
    if list != [] {
      var down := seq(|up|, i requires 0 <= i < |up| => !up[i]);
      assert down[1..] == seq(|up[1..]|, i requires 0 <= i < |up[1..]| => !up[1..][i]);
      LostIsKeptOtherwise(list[1..], up[1..]);
    }
  }

  /** The lost ones among the first `n` have been reported. */
  ghost predicate Reported(reported: seq<Connection?>, was: seq<Connection?>, list: seq<Connection?>, up: seq<bool>, n: nat) {
    n <= |list| == |up| && reported + Lost(list[n..], up[n..]) == was + Lost(list, up)
  }

  lemma ReportedNext(reported: seq<Connection?>, was: seq<Connection?>, list: seq<Connection?>, up: seq<bool>, n: nat)
    requires Reported(reported, was, list, up, n) && n < |list|
    ensures Reported(reported + if up[n] then [] else [list[n]], was, list, up, n + 1)
  {
    var now := if up[n] then [] else [list[n]];
    assert list[n..][1..] == list[n + 1..] && up[n..][1..] == up[n + 1..];
    assert reported + (now + Lost(list[n + 1..], up[n + 1..])) == (reported + now) + Lost(list[n + 1..], up[n + 1..]);
  }

  lemma ReportedEnds(was: seq<Connection?>, list: seq<Connection?>, up: seq<bool>)
    requires |list| == |up|
    ensures Reported(was, was, list, up, 0)
    ensures forall reported :: Reported(reported, was, list, up, |list|) ==> reported == was + Lost(list, up)
  {
    assert list[0..] == list && up[0..] == up;
  }

  function NonNull(list: seq<Connection?>): seq<Connection?> {
    if list == [] then [] else (if list[0] != null then [list[0]] else []) + NonNull(list[1..])
  }

  /** How often a client is in the list. */
  function Count(list: seq<Connection?>, c: Connection): nat {
    if list == [] then 0 else Count(list[..|list| - 1], c) + if list[|list| - 1] == c then 1 else 0
  }

  function Repeated(m: Msg, n: nat): seq<Task> {
    seq(n, i => SendTask(m))
  }

  lemma {:induction false} CountAbsent(list: seq<Connection?>, c: Connection)
    ensures Count(list, c) > 0 <==> c in list
  {
    if list != [] {
      CountAbsent(list[..|list| - 1], c);
      assert list == list[..|list| - 1] + [list[|list| - 1]];
    }
  }

  /** A client that is in the list once is counted once. */
  lemma {:induction false} CountDistinct(list: seq<Connection?>, c: Connection)
    requires c in list
    requires forall i, j :: 0 <= i < j < |list| ==> list[i] != list[j]
    ensures Count(list, c) == 1
  {
    var front, last := list[..|list| - 1], list[|list| - 1];
    assert list == front + [last];
    if last == c {
      CountAbsent(front, c);
    } else {
      CountDistinct(front, c);
    }
  }

  /** What the loop leaves of the entries after `n` turns: those not connected are reset. */
  function Marked(list: seq<Connection?>, up: seq<bool>, n: nat): (r: seq<Connection?>)
    requires |list| == |up|
    ensures |r| == |list|
  {
    seq(|list|, i requires 0 <= i < |list| => if i < n && !up[i] then null else list[i])
  }

  lemma MarkedNext(list: seq<Connection?>, up: seq<bool>, n: nat)
    requires n < |list| == |up|
    ensures Marked(list, up, n)[n] == list[n]
    ensures Marked(list, up, n + 1) == if up[n] then Marked(list, up, n) else Marked(list, up, n)[n := null]
  {
  }

  lemma {:induction false} AllUpKept(list: seq<Connection?>, up: seq<bool>)
    requires |list| == |up|
    requires AllUp(up, |up|)
    ensures Marked(list, up, |list|) == list == Kept(list, up)
  {
    if list != [] {
      assert AllUp(up[1..], |up| - 1);
      AllUpKept(list[1..], up[1..]);
    }
  }

  /** In a list without repetitions every connected client but the ignored one is due one copy. */
  lemma DueOnce(list: seq<Connection?>, c: Connection, ignoreClient: Connection?, up: bool)
    requires c in list
    requires forall i, j :: 0 <= i < j < |list| ==> list[i] != list[j]
    ensures Due(list, c, ignoreClient, up) == if c != ignoreClient && up then 1 else 0
  {
    CountDistinct(list, c);
  }

  ghost predicate AllUp(up: seq<bool>, n: nat) {
    n <= |up| && forall i :: 0 <= i < n ==> up[i]
  }

  /** Keeping the connected entries is dropping the ones the loop has reset. */
  lemma {:induction false} MarkedThenDropped(list: seq<Connection?>, up: seq<bool>)
    requires |list| == |up|
    requires forall i :: 0 <= i < |list| ==> up[i] ==> list[i] != null
    ensures NonNull(Marked(list, up, |list|)) == Kept(list, up)
  {
    if list != [] {
      assert Marked(list, up, |list|)[1..] == Marked(list[1..], up[1..], |list| - 1);
      MarkedThenDropped(list[1..], up[1..]);
    }
  }

  /** How many copies a client is to get. */
  function Due(list: seq<Connection?>, c: Connection, ignoreClient: Connection?, up: bool): nat {
    if c != ignoreClient && up then Count(list, c) else 0
  }

  /** What the loop has done to the list and reported after `n` turns. */
  ghost predicate Swept(list: seq<Connection?>, up: seq<bool>, n: nat, now: seq<Connection?>, invalid: bool,
                        was: seq<Connection?>, reported: seq<Connection?>) {
    && n <= |list| == |up| == |now|
    && now == Marked(list, up, n)
    && Reported(reported, was, list, up, n)
    && (!invalid ==> AllUp(up, n))
  }

  lemma SweptStart(list: seq<Connection?>, up: seq<bool>, was: seq<Connection?>)
    requires |list| == |up|
    ensures Swept(list, up, 0, list, false, was, was)
  {
    ReportedEnds(was, list, up);
    assert list == Marked(list, up, 0);
  }

  lemma SweptNext(list: seq<Connection?>, up: seq<bool>, n: nat, now: seq<Connection?>, invalid: bool,
                  was: seq<Connection?>, reported: seq<Connection?>)
    requires Swept(list, up, n, now, invalid, was, reported) && n < |list|
    ensures now[n] == list[n]
    ensures Swept(list, up, n + 1, if up[n] then now else now[n := null], invalid || !up[n],
              was, reported + if up[n] then [] else [list[n]])
  {
    MarkedNext(list, up, n);
    ReportedNext(reported, was, list, up, n);
  }

  lemma SweptEnd(list: seq<Connection?>, up: seq<bool>, now: seq<Connection?>, invalid: bool,
                 was: seq<Connection?>, reported: seq<Connection?>)
    requires Swept(list, up, |list|, now, invalid, was, reported)
    requires forall i :: 0 <= i < |list| ==> up[i] ==> list[i] != null
    ensures (if invalid then NonNull(now) else now) == Kept(list, up)
    ensures reported == was + Lost(list, up)
  {
    ReportedEnds(was, list, up);
    if invalid { MarkedThenDropped(list, up); } else { AllUpKept(list, up); }
  }

  /** The pending handlers of every client after the first `n` entries were served. */
  ghost predicate PostedSoFar(list: seq<Connection?>, n: nat, was: map<Connection, seq<Task>>, msg: Msg, ignoreClient: Connection?)
    reads list
  {
    && n <= |list|
    && forall c: Connection :: c in list ==>
         c in was && c.posted == was[c] + Repeated(msg, Due(list[..n], c, ignoreClient, Up(c)))
  }

  lemma PostedStart(list: seq<Connection?>, was: map<Connection, seq<Task>>, msg: Msg, ignoreClient: Connection?)
    requires forall c: Connection :: c in list ==> c in was && c.posted == was[c]
    ensures PostedSoFar(list, 0, was, msg, ignoreClient)
  {
    forall c: Connection | c in list ensures c.posted == was[c] + Repeated(msg, Due(list[..0], c, ignoreClient, Up(c))) {
      assert Repeated(msg, 0) == [];
    }
  }

  lemma PostedEnd(list: seq<Connection?>, was: map<Connection, seq<Task>>, msg: Msg, ignoreClient: Connection?)
    requires PostedSoFar(list, |list|, was, msg, ignoreClient)
    ensures forall c: Connection :: c in list ==>
              c in was && c.posted == was[c] + Repeated(msg, Due(list, c, ignoreClient, Up(c)))
  {
    assert list[..|list|] == list;
  }

  lemma DueNext(msg: Msg, list: seq<Connection?>, i: nat, c: Connection, ignoreClient: Connection?, up: bool)
    requires i < |list|
    ensures Repeated(msg, Due(list[..i + 1], c, ignoreClient, up)) ==
            Repeated(msg, Due(list[..i], c, ignoreClient, up)) +
              (if c == list[i] && c != ignoreClient && up then [SendTask(msg)] else [])
  {
    assert list[..i + 1][..i] == list[..i];
  }

  class ServerInterface {
    const incoming: ConnectQueue<OwnedMessage>
    var connections: seq<Connection?>
    var handled: seq<OwnedMessage>
    var disconnects: seq<Connection?>

    constructor ()
      ensures connections == [] && handled == [] && disconnects == [] && incoming.queue == [] && fresh(incoming)
    {
      incoming := new ConnectQueue<OwnedMessage>();
      connections := [];
      handled := [];
      disconnects := [];
    }

    method OnMessage(m: OwnedMessage)
      modifies this`handled
      ensures handled == old(handled) + [m]
    {
      handled := handled + [m];
    }

    method OnClientDisconnect(client: Connection?)
      modifies this`disconnects
      ensures disconnects == old(disconnects) + [client]
    {
      disconnects := disconnects + [client];
    }

    /** One turn of the loop, for entry `i`; tells whether the entry stays. */
    method MessageEntry(i: nat, msg: Msg, ignoreClient: Connection?,
                        ghost list: seq<Connection?>, ghost was: map<Connection, seq<Task>>) returns (valid: bool)
      requires i < |connections| == |list| && connections[i] == list[i]
      requires PostedSoFar(list, i, was, msg, ignoreClient)
      modifies this`connections, this`disconnects, list`posted
      ensures valid == old(Up(list[i]))
      ensures connections == if valid then old(connections) else old(connections)[i := null]
      ensures disconnects == old(disconnects) + if valid then [] else [list[i]]
      ensures PostedSoFar(list, i + 1, was, msg, ignoreClient)
      ensures forall k :: 0 <= k < |list| ==> Up(list[k]) == old(Up(list[k]))
    {
      var client := connections[i];
      assert client in list;
      valid := false;
      if client != null {
        valid := client.Connected();
      }
      if valid {
        if client != ignoreClient {
          client.SendMessage(msg);
        }
      } else {
        OnClientDisconnect(client);
        connections := connections[i := null];
      }
      forall c: Connection | c in list
        ensures c.posted == was[c] + Repeated(msg, Due(list[..i + 1], c, ignoreClient, Up(c)))
      {
        DueNext(msg, list, i, c, ignoreClient, Up(c));
        assert c != client ==> c.posted == old(c.posted);
      }
    }

    /** The state of the loop after `n` turns; nobody has connected or disconnected meanwhile. */
    ghost predicate AtTurn(n: nat, invalid: bool, msg: Msg, ignoreClient: Connection?, list: seq<Connection?>,
                           up: seq<bool>, was: map<Connection, seq<Task>>, wasLost: seq<Connection?>)
      reads this, list
    {
      && Swept(list, up, n, connections, invalid, wasLost, disconnects)
      && (forall k :: 0 <= k < |list| ==> Up(list[k]) == up[k])
      && PostedSoFar(list, n, was, msg, ignoreClient)
    }

    method Turn(n: nat, invalid: bool, msg: Msg, ignoreClient: Connection?, ghost list: seq<Connection?>,
                ghost up: seq<bool>, ghost was: map<Connection, seq<Task>>, ghost wasLost: seq<Connection?>) returns (invalid': bool)
      requires n < |connections| == |list| && AtTurn(n, invalid, msg, ignoreClient, list, up, was, wasLost)
      modifies this`connections, this`disconnects, list`posted
      ensures |connections| == |list| && AtTurn(n + 1, invalid', msg, ignoreClient, list, up, was, wasLost)
    {
      SweptNext(list, up, n, connections, invalid, wasLost, disconnects);
      var valid := MessageEntry(n, msg, ignoreClient, list, was);
      invalid' := invalid || !valid;
    }

    /** The loop over the entries; tells whether one of them was reset. */
    method Sweep(msg: Msg, ignoreClient: Connection?, ghost list: seq<Connection?>, ghost up: seq<bool>,
                 ghost was: map<Connection, seq<Task>>, ghost wasLost: seq<Connection?>) returns (invalidClient: bool)
      requires |connections| == |list| && AtTurn(0, false, msg, ignoreClient, list, up, was, wasLost)
      modifies this`connections, this`disconnects, list`posted
      ensures AtTurn(|list|, invalidClient, msg, ignoreClient, list, up, was, wasLost)
    {
      invalidClient := false;
      var i := 0;
      while i < |connections|
        invariant i <= |connections| == |list|
        invariant AtTurn(i, invalidClient, msg, ignoreClient, list, up, was, wasLost)
      {
        invalidClient := Turn(i, invalidClient, msg, ignoreClient, list, up, was, wasLost);
        i := i + 1;
      }
    }

    /** Posts the message once per entry of a connected client other than the ignored one, touches
        nothing else (so `Up` is as before), reports the other entries in order as disconnected, and
        leaves the connected clients in their order. */
    method MessageAllClient(msg: Msg, ignoreClient: Connection?)
      modifies this`connections, this`disconnects, connections`posted
      ensures connections == Kept(old(connections), old(Snapshot(connections)))
      ensures disconnects == old(disconnects) + Lost(old(connections), old(Snapshot(connections)))
      ensures forall c: Connection :: c in old(connections) ==>
                c.posted == old(c.posted) + Repeated(msg, Due(old(connections), c, ignoreClient, Up(c)))
    {
      ghost var list, up, wasLost := connections, Snapshot(connections), disconnects;
      ghost var was: map<Connection, seq<Task>> := map c: Connection | c in list :: c.posted;
      SweptStart(list, up, wasLost);
      PostedStart(list, was, msg, ignoreClient);
      var invalidClient := Sweep(msg, ignoreClient, list, up, was, wasLost);
      PostedEnd(list, was, msg, ignoreClient);
      SweptEnd(list, up, connections, invalidClient, wasLost, disconnects);
      if invalidClient {
        connections := NonNull(connections);
      }
    }

    /** Hands messages to `on_message` in queue order until `maxMsg` are handled or the queue is
        seen empty.  `arrivals(t)` is what other threads push before emptiness test `t`, and
        `meanwhile` what they push until `wait` has seen a message and returns. */
    method Update(maxMsg: nat, wait: bool, meanwhile: seq<OwnedMessage>, arrivals: nat -> seq<OwnedMessage>)
        returns (taken: seq<OwnedMessage>, tests: nat)
      requires wait ==> incoming.queue + meanwhile != []
      modifies this`handled, incoming
      ensures handled == old(handled) + taken
      ensures Awaited(old(incoming.queue), wait, meanwhile) + Arrived(arrivals, tests) == taken + incoming.queue
      ensures wait && maxMsg > 0 ==> taken != []
      ensures |taken| <= maxMsg
      ensures |taken| < maxMsg ==> incoming.queue == []
    {
      taken, tests := [], 0;
      if wait {
        incoming.queue := incoming.queue + meanwhile;
      }
      ghost var start := incoming.queue;
      var msgCount := 0;
      while msgCount < maxMsg
        invariant msgCount == tests == |taken| <= maxMsg
        invariant handled == old(handled) + taken
        invariant start + Arrived(arrivals, tests) == taken + incoming.queue
        invariant wait && taken == [] ==> incoming.queue != []
      {
        ArrivedNext(start, arrivals, tests, taken, incoming.queue);
        incoming.queue := incoming.queue + arrivals(tests);
        tests := tests + 1;
        var empty := incoming.Empty();
        if empty { break; }
        var m := incoming.PopFront();
        OnMessage(m);
        taken := taken + [m];
        msgCount := msgCount + 1;
      }
    }
  }

  /** The queue when the loop begins. */
  function Awaited(queue: seq<OwnedMessage>, wait: bool, meanwhile: seq<OwnedMessage>): seq<OwnedMessage> {
    if wait then queue + meanwhile else queue
  }

  function Arrived(arrivals: nat -> seq<OwnedMessage>, tests: nat): seq<OwnedMessage> {
    if tests == 0 then [] else Arrived(arrivals, tests - 1) + arrivals(tests - 1)
  }

  lemma ArrivedNext(start: seq<OwnedMessage>, arrivals: nat -> seq<OwnedMessage>, tests: nat,
                    taken: seq<OwnedMessage>, queue: seq<OwnedMessage>)
    requires start + Arrived(arrivals, tests) == taken + queue
    ensures start + Arrived(arrivals, tests + 1) == taken + (queue + arrivals(tests))
  {
    var more := arrivals(tests);
    assert start + (Arrived(arrivals, tests) + more) == (start + Arrived(arrivals, tests)) + more;
    assert (taken + queue) + more == taken + (queue + more);
  }
}
