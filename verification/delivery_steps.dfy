/**
 Two connected endpoints and the byte streams between them.

 An event is one thing that can happen at one end: a call of `send_message` or `disconnect`, a
 posted handler, a transfer of some bytes of the outstanding write or read, or the completion of
 one of them with or without an error.  Events at the two ends interleave in any way.  The socket
 pair delivers bytes in order and without loss, in chunks of any size; what is still on the way
 when an end closes is simply never read.

 Here is what each event keeps at the end that writes and at the end that reads; module `Delivery`
 draws the conclusions for whole runs.
 */
module DeliverySteps {
  import opened Bits
  import opened NetMessage
  import opened Connections

  /** An end with its history. */
  datatype Side = Side(
    end: Endpoint,
    accepted: seq<Msg>,   // posted by send_message while connected
    executed: seq<Msg>,   // put on the outbound queue
    emitted: seq<Byte>,   // all bytes given to the socket
    consumed: nat,        // how many of the peer's bytes were read
    received: seq<Msg>,   // put on the incoming queue
    writeFailed: bool)

  datatype Action =
    | Send(msg: Msg)
    | Disconnect
    | RunTask
    | WriteSome(count: nat)
    | FinishWrite
    | FailWrite
    | ReadSome(count: nat)
    | FinishRead
    | FailRead

  datatype Event = Event(first: bool, action: Action)

  datatype System = System(a: Side, b: Side)

  function Start(): Side {
    Side(Endpoint(true, true, [], [], NoWrite, ReadingHeader([]), Msg(Header(0, 0, 0), [])), [], [], [], 0, [], false)
  }

  predicate Enabled(x: Side, peer: Side, action: Action) {
    match action
    case Send(_) => true
    case Disconnect => true
    case RunTask => x.end.posted != []
    case WriteSome(count) => CanWriteSome(x.end, count)
    case FinishWrite => CanFinishWrite(x.end)
    case FailWrite => x.end.write != NoWrite
    case ReadSome(count) =>
      && x.consumed + count <= |peer.emitted|
      && CanReadSome(x.end, peer.emitted[x.consumed..x.consumed + count])
    case FinishRead => CanFinishRead(x.end)
    case FailRead => x.end.read != NoRead
  }

  function Act(x: Side, peer: Side, action: Action): Side
    requires Enabled(x, peer, action)
  {
    match action
    case Send(m) =>
      x.(end := SendPosted(x.end, m), accepted := if IsConnected(x.end) then x.accepted + [m] else x.accepted)
    case Disconnect => x.(end := Disconnected(x.end))
    case RunTask =>
      x.(end := TaskRun(x.end), executed := x.executed + SendsOf(x.end.posted[..1]))
    case WriteSome(count) =>
      x.(end := SomeWritten(x.end, count),
         emitted := x.emitted + WriteBuffer(x.end)[x.end.write.done..x.end.write.done + count])
    case FinishWrite => x.(end := WriteFinished(x.end))
    case FailWrite => x.(end := WriteFailed(x.end), writeFailed := true)
    case ReadSome(count) =>
      x.(end := SomeRead(x.end, peer.emitted[x.consumed..x.consumed + count]), consumed := x.consumed + count)
    case FinishRead =>
      var end := ReadFinished(x.end);
      x.(end := end, received := if FinishDelivers(x.end) then x.received + [end.tempIn] else x.received)
    case FailRead => x.(end := ReadFailed(x.end))
  }

  predicate EventEnabled(s: System, e: Event) {
    if e.first then Enabled(s.a, s.b, e.action) else Enabled(s.b, s.a, e.action)
  }

  function Next(s: System, e: Event): System
    requires EventEnabled(s, e)
  {
    if e.first then s.(a := Act(s.a, s.b, e.action)) else s.(b := Act(s.b, s.a, e.action))
  }

  /** The senders pass messages whose header size is the body size, as every sealed message
      below 4 GiB does. */
  predicate Sized(m: Msg) {
    m.header.size == |m.body|
  }

  /** Event number `k` takes its state to the next one. */
  ghost predicate IsStep(states: seq<System>, events: seq<Event>, k: nat)
    requires k < |events| < |states|
  {
    && (events[k].action.Send? ==> Sized(events[k].action.msg))
    && EventEnabled(states[k], events[k])
    && states[k + 1] == Next(states[k], events[k])
  }

  ghost predicate IsRun(states: seq<System>, events: seq<Event>) {
    && |states| == |events| + 1
    && states[0] == System(Start(), Start())
    && forall k {:trigger IsStep(states, events, k)} :: 0 <= k < |events| ==> IsStep(states, events, k)
  }

  // ---------- framing ----------

  function SendsOf(tasks: seq<Task>): seq<Msg> {
    if tasks == [] then []
    else (if tasks[0].SendTask? then [tasks[0].msg] else []) + SendsOf(tasks[1..])
  }

  lemma {:induction false} SendsOfAppend(s: seq<Task>, t: seq<Task>)
    ensures SendsOf(s + t) == SendsOf(s) + SendsOf(t)
  {
    if s == [] {
      assert s + t == t;
    } else {
      var rest := s[1..];
      assert (s + t)[1..] == rest + t && (s + t)[0] == s[0];
      SendsOfAppend(rest, t);
    }
  }

  function Frame(m: Msg): seq<Byte> {
    EncodeHeader(m.header) + m.body
  }

  function Encode(msgs: seq<Msg>): seq<Byte> {
    if msgs == [] then [] else Encode(msgs[..|msgs| - 1]) + Frame(msgs[|msgs| - 1])
  }

  lemma EncodeSnoc(msgs: seq<Msg>, m: Msg)
    ensures Encode(msgs + [m]) == Encode(msgs) + Frame(m)
  {
    assert (msgs + [m])[..|msgs|] == msgs;
  }

  /** The stream of the first `n + 1` messages starts with the first `n` and continues with the next. */
  lemma {:induction false} EncodePrefix(msgs: seq<Msg>, n: nat)
    requires n <= |msgs|
    ensures Encode(msgs[..n]) <= Encode(msgs)
    ensures n < |msgs| ==> Encode(msgs[..n]) + Frame(msgs[n]) <= Encode(msgs)
    decreases |msgs| - n
  {
    if n == |msgs| {
      assert msgs[..n] == msgs;
    } else {
      EncodeSnoc(msgs[..n], msgs[n]);
      assert msgs[..n] + [msgs[n]] == msgs[..n + 1];
      EncodePrefix(msgs, n + 1);
    }
  }

  // ---------- the writer ----------

  function Written(write: Write): nat {
    match write
    case NoWrite => 0
    case WritingHeader(done) => done
    case WritingBody(done) => HEADER_SIZE + done
  }

  /** What the socket has been given, against the sends executed so far.  `completed` are the
      messages already popped from the queue. */
  ghost predicate StreamInv(completed: seq<Msg>, outbound: seq<Msg>, write: Write, emitted: seq<Byte>, failed: bool) {
    && emitted <= Encode(completed + outbound)
    && if failed then write == NoWrite && outbound != []
       else
         && (write == NoWrite <==> outbound == [])
         && (write != NoWrite ==> write.done <= |Buffer(write, outbound[0])|)
         && |emitted| == |Encode(completed)| + Written(write)
  }

  /** The messages that are completely written. */
  function Completed(x: Side): seq<Msg>
    requires |x.end.outbound| <= |x.executed|
  {
    x.executed[..|x.executed| - |x.end.outbound|]
  }

  ghost predicate QueueInv(x: Side) {
    && |x.end.outbound| <= |x.executed|
    && x.executed == Completed(x) + x.end.outbound
  }

  /** One write is outstanding if and only if the queue is non-empty; it concerns the front, and
      the bytes given to the socket are those of the executed sends, header then body. */
  ghost predicate WriterInv(x: Side) {
    && x.accepted == x.executed + SendsOf(x.end.posted)
    && QueueInv(x)
    && StreamInv(Completed(x), x.end.outbound, x.end.write, x.emitted, x.writeFailed)
  }

  lemma SlicePrefix(whole: seq<Byte>, base: seq<Byte>, frame: seq<Byte>, at: nat, count: nat)
    requires base + frame <= whole && at + count <= |frame|
    ensures whole[..|base| + at] + frame[at..at + count] <= whole
  {
    assert whole[..|base| + |frame|] == base + frame;
    assert whole[..|base| + at + count] == whole[..|base| + at] + frame[at..at + count];
  }

  lemma FramePart(write: Write, m: Msg, count: nat)
    requires write != NoWrite && write.done + count <= |Buffer(write, m)|
    ensures Written(write) + count <= |Frame(m)|
    ensures Frame(m)[Written(write)..Written(write) + count] == Buffer(write, m)[write.done..write.done + count]
  {
    var header := EncodeHeader(m.header);
    assert Frame(m) == header + m.body;
    if write.WritingBody? {
      assert (header + m.body)[|header|..] == m.body;
    }
  }

  /** Bytes that continue the stream where the emitted ones end. */
  lemma ExtendsStream(emitted: seq<Byte>, bytes: seq<Byte>, whole: seq<Byte>, base: seq<Byte>, frame: seq<Byte>, at: nat)
    requires emitted <= whole && base + frame <= whole
    requires |emitted| == |base| + at && at + |bytes| <= |frame| && bytes == frame[at..at + |bytes|]
    ensures emitted + bytes <= whole
  {
    SlicePrefix(whole, base, frame, at, |bytes|);
    PrefixSlice(emitted, whole, 0, |emitted|);
    assert emitted == whole[..|base| + at];
  }

  /** The bytes of the current buffer are the next bytes of the stream. */
  lemma NextBytes(completed: seq<Msg>, outbound: seq<Msg>, write: Write, emitted: seq<Byte>, failed: bool, count: nat)
    requires StreamInv(completed, outbound, write, emitted, failed)
    requires outbound != [] && write != NoWrite && write.done + count <= |Buffer(write, outbound[0])|
    ensures StreamInv(completed, outbound, write.(done := write.done + count),
              emitted + Buffer(write, outbound[0])[write.done..write.done + count], failed)
  {
    var bytes := Buffer(write, outbound[0])[write.done..write.done + count];
    FramePart(write, outbound[0], count);
    FrontFrame(completed, outbound);
    ExtendsStream(emitted, bytes, Encode(completed + outbound), Encode(completed), Frame(outbound[0]), Written(write));
  }

  lemma FrontFrame(completed: seq<Msg>, outbound: seq<Msg>)
    requires outbound != []
    ensures Encode(completed) + Frame(outbound[0]) <= Encode(completed + outbound)
  {
    var all := completed + outbound;
    EncodePrefix(all, |completed|);
    assert all[..|completed|] == completed && all[|completed|] == outbound[0];
  }

  lemma HeaderCompletes(completed: seq<Msg>, outbound: seq<Msg>, write: Write, emitted: seq<Byte>, failed: bool)
    requires StreamInv(completed, outbound, write, emitted, failed)
    requires outbound != [] && write.WritingHeader? && write.done == |Buffer(write, outbound[0])|
    ensures StreamInv(completed, outbound, WritingBody(0), emitted, failed)
  {
  }

  lemma PopCompletes(completed: seq<Msg>, outbound: seq<Msg>, write: Write, emitted: seq<Byte>, failed: bool)
    requires StreamInv(completed, outbound, write, emitted, failed)
    requires outbound != [] && write != NoWrite && write.done == |Buffer(write, outbound[0])|
    requires write.WritingBody? || outbound[0].body == []
    ensures StreamInv(completed + [outbound[0]], outbound[1..],
              if outbound[1..] == [] then NoWrite else WritingHeader(0), emitted, failed)
  {
    assert completed + outbound == (completed + [outbound[0]]) + outbound[1..];
    EncodeSnoc(completed, outbound[0]);
  }

  lemma SendAppends(completed: seq<Msg>, outbound: seq<Msg>, write: Write, emitted: seq<Byte>, failed: bool, m: Msg)
    requires StreamInv(completed, outbound, write, emitted, failed)
    ensures StreamInv(completed, outbound + [m], if outbound == [] then WritingHeader(0) else write, emitted, failed)
  {
    assert completed + (outbound + [m]) == (completed + outbound) + [m];
    EncodeSnoc(completed + outbound, m);
  }

  lemma RunTaskAccounts(x: Side)
    requires x.accepted == x.executed + SendsOf(x.end.posted) && x.end.posted != []
    ensures x.accepted == (x.executed + SendsOf(x.end.posted[..1])) + SendsOf(x.end.posted[1..])
    ensures SendsOf(x.end.posted[..1]) == if x.end.posted[0].SendTask? then [x.end.posted[0].msg] else []
  {
    assert x.end.posted == x.end.posted[..1] + x.end.posted[1..];
    SendsOfAppend(x.end.posted[..1], x.end.posted[1..]);
  }

  lemma RunSendKeepsWriter(x: Side, x': Side, m: Msg)
    requires WriterInv(x)
    requires x'.end.outbound == x.end.outbound + [m]
    requires x'.end.write == if x.end.outbound == [] then WritingHeader(0) else x.end.write
    requires x'.executed == x.executed + [m] && x'.accepted == x'.executed + SendsOf(x'.end.posted)
    requires x'.emitted == x.emitted && x'.writeFailed == x.writeFailed
    ensures WriterInv(x')
  {
    SendAppends(Completed(x), x.end.outbound, x.end.write, x.emitted, x.writeFailed, m);
    assert Completed(x') == Completed(x);
    assert x'.executed == Completed(x') + x'.end.outbound;
  }

  lemma RunTaskKeepsWriter(x: Side, peer: Side)
    requires WriterInv(x) && x.end.posted != []
    ensures WriterInv(Act(x, peer, RunTask))
  {
    var x' := Act(x, peer, RunTask);
    RunTaskAccounts(x);
    if x.end.posted[0].SendTask? {
      RunSendKeepsWriter(x, x', x.end.posted[0].msg);
    } else {
      assert x'.executed == x.executed;
      assert Completed(x') == Completed(x);
    }
  }

  lemma FrontCompleted(executed: seq<Msg>, outbound: seq<Msg>)
    requires outbound != [] && |outbound| <= |executed|
    requires executed == executed[..|executed| - |outbound|] + outbound
    ensures executed[..|executed| - |outbound[1..]|] == executed[..|executed| - |outbound|] + [outbound[0]]
    ensures executed == executed[..|executed| - |outbound[1..]|] + outbound[1..]
  {
  }

  lemma PopKeepsWriter(x: Side, x': Side)
    requires WriterInv(x) && CanFinishWrite(x.end)
    requires x.end.write.WritingBody? || x.end.outbound[0].body == []
    requires x'.end.outbound == x.end.outbound[1..]
    requires x'.end.write == if x'.end.outbound == [] then NoWrite else WritingHeader(0)
    requires x'.end.posted == x.end.posted && x'.accepted == x.accepted && x'.executed == x.executed
    requires x'.emitted == x.emitted && x'.writeFailed == x.writeFailed
    ensures WriterInv(x')
  {
    PopCompletes(Completed(x), x.end.outbound, x.end.write, x.emitted, x.writeFailed);
    FrontCompleted(x.executed, x.end.outbound);
  }

  lemma FinishKeepsWriter(x: Side, peer: Side)
    requires WriterInv(x) && CanFinishWrite(x.end)
    ensures WriterInv(Act(x, peer, FinishWrite))
  {
    if x.end.write.WritingHeader? && |x.end.outbound[0].body| > 0 {
      HeaderCompletes(Completed(x), x.end.outbound, x.end.write, x.emitted, x.writeFailed);
    } else {
      PopKeepsWriter(x, Act(x, peer, FinishWrite));
    }
  }

  /** Steps that leave the queue, the write and the stream alone. */
  lemma PostKeepsWriter(x: Side, x': Side, tasks: seq<Task>)
    requires WriterInv(x)
    requires x'.end.posted == x.end.posted + tasks
    requires x'.accepted == x.accepted + SendsOf(tasks)
    requires x'.end.outbound == x.end.outbound && x'.end.write == x.end.write
    requires x'.executed == x.executed && x'.emitted == x.emitted && x'.writeFailed == x.writeFailed
    ensures WriterInv(x')
  {
    SendsOfAppend(x.end.posted, tasks);
    assert Completed(x') == Completed(x);
    AppendThree(x.executed, SendsOf(x.end.posted), SendsOf(tasks));
  }

  lemma AppendThree(a: seq<Msg>, b: seq<Msg>, c: seq<Msg>)
    ensures (a + b) + c == a + (b + c)
  {
  }

  lemma WriteSomeKeepsWriter(x: Side, peer: Side, count: nat)
    requires WriterInv(x) && Enabled(x, peer, WriteSome(count))
    ensures WriterInv(Act(x, peer, WriteSome(count)))
  {
    NextBytes(Completed(x), x.end.outbound, x.end.write, x.emitted, x.writeFailed, count);
  }

  function CloseTasks(e: Endpoint): seq<Task> {
    if IsConnected(e) then [CloseTask] else []
  }

  lemma FailWriteKeepsWriter(x: Side, peer: Side)
    requires WriterInv(x) && Enabled(x, peer, FailWrite)
    ensures WriterInv(Act(x, peer, FailWrite))
  {
    var y := x.(end := x.end.(write := NoWrite), writeFailed := true);
    assert Completed(y) == Completed(x);
    PostKeepsWriter(y, Act(x, peer, FailWrite), CloseTasks(x.end));
  }

  lemma CallsKeepWriter(x: Side, peer: Side, action: Action)
    requires WriterInv(x) && Enabled(x, peer, action)
    requires action.Send? || action.Disconnect?
    ensures WriterInv(Act(x, peer, action))
  {
    var tasks := if action.Disconnect? then CloseTasks(x.end)
                 else if IsConnected(x.end) then [SendTask(action.msg)] else [];
    PostKeepsWriter(x, Act(x, peer, action), tasks);
  }

  lemma ReadLeavesWriter(e: Endpoint)
    requires CanFinishRead(e)
    ensures ReadFinished(e) == e.(read := ReadFinished(e).read, tempIn := ReadFinished(e).tempIn)
  {
  }

  lemma FinishReadKeepsWriter(x: Side, peer: Side)
    requires WriterInv(x) && CanFinishRead(x.end)
    ensures WriterInv(Act(x, peer, FinishRead))
  {
    ReadLeavesWriter(x.end);
    var end := ReadFinished(x.end);
    assert end.posted == x.end.posted + [] && end.outbound == x.end.outbound && end.write == x.end.write;
    PostKeepsWriter(x, Act(x, peer, FinishRead), []);
  }

  lemma ReadSomeKeepsWriter(x: Side, peer: Side, count: nat)
    requires WriterInv(x) && Enabled(x, peer, ReadSome(count))
    ensures WriterInv(Act(x, peer, ReadSome(count)))
  {
    PostKeepsWriter(x, Act(x, peer, ReadSome(count)), []);
  }

  lemma FailReadKeepsWriter(x: Side, peer: Side)
    requires WriterInv(x) && x.end.read != NoRead
    ensures WriterInv(Act(x, peer, FailRead))
  {
    PostKeepsWriter(x, Act(x, peer, FailRead), CloseTasks(x.end));
  }

  lemma {:induction false} WriterStep(x: Side, peer: Side, action: Action)
    requires WriterInv(x) && Enabled(x, peer, action)
    ensures WriterInv(Act(x, peer, action))
  {
    if action.RunTask? { RunTaskKeepsWriter(x, peer); }
    else if action.WriteSome? { WriteSomeKeepsWriter(x, peer, action.count); }
    else if action.FinishWrite? { FinishKeepsWriter(x, peer); }
    else if action.FailWrite? { FailWriteKeepsWriter(x, peer); }
    else if action.Send? || action.Disconnect? { CallsKeepWriter(x, peer, action); }
    else if action.ReadSome? { ReadSomeKeepsWriter(x, peer, action.count); }
    else if action.FinishRead? { FinishReadKeepsWriter(x, peer); }
    else { FailReadKeepsWriter(x, peer); }
  }

  // ---------- the reader ----------

  /** The body `m_temp_in` holds after these messages: that of the last one with a body. */
  function StaleBody(msgs: seq<Msg>): seq<Byte> {
    if msgs == [] then []
    else if msgs[|msgs| - 1].body != [] then msgs[|msgs| - 1].body
    else StaleBody(msgs[..|msgs| - 1])
  }

  /** What a receiver gets for these messages: an empty body is replaced by the one before. */
  function Delivered(msgs: seq<Msg>): (r: seq<Msg>)
    ensures |r| == |msgs|
  {
    if msgs == [] then []
    else Delivered(msgs[..|msgs| - 1]) + [msgs[|msgs| - 1].(body := StaleBody(msgs))]
  }

  lemma DeliveredSnoc(msgs: seq<Msg>, m: Msg)
    ensures StaleBody(msgs + [m]) == if m.body != [] then m.body else StaleBody(msgs)
    ensures Delivered(msgs + [m]) == Delivered(msgs) + [m.(body := StaleBody(msgs + [m]))]
  {
    assert (msgs + [m])[..|msgs|] == msgs;
  }

  ghost predicate AllSized(msgs: seq<Msg>) {
    forall i :: 0 <= i < |msgs| ==> Sized(msgs[i])
  }

  /** How far the reader is in the stream of the peer's executed sends. */
  ghost predicate ReadInv(received: seq<Msg>, read: Read, tempIn: Msg, consumed: nat, sent: seq<Msg>, emitted: seq<Byte>) {
    && consumed <= |emitted|
    && |received| <= |sent|
    && received == Delivered(sent[..|received|])
    && var base := |Encode(sent[..|received|])|;
       match read
       case NoRead => true
       case ReadingHeader(got) =>
         && tempIn.body == StaleBody(sent[..|received|])
         && consumed == base + |got| && |got| <= HEADER_SIZE
         && got == emitted[base..consumed]
       case ReadingBody(done) =>
         && |received| < |sent|
         && var m := sent[|received|];
         && tempIn.header == m.header && |tempIn.body| == |m.body| && m.body != []
         && done <= |m.body| && consumed == base + HEADER_SIZE + done
         && tempIn.body[..done] == m.body[..done]
  }

  /** The peer sends and emits more: what was read so far is not affected. */
  lemma ReadInvGrows(received: seq<Msg>, read: Read, tempIn: Msg, consumed: nat,
                     sent: seq<Msg>, emitted: seq<Byte>, sent': seq<Msg>, emitted': seq<Byte>)
    requires ReadInv(received, read, tempIn, consumed, sent, emitted)
    requires sent <= sent' && emitted <= emitted'
    ensures ReadInv(received, read, tempIn, consumed, sent', emitted')
  {
    assert sent'[..|received|] == sent[..|received|];
    if read.ReadingHeader? {
      assert emitted == emitted'[..|emitted|];
    }
  }

  lemma FrameSlices(whole: seq<Byte>, base: seq<Byte>, m: Msg)
    requires base + Frame(m) <= whole
    ensures |base| + HEADER_SIZE + |m.body| <= |whole|
    ensures whole[|base|..|base| + HEADER_SIZE] == EncodeHeader(m.header)
    ensures whole[|base| + HEADER_SIZE..|base| + HEADER_SIZE + |m.body|] == m.body
  {
    var header := EncodeHeader(m.header);
    var flat := base + header + m.body;
    assert base + Frame(m) == flat;
    assert whole[..|flat|] == flat;
    assert flat[|base|..|base| + |header|] == header;
    assert flat[|base| + |header|..] == m.body;
  }

  /** Bytes that lie beyond the first `n` messages belong to the next one. */
  lemma StreamGoesOn(sent: seq<Msg>, emitted: seq<Byte>, n: nat)
    requires n <= |sent| && emitted <= Encode(sent) && |emitted| > |Encode(sent[..n])|
    ensures n < |sent|
    ensures Encode(sent[..n]) + Frame(sent[n]) <= Encode(sent)
  {
    EncodePrefix(sent, n);
    assert sent[..|sent|] == sent;
  }

  /** The 12 bytes after the first `n` messages are the next header. */
  lemma HeaderBytes(sent: seq<Msg>, emitted: seq<Byte>, n: nat, at: nat)
    requires n <= |sent| && emitted <= Encode(sent)
    requires at == |Encode(sent[..n])| && at + HEADER_SIZE <= |emitted|
    ensures n < |sent| && emitted[at..at + HEADER_SIZE] == EncodeHeader(sent[n].header)
  {
    StreamGoesOn(sent, emitted, n);
    FrameSlices(Encode(sent), Encode(sent[..n]), sent[n]);
    PrefixSlice(emitted, Encode(sent), at, at + HEADER_SIZE);
  }

  lemma PrefixSlice(part: seq<Byte>, whole: seq<Byte>, i: nat, j: nat)
    requires part <= whole && i <= j <= |part|
    ensures part[i..j] == whole[i..j]
  {
  }

  /** These 12 bytes end at `consumed` and follow the first `n` messages. */
  ghost predicate HeaderComplete(got: seq<Byte>, n: nat, consumed: nat, sent: seq<Msg>, emitted: seq<Byte>) {
    && n <= |sent| && |got| == HEADER_SIZE && consumed <= |emitted|
    && consumed == |Encode(sent[..n])| + HEADER_SIZE
    && got == emitted[consumed - HEADER_SIZE..consumed]
  }

  lemma HeaderArrives(got: seq<Byte>, n: nat, consumed: nat, sent: seq<Msg>, emitted: seq<Byte>)
    requires HeaderComplete(got, n, consumed, sent, emitted) && emitted <= Encode(sent)
    ensures n < |sent| && got == EncodeHeader(sent[n].header)
  {
    HeaderBytes(sent, emitted, n, consumed - HEADER_SIZE);
  }

  lemma HeaderDecodes(got: seq<Byte>, h: Header)
    requires got == EncodeHeader(h)
    ensures |got| == HEADER_SIZE && DecodeHeader(got) == h
  {
    HeaderRoundTrip(h);
  }

  lemma HeaderChunk(received: seq<Msg>, got: seq<Byte>, tempIn: Msg, consumed: nat, sent: seq<Msg>, emitted: seq<Byte>, count: nat)
    requires ReadInv(received, ReadingHeader(got), tempIn, consumed, sent, emitted)
    requires consumed + count <= |emitted| && |got| + count <= HEADER_SIZE
    ensures ReadInv(received, ReadingHeader(got + emitted[consumed..consumed + count]), tempIn, consumed + count, sent, emitted)
  {
    var base := |Encode(sent[..|received|])|;
    assert emitted[base..consumed + count] == got + emitted[consumed..consumed + count];
  }

  /** The bytes at this place of the stream are the next ones of the body being read. */
  lemma BodyBytes(sent: seq<Msg>, emitted: seq<Byte>, n: nat, done: nat, count: nat, at: nat)
    requires n < |sent| && emitted <= Encode(sent) && done + count <= |sent[n].body|
    requires at == |Encode(sent[..n])| + HEADER_SIZE + done && at + count <= |emitted|
    ensures emitted[at..at + count] == sent[n].body[done..done + count]
  {
    EncodePrefix(sent, n);
    FrameSlices(Encode(sent), Encode(sent[..n]), sent[n]);
    PrefixSlice(emitted, Encode(sent), at, at + count);
    SubSlice(Encode(sent), at - done, sent[n].body, done, count);
  }

  lemma OverwrittenPrefix(body: seq<Byte>, target: seq<Byte>, done: nat, chunk: seq<Byte>)
    requires |body| == |target| && done + |chunk| <= |body| && body[..done] == target[..done]
    requires chunk == target[done..done + |chunk|]
    ensures Overwritten(body, done, chunk)[..done + |chunk|] == target[..done + |chunk|]
  {
    assert Overwritten(body, done, chunk)[..done + |chunk|] == body[..done] + chunk;
  }

  lemma BodyChunk(received: seq<Msg>, done: nat, tempIn: Msg, consumed: nat, sent: seq<Msg>, emitted: seq<Byte>, count: nat)
    requires ReadInv(received, ReadingBody(done), tempIn, consumed, sent, emitted)
    requires emitted <= Encode(sent) && consumed + count <= |emitted| && done + count <= |tempIn.body|
    ensures ReadInv(received, ReadingBody(done + count),
              tempIn.(body := Overwritten(tempIn.body, done, emitted[consumed..consumed + count])), consumed + count, sent, emitted)
  {
    var n := |received|;
    BodyBytes(sent, emitted, n, done, count, consumed);
    OverwrittenPrefix(tempIn.body, sent[n].body, done, emitted[consumed..consumed + count]);
  }

  lemma SubSlice(whole: seq<Byte>, at: nat, part: seq<Byte>, done: nat, count: nat)
    requires at + |part| <= |whole| && whole[at..at + |part|] == part && done + count <= |part|
    ensures whole[at + done..at + done + count] == part[done..done + count]
  {
    forall j | at + done <= j < at + done + count ensures whole[j] == part[j - at] {
      assert whole[at..at + |part|][j - at] == whole[j];
    }
  }

  /** The body read in full, or left stale when there is none, makes the next delivered message. */
  lemma DeliverNext(received: seq<Msg>, tempIn: Msg, consumed: nat, sent: seq<Msg>, emitted: seq<Byte>)
    requires |received| < |sent| && received == Delivered(sent[..|received|])
    requires consumed <= |emitted|
    requires var m := sent[|received|];
             && tempIn == m.(body := if m.body != [] then m.body else StaleBody(sent[..|received|]))
             && consumed == |Encode(sent[..|received|])| + HEADER_SIZE + |m.body|
    ensures ReadInv(received + [tempIn], ReadingHeader([]), tempIn, consumed, sent, emitted)
  {
    var n := |received|;
    assert sent[..n] + [sent[n]] == sent[..n + 1];
    DeliveredSnoc(sent[..n], sent[n]);
    EncodeSnoc(sent[..n], sent[n]);
  }

  ghost predicate ReaderInv(x: Side, peer: Side) {
    ReadInv(x.received, x.end.read, x.end.tempIn, x.consumed, peer.executed, peer.emitted)
  }

  lemma ReadSomeKeepsReader(x: Side, peer: Side, count: nat)
    requires ReaderInv(x, peer) && Enabled(x, peer, ReadSome(count)) && peer.emitted <= Encode(peer.executed)
    ensures ReaderInv(Act(x, peer, ReadSome(count)), peer)
  {
    match x.end.read {
      case ReadingHeader(got) =>
        HeaderChunk(x.received, got, x.end.tempIn, x.consumed, peer.executed, peer.emitted, count);
      case ReadingBody(done) =>
        BodyChunk(x.received, done, x.end.tempIn, x.consumed, peer.executed, peer.emitted, count);
    }
  }

  lemma HeaderRead(received: seq<Msg>, got: seq<Byte>, tempIn: Msg, consumed: nat, sent: seq<Msg>, emitted: seq<Byte>)
    requires ReadInv(received, ReadingHeader(got), tempIn, consumed, sent, emitted) && |got| == HEADER_SIZE
    ensures HeaderComplete(got, |received|, consumed, sent, emitted)
  {
  }

  lemma BodyFollows(received: seq<Msg>, got: seq<Byte>, tempIn: Msg, consumed: nat, sent: seq<Msg>, emitted: seq<Byte>, m: Msg)
    requires ReadInv(received, ReadingHeader(got), tempIn, consumed, sent, emitted)
    requires |got| == HEADER_SIZE && |received| < |sent| && m == sent[|received|] && Sized(m) && m.body != []
    ensures ReadInv(received, ReadingBody(0), Msg(m.header, Resized(tempIn.body, m.header.size)), consumed, sent, emitted)
  {
  }

  lemma NoBodyFollows(received: seq<Msg>, got: seq<Byte>, tempIn: Msg, consumed: nat, sent: seq<Msg>, emitted: seq<Byte>, m: Msg)
    requires ReadInv(received, ReadingHeader(got), tempIn, consumed, sent, emitted)
    requires |got| == HEADER_SIZE && |received| < |sent| && m == sent[|received|] && m.body == []
    ensures ReadInv(received + [tempIn.(header := m.header)], ReadingHeader([]), tempIn.(header := m.header), consumed, sent, emitted)
  {
    DeliverNext(received, tempIn.(header := m.header), consumed, sent, emitted);
  }

  lemma FinishHeaderKeepsReader(x: Side, peer: Side)
    requires ReaderInv(x, peer) && Enabled(x, peer, FinishRead) && x.end.read.ReadingHeader?
    requires peer.emitted <= Encode(peer.executed) && AllSized(peer.executed)
    ensures ReaderInv(Act(x, peer, FinishRead), peer)
  {
    var got := x.end.read.got;
    HeaderRead(x.received, got, x.end.tempIn, x.consumed, peer.executed, peer.emitted);
    HeaderArrives(got, |x.received|, x.consumed, peer.executed, peer.emitted);
    var m := peer.executed[|x.received|];
    HeaderDecodes(got, m.header);
    assert Sized(m);
    if m.body == [] {
      NoBodyFollows(x.received, got, x.end.tempIn, x.consumed, peer.executed, peer.emitted, m);
    } else {
      BodyFollows(x.received, got, x.end.tempIn, x.consumed, peer.executed, peer.emitted, m);
    }
  }

  lemma FinishBodyKeepsReader(x: Side, peer: Side)
    requires ReaderInv(x, peer) && Enabled(x, peer, FinishRead) && x.end.read.ReadingBody?
    ensures ReaderInv(Act(x, peer, FinishRead), peer)
  {
    var m := peer.executed[|x.received|];
    var body := x.end.tempIn.body;
    assert body == body[..x.end.read.done] && m.body == m.body[..x.end.read.done];
    DeliverNext(x.received, x.end.tempIn, x.consumed, peer.executed, peer.emitted);
  }

  lemma OwnStepKeepsReader(x: Side, peer: Side, action: Action)
    requires ReaderInv(x, peer) && Enabled(x, peer, action)
    requires peer.emitted <= Encode(peer.executed) && AllSized(peer.executed)
    ensures ReaderInv(Act(x, peer, action), peer)
  {
    if action.ReadSome? { ReadSomeKeepsReader(x, peer, action.count); }
    else if action.FinishRead? {
      if x.end.read.ReadingHeader? { FinishHeaderKeepsReader(x, peer); } else { FinishBodyKeepsReader(x, peer); }
    }
  }

  lemma PeerStepKeepsReader(x: Side, peer: Side, action: Action)
    requires ReaderInv(x, peer) && Enabled(peer, x, action)
    ensures ReaderInv(x, Act(peer, x, action))
  {
    var peer' := Act(peer, x, action);
    ReadInvGrows(x.received, x.end.read, x.end.tempIn, x.consumed, peer.executed, peer.emitted, peer'.executed, peer'.emitted);
  }
}
