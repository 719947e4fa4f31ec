/**
 One end of a connection: src/change_lib/net/connection.hpp.

 Every completion handler runs on the one thread of its `io_context`, so it is one atomic step.
 `Endpoint` is the state between handlers: the socket and `m_connected` flags, the handlers posted
 to the context, the outbound queue, the outstanding write and read with the bytes they have moved
 so far, and `m_temp_in`.  The functions below are the steps on that value; class `Connection` is
 the program's object, each of whose methods is proved to take the step of the same name.
 */
module Connections {
  import opened Bits
  import opened NetMessage
  import opened ConnectQueues

  datatype Task = SendTask(msg: Msg) | CloseTask

  /** The outstanding `async_write`, always of the front of the queue, and the bytes written. */
  datatype Write = NoWrite | WritingHeader(done: nat) | WritingBody(done: nat)

  /** The outstanding `async_read`; body bytes go straight into `m_temp_in`. */
  datatype Read = NoRead | ReadingHeader(got: seq<Byte>) | ReadingBody(done: nat)

  datatype Endpoint = Endpoint(
    open: bool,
    connected: bool,
    posted: seq<Task>,
    outbound: seq<Msg>,
    write: Write,
    read: Read,
    tempIn: Msg)

  predicate IsConnected(e: Endpoint) {
    e.open && e.connected
  }

  function Disconnected(e: Endpoint): Endpoint {
    if IsConnected(e) then e.(connected := false, posted := e.posted + [CloseTask]) else e
  }

  function SendPosted(e: Endpoint, m: Msg): Endpoint {
    if IsConnected(e) then e.(posted := e.posted + [SendTask(m)]) else e
  }

  /** The first posted handler runs. */
  function TaskRun(e: Endpoint): Endpoint
    requires e.posted != []
  {
    var rest := e.(posted := e.posted[1..]);
    match e.posted[0]
    case CloseTask => rest.(open := false)
    case SendTask(m) =>
      var queued := rest.(outbound := e.outbound + [m]);
      if e.outbound == [] then queued.(write := WritingHeader(0)) else queued
  }

  // ---------- writing ----------

  /** The part of a message that a write sends. */
  function Buffer(write: Write, m: Msg): seq<Byte>
    requires write != NoWrite
  {
    if write.WritingHeader? then EncodeHeader(m.header) else m.body
  }

  /** The buffer of the outstanding write. */
  function WriteBuffer(e: Endpoint): seq<Byte>
    requires e.write != NoWrite && e.outbound != []
  {
    Buffer(e.write, e.outbound[0])
  }

  /** The socket takes some more bytes of the buffer. */
  predicate CanWriteSome(e: Endpoint, count: nat) {
    && e.open && e.write != NoWrite && e.outbound != []
    && e.write.done + count <= |WriteBuffer(e)|
  }

  function SomeWritten(e: Endpoint, count: nat): Endpoint
    requires CanWriteSome(e, count)
  {
    e.(write := e.write.(done := e.write.done + count))
  }

  predicate CanFinishWrite(e: Endpoint) {
    e.write != NoWrite && e.outbound != [] && e.write.done == |WriteBuffer(e)|
  }

  function FrontPopped(e: Endpoint): Endpoint
    requires e.outbound != []
  {
    var rest := e.(outbound := e.outbound[1..]);
    rest.(write := if rest.outbound == [] then NoWrite else WritingHeader(0))
  }

  function WriteFinished(e: Endpoint): Endpoint
    requires CanFinishWrite(e)
  {
    if e.write.WritingHeader? && |e.outbound[0].body| > 0 then e.(write := WritingBody(0)) else FrontPopped(e)
  }

  function WriteFailed(e: Endpoint): Endpoint {
    Disconnected(e.(write := NoWrite))
  }

  // ---------- reading ----------

  /** `vector::resize`: cuts off or appends zero bytes. */
  function Resized(body: seq<Byte>, size: nat): (r: seq<Byte>)
    ensures |r| == size
  {
    if size <= |body| then body[..size] else body + seq(size - |body|, i => 0)
  }

  function Overwritten(body: seq<Byte>, at: nat, chunk: seq<Byte>): (r: seq<Byte>)
    requires at + |chunk| <= |body|
    ensures |r| == |body|
  {
    body[..at] + chunk + body[at + |chunk|..]
  }

  predicate CanReadSome(e: Endpoint, chunk: seq<Byte>) {
    && e.open
    && match e.read
       case NoRead => false
       case ReadingHeader(got) => |got| + |chunk| <= HEADER_SIZE
       case ReadingBody(done) => done + |chunk| <= |e.tempIn.body|
  }

  function SomeRead(e: Endpoint, chunk: seq<Byte>): Endpoint
    requires CanReadSome(e, chunk)
  {
    match e.read
    case ReadingHeader(got) => e.(read := ReadingHeader(got + chunk))
    case ReadingBody(done) =>
      e.(read := ReadingBody(done + |chunk|), tempIn := e.tempIn.(body := Overwritten(e.tempIn.body, done, chunk)))
  }

  predicate CanFinishRead(e: Endpoint) {
    match e.read
    case NoRead => false
    case ReadingHeader(got) => |got| == HEADER_SIZE
    case ReadingBody(done) => done == |e.tempIn.body|
  }

  /** The completed read hands `m_temp_in` to the incoming queue. */
  predicate FinishDelivers(e: Endpoint)
    requires CanFinishRead(e)
  {
    e.read.ReadingBody? || DecodeHeader(e.read.got).size == 0
  }

  function ReadFinished(e: Endpoint): Endpoint
    requires CanFinishRead(e)
  {
    match e.read
    case ReadingHeader(got) =>
      var header := DecodeHeader(got);
      if header.size > 0 then
        e.(read := ReadingBody(0), tempIn := Msg(header, Resized(e.tempIn.body, header.size)))
      else
        e.(read := ReadingHeader([]), tempIn := e.tempIn.(header := header))
    case ReadingBody(_) => e.(read := ReadingHeader([]))
  }

  function ReadFailed(e: Endpoint): Endpoint {
    Disconnected(e.(read := NoRead))
  }

  // ---------- the object ----------

  datatype Owner = Server | Client

  datatype OwnedMessage = OwnedMessage(remote: Connection?, msg: Msg)

  class Connection {
    const owner: Owner
    const outbound: ConnectQueue<Msg>
    const incoming: ConnectQueue<OwnedMessage>
    var open: bool
    var connected: bool
    var posted: seq<Task>
    var write: Write
    var read: Read
    var tempIn: Msg
    var id: U32

    constructor (owner: Owner, open: bool, incoming: ConnectQueue<OwnedMessage>)
      ensures this.owner == owner && this.incoming == incoming && fresh(outbound)
      ensures Value() == Endpoint(open, false, [], [], NoWrite, NoRead, Msg(Header(0, 0, 0), []))
    {
      this.owner := owner;
      this.incoming := incoming;
      outbound := new ConnectQueue<Msg>();
      this.open := open;
      connected := false;
      posted := [];
      write, read := NoWrite, NoRead;
      tempIn := Msg(Header(0, 0, 0), []);
      id := 0;
    }

    function Value(): Endpoint
      reads this, outbound
    {
      Endpoint(open, connected, posted, outbound.queue, write, read, tempIn)
    }

    method Connected() returns (r: bool)
      ensures r == IsConnected(Value())
    {
      r := open && connected;
    }

    method ConnectToClient(id: U32)
      modifies this
      ensures Value() == if owner == Server && old(open) then old(Value()).(connected := true, read := ReadingHeader([])) else old(Value())
      ensures this.id == if owner == Server && old(open) then id else old(this.id)
    {
      if owner == Server {
        if open {
          connected := true;
          this.id := id;
          ReadHeader();
        }
      }
    }

    /** The handler of `async_connect` in `connect_to_server`. */
    method OnConnectToServer(failed: bool)
      requires owner == Client
      modifies this
      ensures Value() == if failed then old(Value()).(connected := false) else old(Value()).(connected := true, read := ReadingHeader([]))
    {
      if !failed {
        connected := true;
        ReadHeader();
      } else {
        connected := false;
        Disconnect();
      }
    }

    method Disconnect()
      modifies this
      ensures Value() == Disconnected(old(Value())) && id == old(id)
    {
      var up := Connected();
      if up {
        connected := false;
        posted := posted + [CloseTask];
      }
    }

    method SendMessage(m: Msg)
      modifies this`posted
      ensures Value() == SendPosted(old(Value()), m)
    {
      var up := Connected();
      if up {
        posted := posted + [SendTask(m)];
      }
    }

    /** The context runs the handler posted first. */
    method RunTask()
      requires posted != []
      modifies this, outbound
      ensures Value() == TaskRun(old(Value()))
    {
      var task := posted[0];
      posted := posted[1..];
      match task {
        case CloseTask => open := false;
        case SendTask(m) =>
          var empty := outbound.Empty();
          var writingHeader := !empty;
          outbound.PushBack(m);
          if !writingHeader {
            WriteHeader();
          }
      }
    }

    method ReadHeader()
      modifies this`read
      ensures read == ReadingHeader([])
    {
      read := ReadingHeader([]);
    }

    method ReadBody()
      modifies this`read
      ensures read == ReadingBody(0)
    {
      read := ReadingBody(0);
    }

    method WriteHeader()
      modifies this`write
      ensures write == WritingHeader(0)
    {
      write := WritingHeader(0);
    }

    method WriteBody()
      modifies this`write
      ensures write == WritingBody(0)
    {
      write := WritingBody(0);
    }

    /** The operating system takes `count` bytes of the outstanding write. */
    method TransferOut(count: nat) returns (bytes: seq<Byte>)
      requires CanWriteSome(Value(), count)
      modifies this
      ensures Value() == SomeWritten(old(Value()), count)
      ensures bytes == old(WriteBuffer(Value())[write.done..write.done + count])
    {
      var front := outbound.queue[0];
      var buffer := if write.WritingHeader? then EncodeHeader(front.header) else front.body;
      bytes := buffer[write.done..write.done + count];
      write := write.(done := write.done + count);
    }

    /** The operating system fills in the next bytes of the outstanding read. */
    method TransferIn(chunk: seq<Byte>)
      requires CanReadSome(Value(), chunk)
      modifies this
      ensures Value() == SomeRead(old(Value()), chunk)
    {
      match read {
        case ReadingHeader(got) => read := ReadingHeader(got + chunk);
        case ReadingBody(done) =>
          tempIn := tempIn.(body := Overwritten(tempIn.body, done, chunk));
          read := ReadingBody(done + |chunk|);
      }
    }

    /** The handlers of the two reads; `failed` is the error code. */
    method OnRead(failed: bool)
      requires read != NoRead
      requires !failed ==> CanFinishRead(Value())
      modifies this, incoming
      ensures Value() == if failed then ReadFailed(old(Value())) else ReadFinished(old(Value()))
      ensures incoming.queue == old(incoming.queue) +
                if !failed && old(FinishDelivers(Value())) then [OwnedMessage(if owner == Server then this else null, tempIn)] else []
    {
      match read {
        case ReadingHeader(got) =>
          read := NoRead;
          if !failed {
            tempIn := tempIn.(header := DecodeHeader(got));
            if tempIn.header.size > 0 {
              tempIn := tempIn.(body := Resized(tempIn.body, tempIn.header.size));
              ReadBody();
            } else {
              AddToIncoming();
            }
          } else {
            Disconnect();
          }
        case ReadingBody(_) =>
          read := NoRead;
          if !failed {
            AddToIncoming();
          } else {
            Disconnect();
          }
      }
    }

    /** The handlers of the two writes. */
    method OnWrite(failed: bool)
      requires write != NoWrite
      requires !failed ==> CanFinishWrite(Value())
      modifies this, outbound
      ensures Value() == if failed then WriteFailed(old(Value())) else WriteFinished(old(Value()))
    {
      var header := write.WritingHeader?;
      write := NoWrite;
      if failed {
        Disconnect();
      } else if header && |outbound.queue[0].body| > 0 {
        WriteBody();
      } else {
        var _ := outbound.PopFront();
        var empty := outbound.Empty();
        if !empty {
          WriteHeader();
        }
      }
    }

    method AddToIncoming()
      modifies this`read, incoming
      ensures read == ReadingHeader([])
      ensures incoming.queue == old(incoming.queue) + [OwnedMessage(if owner == Server then this else null, tempIn)]
    {
      incoming.PushBack(OwnedMessage(if owner == Server then this else null, tempIn));
      ReadHeader();
    }
  }
}
