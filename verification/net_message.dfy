/**
 Messages of src/change_lib/net/net_message.hpp.

 A `Msg` is the value of a message: its 12-byte header and its body.  The time stamp is left out;
 it is never sent and never read here.  `Message` is the object the program updates in place.
 A value pushed or popped is the sequence of its `sizeof` bytes.
 */
module NetMessage {
  import opened Bits
  import opened Crc32
  import Crc32Polynomial

  datatype Header = Header(id: U32, size: U32, hash: U32)

  datatype Msg = Msg(header: Header, body: seq<Byte>)

  const HEADER_SIZE := 12

  predicate Validates(m: Msg) {
    Crc(m.body) == m.header.hash
  }

  /** The header describes the body: what the framing and the check at the receiver rely on. */
  predicate Sealed(m: Msg) {
    m.header.size == |m.body| % TWO32 && Validates(m)
  }

  function Finalized(m: Msg): Msg {
    m.(header := Header(m.header.id, |m.body| % TWO32, Crc(m.body)))
  }

  function Pushed(m: Msg, data: seq<Byte>): Msg {
    Finalized(m.(body := m.body + data))
  }

  /** The program reads below the start of the body when it is valid but too short. */
  predicate CanPop(m: Msg, width: nat) {
    Validates(m) ==> width <= |m.body|
  }

  function Popped(m: Msg, width: nat): Msg
    requires CanPop(m, width)
  {
    if Validates(m) then
      var rest := m.body[..|m.body| - width];
      Msg(m.header.(size := |rest| % TWO32), rest)
    else m
  }

  /** What `>>` leaves in the variable it reads into; an invalid message leaves it alone. */
  function PoppedData(m: Msg, width: nat, data: seq<Byte>): seq<Byte>
    requires CanPop(m, width)
  {
    if Validates(m) then m.body[|m.body| - width..] else data
  }

  class Message {
    var header: Header
    var body: seq<Byte>

    function Value(): Msg
      reads this
    {
      Msg(header, body)
    }

    constructor (id: U32)
      ensures Value() == Msg(Header(id, 0, 0), [])
    {
      header := Header(id, 0, 0);
      body := [];
    }

    method Finalize()
      modifies this
      ensures Value() == Finalized(old(Value()))
      ensures Sealed(Value()) && body == old(body) && header.id == old(header.id)
    {
      var hash := ComputeCrc(body);
      header := header.(hash := hash);
      header := header.(size := |body| % TWO32);
    }

    method Validate() returns (ok: bool)
      ensures ok == Validates(Value())
    {
      var hash := ComputeCrc(body);
      ok := hash == header.hash;
    }

    /** `operator<<` */
    method Push(data: seq<Byte>)
      modifies this
      ensures Value() == Pushed(old(Value()), data)
      ensures Sealed(Value()) && body == old(body) + data && header.id == old(header.id)
    {
      body := body + data;
      header := header.(size := |body| % TWO32);
      Finalize();
    }

    /** `operator>>` into a variable of `|data|` bytes */
    method Pop(data: seq<Byte>) returns (read: seq<Byte>)
      requires CanPop(Value(), |data|)
      modifies this
      ensures Value() == Popped(old(Value()), |data|)
      ensures read == PoppedData(old(Value()), |data|, data)
      ensures Validates(old(Value())) ==> old(body) == body + read && |read| == |data|
    {
      read := data;
      var valid := Validate();
      if valid {
        var bodySize := |body| - |data|;
        read := body[bodySize..];
        body := body[..bodySize];
        header := header.(size := |body| % TWO32);
      }
    }
  }

  /** On an invalid message nothing is popped: neither the message nor the variable changes. */
  lemma InvalidPop(m: Msg, width: nat, data: seq<Byte>)
    requires Crc(m.body) != m.header.hash
    ensures CanPop(m, width) && Popped(m, width) == m && PoppedData(m, width, data) == data
  {
  }

  /** On a valid one the last bytes are taken off the body, into the variable. */
  lemma ValidPop(m: Msg, rest: seq<Byte>, last: seq<Byte>, data: seq<Byte>)
    requires Crc(m.body) == m.header.hash && m.body == rest + last
    ensures CanPop(m, |last|) && PoppedData(m, |last|, data) == last
    ensures Popped(m, |last|) == Msg(Header(m.header.id, |rest| % TWO32, m.header.hash), rest)
  {
    assert m.body[..|rest|] == rest && m.body[|rest|..] == last;
  }

  // ---------- a message as a stack ----------

  function PushAll(m: Msg, values: seq<seq<Byte>>): Msg
    decreases |values|
  {
    if values == [] then m else PushAll(Pushed(m, values[0]), values[1..])
  }

  function Flatten(values: seq<seq<Byte>>): seq<Byte> {
    if values == [] then [] else values[0] + Flatten(values[1..])
  }

  /** After any pushes the header fits the body, and the body is all the values in order. */
  lemma {:induction false} PushesSeal(m: Msg, values: seq<seq<Byte>>)
    requires values != []
    ensures Sealed(PushAll(m, values))
    ensures PushAll(m, values).body == m.body + Flatten(values)
    ensures PushAll(m, values).header.id == m.header.id
    decreases |values|
  {
    var first, rest := Pushed(m, values[0]), values[1..];
    PushSeals(m, values[0]);
    if rest == [] {
      assert PushAll(first, rest) == first && Flatten(rest) == [];
    } else {
      PushesSeal(first, rest);
    }
    assert (m.body + values[0]) + Flatten(rest) == m.body + (values[0] + Flatten(rest));
  }

  lemma PushSeals(m: Msg, data: seq<Byte>)
    ensures Sealed(Pushed(m, data)) && Pushed(m, data).body == m.body + data && Pushed(m, data).header.id == m.header.id
  {
  }

  lemma {:induction false} PushAllSnoc(m: Msg, values: seq<seq<Byte>>, last: seq<Byte>)
    ensures PushAll(m, values + [last]) == Pushed(PushAll(m, values), last)
    decreases |values|
  {
    if values == [] {
      assert PushAll(m, [] + [last]) == PushAll(Pushed(m, last), []);
    } else {
      assert (values + [last])[1..] == values[1..] + [last];
      PushAllSnoc(Pushed(m, values[0]), values[1..], last);
    }
  }

  /** One pop of matching width undoes the last push, except that the old hash stays. */
  lemma {:induction false} PopUndoesPush(m: Msg, values: seq<seq<Byte>>, last: seq<Byte>, data: seq<Byte>)
    requires |data| == |last|
    ensures var before := PushAll(m, values);
            var after := PushAll(m, values + [last]);
            && CanPop(after, |last|)
            && PoppedData(after, |last|, data) == last
            && Popped(after, |last|).body == before.body
            && Popped(after, |last|).header == Header(m.header.id, |before.body| % TWO32, Crc(before.body + last))
  {
    var before := PushAll(m, values);
    PushAllSnoc(m, values, last);
    PushesSeal(m, values + [last]);
    var after := PushAll(m, values + [last]);
    assert after.body == before.body + last;
    assert after.body[..|before.body|] == before.body && after.body[|before.body|..] == last;
  }

  /** A second pop takes effect exactly when the shorter body happens to have the old checksum. */
  lemma SecondPop(m: Msg, last: seq<Byte>, width: nat)
    requires 1 <= width <= |m.body|
    ensures var once := Popped(Pushed(m, last), |last|);
            && CanPop(once, width)
            && (Popped(once, width) != once <==> Crc(m.body) == Crc(m.body + last))
            && (Popped(once, width) != once ==> Popped(once, width).body == m.body[..|m.body| - width])
  {
    var pushed := Pushed(m, last);
    assert pushed.body[..|m.body|] == m.body;
    var once := Popped(pushed, |last|);
    assert once == Msg(Header(m.header.id, |m.body| % TWO32, Crc(m.body + last)), m.body);
  }

  /** Among values of one width up to four bytes at most one lets the second pop take effect. */
  lemma SecondPopRarelyWorks(m: Msg, x: seq<Byte>, y: seq<Byte>, width: nat)
    requires |x| == |y| <= 4 && x != y && 1 <= width <= |m.body|
    ensures var afterX, afterY := Popped(Pushed(m, x), |x|), Popped(Pushed(m, y), |y|);
            && CanPop(afterX, width) && CanPop(afterY, width)
            && (Popped(afterX, width) == afterX || Popped(afterY, width) == afterY)
  {
    SecondPop(m, x, width);
    SecondPop(m, y, width);
    if Crc(m.body + x) == Crc(m.body + y) {
      Crc32Polynomial.CrcEqualIff(m.body + x, m.body + y);
      BytesToBitsAppend(m.body, x);
      BytesToBitsAppend(m.body, y);
      FeedAppend(Ones(), BytesToBits(m.body), BytesToBits(x));
      FeedAppend(Ones(), BytesToBits(m.body), BytesToBits(y));
      Crc32Polynomial.ShortInputInjective(Digest(m.body), BytesToBits(x), BytesToBits(y));
      Crc32Polynomial.BytesToBitsInjective(x, y);
    }
  }

  // ---------- what the check at the receiver catches ----------

  /** A sealed message whose body is altered within 32 consecutive bits no longer validates. */
  lemma AlteredBodyRejected(m: Msg, body: seq<Byte>, start: nat)
    requires Sealed(m) && |body| == |m.body| && body != m.body
    requires forall i :: 0 <= i < 8 * |body| && !(start <= i < start + 32) ==> BytesToBits(m.body)[i] == BytesToBits(body)[i]
    ensures !Validates(m.(body := body))
  {
    Crc32Polynomial.BurstDetected(m.body, body, start);
  }

  /** Exactly the alterations that the generator divides get through. */
  lemma AlteredBodyAccepted(m: Msg, body: seq<Byte>)
    requires Sealed(m) && |body| == |m.body|
    ensures Validates(m.(body := body)) <==>
            Crc32Polynomial.IsRemainder(Xor(BytesToBits(m.body), BytesToBits(body)) + Zeros(32), Zeros(32))
  {
    Crc32Polynomial.UndetectedIffDivisible(m.body, body);
  }

  // ---------- the header on the wire ----------

  function EncodeWord(w: U32): (bytes: seq<Byte>)
    ensures |bytes| == 4
  {
    [w % 0x100, w / 0x100 % 0x100, w / 0x100 / 0x100 % 0x100, w / 0x100 / 0x100 / 0x100]
  }

  function DecodeWord(bytes: seq<Byte>): U32
    requires |bytes| == 4
  {
    var b0, b1, b2, b3 := bytes[0] as int, bytes[1] as int, bytes[2] as int, bytes[3] as int;
    b0 + 0x100 * (b1 + 0x100 * (b2 + 0x100 * b3))
  }

  lemma WordRoundTrip(w: U32)
    ensures DecodeWord(EncodeWord(w)) == w
  {
  }

  /** The 12 bytes of a header in memory: three little-endian words without padding. */
  function EncodeHeader(h: Header): (bytes: seq<Byte>)
    ensures |bytes| == HEADER_SIZE
  {
    EncodeWord(h.id) + EncodeWord(h.size) + EncodeWord(h.hash)
  }

  function DecodeHeader(bytes: seq<Byte>): Header
    requires |bytes| == HEADER_SIZE
  {
    Header(DecodeWord(bytes[..4]), DecodeWord(bytes[4..8]), DecodeWord(bytes[8..]))
  }

  lemma HeaderRoundTrip(h: Header)
    ensures DecodeHeader(EncodeHeader(h)) == h
  {
    var bytes := EncodeHeader(h);
    assert bytes[..4] == EncodeWord(h.id) && bytes[4..8] == EncodeWord(h.size) && bytes[8..] == EncodeWord(h.hash);
    WordRoundTrip(h.id);
    WordRoundTrip(h.size);
    WordRoundTrip(h.hash);
  }

  /** On the wire a word is its 32 bits, least significant first. */
  lemma WordOnTheWire(w: U32)
    ensures BytesToBits(EncodeWord(w)) == BitsOf(w, 32)
  {
    Crc32Polynomial.LittleEndianBits(w, 4);
    WordBytes(w);
  }

  lemma WordBytes(w: U32)
    ensures EncodeWord(w) == Crc32Polynomial.LittleEndian(w, 4)
  {
    var w1, w2 := w / 0x100, w / 0x100 / 0x100;
    assert Crc32Polynomial.LittleEndian(w2, 2) == [w2 % 0x100, w2 / 0x100 % 0x100];
    assert Crc32Polynomial.LittleEndian(w1, 3) == [w1 % 0x100] + Crc32Polynomial.LittleEndian(w2, 2);
    assert Crc32Polynomial.LittleEndian(w, 4) == [w % 0x100] + Crc32Polynomial.LittleEndian(w1, 3);
  }

  /** A header is the bits of its id, its size and its hash, in this order. */
  lemma HeaderOnTheWire(h: Header)
    ensures BytesToBits(EncodeHeader(h)) == BitsOf(h.id, 32) + BitsOf(h.size, 32) + BitsOf(h.hash, 32)
  {
    WordOnTheWire(h.id);
    WordOnTheWire(h.size);
    WordOnTheWire(h.hash);
    BytesToBitsAppend(EncodeWord(h.id) + EncodeWord(h.size), EncodeWord(h.hash));
    BytesToBitsAppend(EncodeWord(h.id), EncodeWord(h.size));
  }
}
