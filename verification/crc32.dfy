/**
 The checksum of src/change_lib/crc32.hpp.

 `Crc` is the bit-at-a-time CRC-32: a 32-bit register over GF(2) takes the bits of the bytes,
 least significant bit first.  `GenerateCrcTable` and `ComputeCrc` are the program's table-driven
 form; `ComputeCrc` is proved to return `Crc`.  Accumulators are unbounded here and are shown to
 stay below 2^32, so the width of `uint_fast32_t` does not matter.
 */
module Crc32 {
  import opened Bits

  const POLYNOMIAL: U32 := 0xEDB88320
  const ALL_ONES: U32 := 0xFFFF_FFFF

  /** The checksum register; position 0 is the least significant bit. */
  type Register = r: seq<bool> | |r| == 32 witness Zeros(32)

  function Ones(): (r: Register)
    ensures forall i :: 0 <= i < 32 ==> r[i]
  {
    Not(Zeros(32))
  }

  /** The constant, in as many bits as a register has. */
  function PolynomialBits(): Register {
    BitsOf(POLYNOMIAL, |Ones()|)
  }

  /** One shift of the register: divide by x, and reduce when a one falls out. */
  function StepRegister(r: Register): Register {
    var shifted := r[1..] + [false];
    if r[0] then Xor(shifted, PolynomialBits()) else shifted
  }

  function StepRegisters(r: Register, n: nat): Register
    decreases n
  {
    if n == 0 then r else StepRegisters(StepRegister(r), n - 1)
  }

  function FlipFirst(r: Register, bit: bool): Register {
    r[0 := r[0] != bit]
  }

  /** Feeds the bits of a message, first bit first. */
  function Feed(r: Register, bits: seq<bool>): Register
    decreases |bits|
  {
    if bits == [] then r else Feed(StepRegister(FlipFirst(r, bits[0])), bits[1..])
  }

  function BytesToBits(bytes: seq<Byte>): (bits: seq<bool>)
    ensures |bits| == 8 * |bytes|
  {
    if bytes == [] then [] else BitsOf(bytes[0], 8) + BytesToBits(bytes[1..])
  }

  /** The register after a whole message, before the final complement. */
  function Digest(bytes: seq<Byte>): Register {
    Feed(Ones(), BytesToBits(bytes))
  }

  function Crc(bytes: seq<Byte>): U32 {
    RegisterValue(Not(Digest(bytes)));
    Value(Not(Digest(bytes)))
  }

  lemma RegisterValue(r: Register)
    ensures Value(r) < TWO32
    ensures BitsOf(Value(r), 32) == r
  {
    BitsOfValue(r);
    Pow2Values();
  }

  lemma WordBits(c: nat)
    requires c < TWO32
    ensures Value(BitsOf(c, 32)) == c
  {
    Pow2Values();
    ValueOfBits(c, 32);
  }

  // ---------- the register ----------

  lemma {:induction false} FeedAppend(r: Register, a: seq<bool>, b: seq<bool>)
    ensures Feed(r, a + b) == Feed(Feed(r, a), b)
    decreases |a|
  {
    if a == [] {
      assert a + b == b;
    } else {
      assert (a + b)[1..] == a[1..] + b;
      FeedAppend(StepRegister(FlipFirst(r, a[0])), a[1..], b);
    }
  }

  lemma {:induction false} BytesToBitsAppend(a: seq<Byte>, b: seq<Byte>)
    ensures BytesToBits(a + b) == BytesToBits(a) + BytesToBits(b)
  {
    if a == [] {
      assert a + b == b;
    } else {
      assert (a + b)[1..] == a[1..] + b;
      BytesToBitsAppend(a[1..], b);
    }
  }

  lemma StepLinear(r: Register, s: Register)
    ensures StepRegister(Xor(r, s)) == Xor(StepRegister(r), StepRegister(s))
  {
  }

  lemma StepsCons(r: Register, n: nat)
    requires n > 0
    ensures StepRegisters(r, n) == StepRegisters(StepRegister(r), n - 1)
  {
  }

  lemma {:induction false} StepsLinear(r: Register, s: Register, n: nat)
    ensures StepRegisters(Xor(r, s), n) == Xor(StepRegisters(r, n), StepRegisters(s, n))
    decreases n
  {
    if n > 0 {
      var r', s' := StepRegister(r), StepRegister(s);
      StepLinear(r, s);
      StepsLinear(r', s', n - 1);
      StepsCons(Xor(r, s), n);
      StepsCons(r, n);
      StepsCons(s, n);
    }
  }

  lemma ZerosInFront(k: nat, h: seq<bool>)
    requires k > 0
    ensures !(Zeros(k) + h)[0] && (Zeros(k) + h)[1..] == Zeros(k - 1) + h
  {
  }

  lemma StepOverZero(k: nat, h: seq<bool>)
    requires k > 0 && k + |h| == 32
    ensures StepRegister(Zeros(k) + h) == Zeros(k - 1) + (h + [false])
  {
    var r: Register := Zeros(k) + h;
    ZerosInFront(k, h);
    assert (Zeros(k - 1) + h) + [false] == Zeros(k - 1) + (h + [false]);
  }

  /** Bits already in front of the register only move: no reduction happens. */
  lemma {:induction false} StepsOverZeros(k: nat, h: seq<bool>)
    requires k + |h| == 32
    ensures StepRegisters(Zeros(k) + h, k) == h + Zeros(k)
    decreases k
  {
    if k == 0 {
      assert Zeros(k) + h == h == h + Zeros(k);
    } else {
      StepOverZero(k, h);
      StepsOverZeros(k - 1, h + [false]);
      assert (h + [false]) + Zeros(k - 1) == h + Zeros(k);
    }
  }

  /** Up to 32 message bits may be added to the register at once instead of one by one. */
  lemma {:induction false} FeedIsSteps(r: Register, bits: seq<bool>)
    requires |bits| <= 32
    ensures Feed(r, bits) == StepRegisters(Xor(r, bits + Zeros(32 - |bits|)), |bits|)
    decreases |bits|
  {
    if bits == [] {
      assert Xor(r, bits + Zeros(32)) == r;
    } else {
      var first := FlipFirst(r, bits[0]);
      var rest := bits[1..];
      var all: Register := Xor(r, bits + Zeros(32 - |bits|));
      var tail: Register := [false] + rest + Zeros(32 - |bits|);
      assert all == Xor(first, tail);
      StepLinear(first, tail);
      assert StepRegister(tail) == rest + Zeros(32 - |rest|);
      FeedIsSteps(StepRegister(first), rest);
    }
  }

  // ---------- the program's arithmetic ----------

  /** One turn of the loop in `byte_checksum`. */
  function Step(checksum: nat): nat {
    XorNat(checksum / 2, if checksum % 2 == 1 then POLYNOMIAL else 0)
  }

  lemma StepBound(checksum: nat)
    requires checksum < TWO32
    ensures Step(checksum) < TWO32
  {
    Pow2Values();
    XorNatBound(checksum / 2, if checksum % 2 == 1 then POLYNOMIAL else 0, 32);
  }

  lemma HalfBits(checksum: nat)
    requires checksum < TWO32
    ensures BitsOf(checksum / 2, 32) == BitsOf(checksum, 32)[1..] + [false]
  {
    ShiftWord(checksum);
    BitsOfSmall(checksum, 32, 1);
    assert BitsOf(checksum, 33)[1..] == BitsOf(checksum / 2, 32);
  }

  lemma StepBits(checksum: nat)
    requires checksum < TWO32
    ensures BitsOf(Step(checksum), 32) == StepRegister(BitsOf(checksum, 32))
  {
    var mask := if checksum % 2 == 1 then POLYNOMIAL else 0;
    HalfBits(checksum);
    BitsOfXor(checksum / 2, mask, 32);
    BitsOfZero(32);
    var shifted := BitsOf(checksum / 2, 32);
    assert BitsOf(checksum, 32)[0] == (checksum % 2 == 1);
    assert Xor(shifted, Zeros(32)) == shifted;
  }

  ghost predicate IsTableEntry(entry: nat, index: nat) {
    entry < TWO32 && BitsOf(entry, 32) == StepRegisters(BitsOf(index, 32), 8)
  }

  lemma {:induction false} StepsSnoc(r: Register, n: nat)
    ensures StepRegisters(r, n + 1) == StepRegister(StepRegisters(r, n))
    decreases n
  {
    if n > 0 { StepsSnoc(StepRegister(r), n - 1); }
  }

  method GenerateCrcTable() returns (table: array<nat>)
    ensures fresh(table) && table.Length == 256
    ensures forall i :: 0 <= i < 256 ==> IsTableEntry(table[i], i)
  {
    table := new nat[256];
    var n := 0;
    while n < 256
      invariant 0 <= n <= 256
      invariant forall i :: 0 <= i < n ==> IsTableEntry(table[i], i)
    {
      var checksum: nat := n;
      for i := 0 to 8
        invariant checksum < TWO32
        invariant BitsOf(checksum, 32) == StepRegisters(BitsOf(n, 32), i)
        invariant forall j :: 0 <= j < n ==> IsTableEntry(table[j], j)
      {
        StepBound(checksum);
        StepBits(checksum);
        StepsSnoc(BitsOf(n, 32), i);
        checksum := Step(checksum);
      }
      table[n] := checksum;
      n := n + 1;
    }
  }

  /** Eight steps split into the part the table knows and a plain move. */
  lemma EightSteps(r: Register)
    ensures StepRegisters(r, 8) == Xor(StepRegisters(r[..8] + Zeros(24), 8), r[8..] + Zeros(8))
  {
    var low: Register := r[..8] + Zeros(24);
    var high: Register := Zeros(8) + r[8..];
    StepsOverZeros(8, r[8..]);
    assert Xor(low, high) == r;
    StepsLinear(low, high, 8);
  }

  lemma LowBits(x: nat)
    ensures BitsOf(x % 0x100, 32) == BitsOf(x, 32)[..8] + Zeros(24)
  {
    BitsOfShift(x, 8, 24);
    ByteBits(x % 0x100);
    LowByte(x);
  }

  lemma FeedByte(checksum: nat, value: Byte)
    ensures Feed(BitsOf(checksum, 32), BitsOf(value, 8)) == StepRegisters(BitsOf(XorNat(checksum, value), 32), 8)
  {
    BitsOfXor(checksum, value, 32);
    ByteBits(value);
    FeedIsSteps(BitsOf(checksum, 32), BitsOf(value, 8));
  }

  lemma UpperBitsOfXor(checksum: nat, value: Byte)
    requires checksum < TWO32
    ensures BitsOf(checksum / 0x100, 32) == BitsOf(XorNat(checksum, value), 32)[8..] + Zeros(8)
  {
    UpperBits(checksum);
    BitsOfXor(checksum, value, 32);
    ByteBits(value);
    assert BitsOf(XorNat(checksum, value), 32)[8..] == BitsOf(checksum, 32)[8..];
  }

  /** One table lookup does the work of feeding eight bits. */
  lemma TableStep(entry: nat, checksum: nat, value: Byte)
    requires checksum < TWO32
    requires IsTableEntry(entry, XorNat(checksum, value) % 0x100)
    ensures XorNat(entry, checksum / 0x100) < TWO32
    ensures BitsOf(XorNat(entry, checksum / 0x100), 32) == Feed(BitsOf(checksum, 32), BitsOf(value, 8))
  {
    var x := XorNat(checksum, value);
    Pow2Values();
    XorNatBound(entry, checksum / 0x100, 32);
    BitsOfXor(entry, checksum / 0x100, 32);
    FeedByte(checksum, value);
    EightSteps(BitsOf(x, 32));
    LowBits(x);
    UpperBitsOfXor(checksum, value);
  }

  lemma ByteBits(value: Byte)
    ensures BitsOf(value, 32) == BitsOf(value, 8) + Zeros(24)
  {
    ShiftByte(value);
    BitsOfSmall(value, 8, 24);
  }

  lemma UpperBits(checksum: nat)
    requires checksum < TWO32
    ensures BitsOf(checksum / 0x100, 32) == BitsOf(checksum, 32)[8..] + Zeros(8)
  {
    ShiftByte(checksum);
    BitsOfShift(checksum, 8, 32);
    ShiftWord(checksum);
    BitsOfSmall(checksum, 32, 8);
    assert BitsOf(checksum, 40)[8..] == BitsOf(checksum / 0x100, 32);
  }

  /** The complement of a 32-bit word is its distance from all ones. */
  lemma {:induction false} ComplementBits(c: nat, n: nat)
    requires c < Pow2(n)
    ensures BitsOf(Pow2(n) - 1 - c, n) == Not(BitsOf(c, n))
  {
    if n > 0 {
      ComplementBits(c / 2, n - 1);
      var d := Pow2(n) - 1 - c;
      assert d % 2 == 1 - c % 2 && d / 2 == Pow2(n - 1) - 1 - c / 2;
    }
  }

  lemma DigestSnoc(bytes: seq<Byte>, value: Byte)
    ensures Digest(bytes + [value]) == Feed(Digest(bytes), BitsOf(value, 8))
  {
    BytesToBitsAppend(bytes, [value]);
    assert BytesToBits([value]) == BitsOf(value, 8) + BytesToBits([]) == BitsOf(value, 8);
    FeedAppend(Ones(), BytesToBits(bytes), BitsOf(value, 8));
  }

  lemma AllOnes()
    ensures BitsOf(ALL_ONES, 32) == Ones()
  {
    Pow2Values();
    ComplementBits(0, 32);
    BitsOfZero(32);
  }

  lemma FinalComplement(checksum: nat, bytes: seq<Byte>)
    requires checksum < TWO32 && BitsOf(checksum, 32) == Digest(bytes)
    ensures ALL_ONES - checksum == Crc(bytes)
  {
    Pow2Values();
    ComplementBits(checksum, 32);
    WordBits(ALL_ONES - checksum);
  }

  /** The accumulator of the fold after `bytes`. */
  ghost predicate Accumulated(checksum: nat, bytes: seq<Byte>) {
    checksum < TWO32 && BitsOf(checksum, 32) == Digest(bytes)
  }

  lemma AccumulateOne(entry: nat, checksum: nat, bytes: seq<Byte>, value: Byte)
    requires Accumulated(checksum, bytes)
    requires IsTableEntry(entry, XorNat(checksum, value) % 0x100)
    ensures Accumulated(XorNat(entry, checksum / 0x100), bytes + [value])
  {
    TableStep(entry, checksum, value);
    DigestSnoc(bytes, value);
  }

  lemma AccumulatorStarts()
    ensures Accumulated(ALL_ONES, [])
  {
    AllOnes();
  }

  lemma AccumulateNext(entry: nat, checksum: nat, bytes: seq<Byte>, i: nat)
    requires i < |bytes| && Accumulated(checksum, bytes[..i])
    requires IsTableEntry(entry, XorNat(checksum, bytes[i]) % 0x100)
    ensures Accumulated(XorNat(entry, checksum / 0x100), bytes[..i + 1])
  {
    AccumulateOne(entry, checksum, bytes[..i], bytes[i]);
    assert bytes[..i + 1] == bytes[..i] + [bytes[i]];
  }

  /** `crc`: builds the table, folds it over the bytes, and complements the result. */
  method ComputeCrc(bytes: seq<Byte>) returns (r: nat)
    ensures r < TWO32
    ensures r == Crc(bytes)
  {
    var table := GenerateCrcTable();
    var checksum: nat := ALL_ONES;
    AccumulatorStarts();
    for i := 0 to |bytes|
      invariant Accumulated(checksum, bytes[..i])
      invariant forall j :: 0 <= j < 256 ==> IsTableEntry(table[j], j)
    {
      var index := XorNat(checksum, bytes[i]) % 0x100;
      var entry := table[index];
      AccumulateNext(entry, checksum, bytes, i);
      checksum := XorNat(entry, checksum / 0x100);
    }
    assert bytes[..|bytes|] == bytes;
    FinalComplement(checksum, bytes);
    r := ALL_ONES - checksum;
  }
}
