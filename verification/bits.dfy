/**
 Machine integers and bit strings.

 Unsigned integers of the program are mathematical integers here, with the width stated by the
 type (`Byte`, `U32`) or by a bound in a contract.  The bitwise operators the checksum needs are
 written out: `c >> k` is a division, `c & 0xFF` a remainder, and `^` is `XorNat`.  A `seq<bool>`
 is a vector over GF(2); `BitsOf` reads an integer as such a vector, least significant bit first.
 */
module Bits {

  type Byte = b: int | 0 <= b < 0x100
  type U32 = w: int | 0 <= w < 0x1_0000_0000

  const TWO32 := 0x1_0000_0000

  /** The exclusive or of two unsigned integers of any width. */
  function XorNat(a: nat, b: nat): nat
    decreases a + b
  {
    if a == 0 && b == 0 then 0
    else (if a % 2 != b % 2 then 1 else 0) + 2 * XorNat(a / 2, b / 2)
  }

  function Zeros(n: nat): (z: seq<bool>)
    ensures |z| == n
    ensures forall i :: 0 <= i < n ==> !z[i]
  {
    seq(n, i => false)
  }

  /** Addition over GF(2), position by position. */
  function Xor(a: seq<bool>, b: seq<bool>): (c: seq<bool>)
    requires |a| == |b|
    ensures |c| == |a|
    ensures forall i :: 0 <= i < |a| ==> c[i] == (a[i] != b[i])
  {
    seq(|a|, i requires 0 <= i < |a| => a[i] != b[i])
  }

  function Not(a: seq<bool>): (c: seq<bool>)
    ensures |c| == |a|
    ensures forall i :: 0 <= i < |a| ==> c[i] == !a[i]
  {
    seq(|a|, i requires 0 <= i < |a| => !a[i])
  }

  /** The `n` low bits of `c`, least significant first. */
  function BitsOf(c: nat, n: nat): (s: seq<bool>)
    ensures |s| == n
  {
    if n == 0 then [] else [c % 2 == 1] + BitsOf(c / 2, n - 1)
  }

  /** The integer whose binary digits, least significant first, are `s`. */
  function Value(s: seq<bool>): nat {
    if s == [] then 0 else (if s[0] then 1 else 0) + 2 * Value(s[1..])
  }

  function Pow2(n: nat): nat {
    if n == 0 then 1 else 2 * Pow2(n - 1)
  }

  lemma Pow2Values()
    ensures Pow2(8) == 0x100 && Pow2(32) == TWO32
  {
    assert Pow2(8) == 0x100;
    assert Pow2(16) == 0x1_0000;
    assert Pow2(24) == 0x100_0000;
  }

  lemma {:induction false} ValueOfBits(c: nat, n: nat)
    requires c < Pow2(n)
    ensures Value(BitsOf(c, n)) == c
  {
    if n > 0 {
      ValueOfBits(c / 2, n - 1);
      assert BitsOf(c, n)[1..] == BitsOf(c / 2, n - 1);
    }
  }

  lemma {:induction false} BitsOfValue(s: seq<bool>)
    ensures Value(s) < Pow2(|s|)
    ensures BitsOf(Value(s), |s|) == s
  {
    if s != [] {
      BitsOfValue(s[1..]);
      assert Value(s) / 2 == Value(s[1..]);
    }
  }

  lemma XorHalves(a: nat, b: nat)
    ensures XorNat(a, b) % 2 == (if a % 2 != b % 2 then 1 else 0)
    ensures XorNat(a, b) / 2 == XorNat(a / 2, b / 2)
  {
    HalfOfSum(if a % 2 != b % 2 then 1 else 0, XorNat(a / 2, b / 2));
  }

  lemma {:induction false} BitsOfXor(a: nat, b: nat, n: nat)
    ensures BitsOf(XorNat(a, b), n) == Xor(BitsOf(a, n), BitsOf(b, n))
  {
    if n > 0 {
      XorHalves(a, b);
      BitsOfXor(a / 2, b / 2, n - 1);
    }
  }

  lemma {:induction false} XorNatBound(a: nat, b: nat, n: nat)
    requires a < Pow2(n) && b < Pow2(n)
    ensures XorNat(a, b) < Pow2(n)
  {
    if n > 0 && !(a == 0 && b == 0) {
      XorNatBound(a / 2, b / 2, n - 1);
    }
  }

  lemma {:induction false} BitsOfZero(n: nat)
    ensures BitsOf(0, n) == Zeros(n)
  {
    if n > 0 { BitsOfZero(n - 1); }
  }

  /** `c >> k`, one position at a time. */
  function ShiftRight(c: nat, k: nat): nat
    decreases k
  {
    if k == 0 then c else ShiftRight(c / 2, k - 1)
  }

  lemma {:induction false} BitsOfShift(c: nat, k: nat, n: nat)
    ensures BitsOf(c, k + n) == BitsOf(c, k) + BitsOf(ShiftRight(c, k), n)
    decreases k
  {
    if k > 0 {
      BitsOfShift(c / 2, k - 1, n);
      assert (k - 1) + n == k + n - 1;
    }
  }

  lemma ShiftByte(c: nat)
    ensures ShiftRight(c, 8) == c / 0x100
  {
    assert ShiftRight(c, 8) == ShiftRight(c / 2, 7) == ShiftRight(c / 2 / 2, 6) == ShiftRight(c / 2 / 2 / 2, 5);
    var d := c / 2 / 2 / 2;
    assert ShiftRight(d, 5) == ShiftRight(d / 2, 4) == ShiftRight(d / 2 / 2, 3);
    var e := d / 2 / 2;
    assert ShiftRight(e, 3) == ShiftRight(e / 2, 2) == ShiftRight(e / 2 / 2, 1) == e / 2 / 2 / 2;
  }

  /** An integer that a shift by `k` empties has no bits from position `k` on. */
  lemma BitsOfSmall(c: nat, k: nat, n: nat)
    requires ShiftRight(c, k) == 0
    ensures BitsOf(c, k + n) == BitsOf(c, k) + Zeros(n)
  {
    BitsOfShift(c, k, n);
    BitsOfZero(n);
  }

  lemma {:induction false} ShiftTwice(c: nat, j: nat, k: nat)
    ensures ShiftRight(c, j + k) == ShiftRight(ShiftRight(c, j), k)
    decreases j
  {
    if j > 0 {
      ShiftTwice(c / 2, j - 1, k);
      assert (j - 1) + k == j + k - 1;
    }
  }

  lemma ShiftWord(c: nat)
    requires c < TWO32
    ensures ShiftRight(c, 32) == 0
  {
    ShiftTwice(c, 8, 24);
    ShiftTwice(c / 0x100, 8, 16);
    ShiftTwice(c / 0x100 / 0x100, 8, 8);
    ShiftByte(c);
    ShiftByte(c / 0x100);
    ShiftByte(c / 0x100 / 0x100);
    ShiftByte(c / 0x100 / 0x100 / 0x100);
  }

  /** `q << k`, one position at a time. */
  function ShiftLeft(q: nat, k: nat): nat {
    if k == 0 then q else 2 * ShiftLeft(q, k - 1)
  }

  /** `c & 0xFF` keeps the eight low bits. */
  lemma LowByte(c: nat)
    ensures BitsOf(c % 0x100, 8) == BitsOf(c, 8)
  {
    SameLowBits(c % 0x100, c / 0x100, 8);
    ShiftLeftByte(c / 0x100);
  }

  lemma ShiftLeftByte(q: nat)
    ensures ShiftLeft(q, 8) == 0x100 * q
  {
    assert ShiftLeft(q, 4) == 2 * ShiftLeft(q, 3) == 4 * ShiftLeft(q, 2) == 8 * ShiftLeft(q, 1) == 0x10 * q;
    assert ShiftLeft(q, 8) == 2 * ShiftLeft(q, 7) == 4 * ShiftLeft(q, 6) == 8 * ShiftLeft(q, 5);
  }

  /** What is shifted in from above does not reach the low bits. */
  lemma {:induction false} SameLowBits(r: nat, q: nat, k: nat)
    ensures BitsOf(r + ShiftLeft(q, k), k) == BitsOf(r, k)
  {
    if k > 0 {
      SameLowBits(r / 2, q, k - 1);
      HalfOfSum(r, ShiftLeft(q, k - 1));
    }
  }

  lemma HalfOfSum(r: nat, m: nat)
    ensures (r + 2 * m) / 2 == r / 2 + m && (r + 2 * m) % 2 == r % 2
  {
  }

  // ---------- algebra of bit vectors ----------

  lemma XorSelf(a: seq<bool>)
    ensures Xor(a, a) == Zeros(|a|)
  {
  }

  lemma {:induction false} XorEqual(a: seq<bool>, b: seq<bool>)
    requires |a| == |b|
    ensures Xor(a, b) == Zeros(|a|) <==> a == b
  {
    if Xor(a, b) == Zeros(|a|) {
      forall i | 0 <= i < |a| ensures a[i] == b[i] { assert !Xor(a, b)[i]; }
      assert a == b;
    }
  }
}
