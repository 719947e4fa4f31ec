/**
 What the checksum computes and what it detects.

 A polynomial over GF(2) is a `seq<bool>` of coefficients, highest degree first; this is also the
 order in which the register takes message bits.  The main results: the checksum is the remainder
 of a polynomial division (section 8 of RFC 1952 and the CRC-32 it refers to), it is affine, it
 misses exactly the errors that the generator divides, and so it detects every burst of up to 32
 bits and no longer limit holds.
 */
module Crc32Polynomial {
  import opened Bits
  import opened Crc32

  /** x^32 followed by the reflected constant read from its lowest bit. */
  function Generator(): (g: seq<bool>)
    ensures |g| == 33 && g[0]
  {
    [true] + PolynomialBits()
  }

  /** The degrees of its terms: 32, 26, 23, 22, 16, 12, 11, 10, 8, 7, 5, 4, 2, 1 and 0. */
  lemma GeneratorTerms(degree: nat)
    requires degree <= 32
    ensures Generator()[32 - degree] <==> degree in {32, 26, 23, 22, 16, 12, 11, 10, 8, 7, 5, 4, 2, 1, 0}
  {
    if degree < 32 {
      PolynomialTerms(31 - degree);
      assert Generator()[32 - degree] == PolynomialBits()[31 - degree];
    }
  }

  lemma PolynomialTerms(at: nat)
    requires at < 32
    ensures PolynomialBits()[at] <==> at in {5, 8, 9, 15, 19, 20, 21, 23, 24, 26, 27, 29, 30, 31}
  {
    if at < 8 { FirstQuarter(at); } else if at < 16 { SecondQuarter(at); }
    else if at < 24 { ThirdQuarter(at); } else { LastQuarter(at); }
  }

  lemma FirstQuarter(at: nat)
    requires at < 8
    ensures PolynomialBits()[at] <==> at == 5
  {
    PolynomialByte(0, at);
    LowestByte(at);
  }

  lemma SecondQuarter(at: nat)
    requires 8 <= at < 16
    ensures PolynomialBits()[at] <==> at in {8, 9, 15}
  {
    PolynomialByte(1, at - 8);
    SecondByte(at - 8);
  }

  lemma ThirdQuarter(at: nat)
    requires 16 <= at < 24
    ensures PolynomialBits()[at] <==> at in {19, 20, 21, 23}
  {
    PolynomialByte(2, at - 16);
    ThirdByte(at - 16);
  }

  lemma LastQuarter(at: nat)
    requires 24 <= at < 32
    ensures PolynomialBits()[at] <==> at in {24, 26, 27, 29, 30, 31}
  {
    PolynomialByte(3, at - 24);
    HighestByte(at - 24);
  }

  lemma LowestByte(i: nat)
    requires i < 8
    ensures BitsOf(0x20, 8)[i] <==> i == 5
  {
    assert BitsOf(0x20, 8) == [false, false, false, false, false, true, false, false];
  }

  lemma SecondByte(i: nat)
    requires i < 8
    ensures BitsOf(0x83, 8)[i] <==> i in {0, 1, 7}
  {
    assert BitsOf(0x83, 8) == [true, true, false, false, false, false, false, true];
  }

  lemma ThirdByte(i: nat)
    requires i < 8
    ensures BitsOf(0xB8, 8)[i] <==> i in {3, 4, 5, 7}
  {
    assert BitsOf(0xB8, 8) == [false, false, false, true, true, true, false, true];
  }

  lemma HighestByte(i: nat)
    requires i < 8
    ensures BitsOf(0xED, 8)[i] <==> i in {0, 2, 3, 5, 6, 7}
  {
    assert BitsOf(0xED, 8) == [true, false, true, true, false, true, true, true];
  }

  /** The bits of a message are those of its bytes, each lowest first. */
  lemma {:induction false} BitOfByte(bytes: seq<Byte>, k: nat, i: nat)
    requires k < |bytes| && i < 8
    ensures BytesToBits(bytes)[8 * k + i] == BitsOf(bytes[k], 8)[i]
  {
    if k > 0 { BitOfByte(bytes[1..], k - 1, i); }
  }

  lemma PolynomialByte(k: nat, i: nat)
    requires k < 4 && i < 8
    ensures PolynomialBits()[8 * k + i] == BitsOf([0x20, 0x83, 0xB8, 0xED][k], 8)[i]
  {
    LittleEndianBits(POLYNOMIAL, 4);
    PolynomialBytes();
    BitOfByte([0x20, 0x83, 0xB8, 0xED], k, i);
  }

  lemma PolynomialBytes()
    ensures LittleEndian(POLYNOMIAL, 4) == [0x20, 0x83, 0xB8, 0xED]
  {
    assert LittleEndian(0xEDB8, 2) == [0xB8, 0xED];
  }

  /** Schoolbook multiplication. */
  function Product(q: seq<bool>, g: seq<bool>): (p: seq<bool>)
    requires |g| >= 1
    ensures |p| == |q| + |g| - 1
  {
    if q == [] then Zeros(|g| - 1)
    else Xor((if q[0] then g else Zeros(|g|)) + Zeros(|q| - 1), [false] + Product(q[1..], g))
  }

  /** `dividend == q * Generator() + r` with `r` of degree below 32. */
  ghost predicate IsDivision(dividend: seq<bool>, q: seq<bool>, r: seq<bool>) {
    && |r| == 32
    && |dividend| == |q| + 32
    && dividend == Xor(Product(q, Generator()), Zeros(|q|) + r)
  }

  ghost predicate IsRemainder(dividend: seq<bool>, r: seq<bool>) {
    exists q :: IsDivision(dividend, q, r)
  }

  /** The message times x^32, with the start value added to its 32 leading coefficients. */
  function Dividend(start: Register, bits: seq<bool>): seq<bool> {
    Xor(start + Zeros(|bits|), bits + Zeros(32))
  }

  lemma DividendAt(start: Register, bits: seq<bool>, i: nat)
    requires i < |bits| + 32
    ensures Dividend(start, bits)[i] == ((i < 32 && start[i]) != (i < |bits| && bits[i]))
  {
  }

  lemma StepAt(r: Register, i: nat)
    requires i < 32
    ensures StepRegister(r)[i] == ((i < 31 && r[i + 1]) != (r[0] && PolynomialBits()[i]))
  {
  }

  /** What is subtracted from the dividend in a step of the division. */
  function Subtrahend(bit: bool, n: nat): (s: seq<bool>)
    ensures |s| == 33 + n
  {
    (if bit then Generator() else Zeros(33)) + Zeros(n)
  }

  lemma SubtrahendAt(bit: bool, n: nat, i: nat)
    requires 0 < i < 33 + n
    ensures Subtrahend(bit, n)[i] == (bit && i < 33 && PolynomialBits()[i - 1])
    ensures Subtrahend(bit, n)[0] == bit
  {
  }

  lemma DividendStepAt(start: Register, bits: seq<bool>, i: nat)
    requires bits != [] && 0 < i < |bits| + 32
    ensures Dividend(StepRegister(FlipFirst(start, bits[0])), bits[1..])[i - 1] ==
            (Dividend(start, bits)[i] != Subtrahend(start[0] != bits[0], |bits| - 1)[i])
  {
    var flipped := FlipFirst(start, bits[0]);
    DividendAt(StepRegister(flipped), bits[1..], i - 1);
    DividendAt(start, bits, i);
    SubtrahendAt(start[0] != bits[0], |bits| - 1, i);
    if i <= 32 { StepAt(flipped, i - 1); }
  }

  lemma DividendStep(start: Register, bits: seq<bool>)
    requires bits != []
    ensures Dividend(start, bits)[0] == (start[0] != bits[0])
    ensures [false] + Dividend(StepRegister(FlipFirst(start, bits[0])), bits[1..]) ==
            Xor(Dividend(start, bits), Subtrahend(start[0] != bits[0], |bits| - 1))
  {
    var left := [false] + Dividend(StepRegister(FlipFirst(start, bits[0])), bits[1..]);
    var right := Xor(Dividend(start, bits), Subtrahend(start[0] != bits[0], |bits| - 1));
    DividendAt(start, bits, 0);
    forall i | 0 <= i < |left| ensures left[i] == right[i] {
      if i > 0 { DividendStepAt(start, bits, i); } else { SubtrahendAt(start[0] != bits[0], |bits| - 1, 1); }
    }
  }

  /** The shift register performs the division: its quotient and remainder exist. */
  lemma {:induction false} RegisterDivides(start: Register, bits: seq<bool>) returns (q: seq<bool>)
    ensures IsDivision(Dividend(start, bits), q, Feed(start, bits))
    decreases |bits|
  {
    if bits == [] {
      q := [];
      EmptyDividend(start);
      EmptyProduct(Generator(), start);
    } else {
      var next := StepRegister(FlipFirst(start, bits[0]));
      var rest := RegisterDivides(next, bits[1..]);
      q := [start[0] != bits[0]] + rest;
      DividendStep(start, bits);
      DivisionStep(start, bits, q, Feed(start, bits));
    }
  }

  /** One coefficient of long division. */
  lemma DivisionStep(start: Register, bits: seq<bool>, q: seq<bool>, r: seq<bool>)
    requires bits != [] && |q| == |bits| && |r| == 32
    requires q[0] == (start[0] != bits[0])
    ensures var next := StepRegister(FlipFirst(start, bits[0]));
            IsDivision(Dividend(start, bits), q, r) <==> IsDivision(Dividend(next, bits[1..]), q[1..], r)
  {
    var next := StepRegister(FlipFirst(start, bits[0]));
    DividendStep(start, bits);
    LongDivisionStep(Dividend(start, bits), Dividend(next, bits[1..]), Generator(), q, r);
  }

  lemma LongDivisionStep(d: seq<bool>, d': seq<bool>, g: seq<bool>, q: seq<bool>, r: seq<bool>)
    requires |g| == 33 && |r| == 32 && q != [] && |d| == |q| + 32 == |d'| + 1
    requires [false] + d' == Xor(d, (if q[0] then g else Zeros(33)) + Zeros(|q| - 1))
    ensures d == Xor(Product(q, g), Zeros(|q|) + r) <==> d' == Xor(Product(q[1..], g), Zeros(|q| - 1) + r)
  {
    var top := (if q[0] then g else Zeros(33)) + Zeros(|q| - 1);
    var p' := Product(q[1..], g);
    ZeroInFront(|q|, r);
    AddBoth(d, d', top, p', Zeros(|q| - 1) + r);
  }

  lemma ZeroInFront(n: nat, r: seq<bool>)
    requires n > 0
    ensures Zeros(n) + r == [false] + (Zeros(n - 1) + r)
  {
  }

  lemma AddBoth(d: seq<bool>, d': seq<bool>, g: seq<bool>, p': seq<bool>, t': seq<bool>)
    requires |d| == |g| == |d'| + 1 == |p'| + 1 == |t'| + 1
    requires [false] + d' == Xor(d, g)
    ensures d == Xor(Xor(g, [false] + p'), [false] + t') <==> d' == Xor(p', t')
  {
    var whole := Xor(Xor(g, [false] + p'), [false] + t');
    forall i | 0 <= i < |d'|
      ensures d'[i] == (d[i + 1] != g[i + 1])
      ensures whole[i + 1] == (g[i + 1] != Xor(p', t')[i])
    {
      assert ([false] + d')[i + 1] == Xor(d, g)[i + 1];
    }
    assert ([false] + d')[0] == Xor(d, g)[0];
    if d == whole {
      assert d' == Xor(p', t');
    }
    if d' == Xor(p', t') {
      forall i | 0 <= i < |d| ensures d[i] == whole[i] {
        if i > 0 { assert d'[i - 1] == Xor(p', t')[i - 1]; }
      }
    }
  }

  lemma QuotientLead(d: seq<bool>, q: seq<bool>, r: seq<bool>)
    requires q != [] && IsDivision(d, q, r)
    ensures q[0] == d[0]
  {
    assert d[0] == Product(q, Generator())[0];
  }

  lemma EmptyProduct(g: seq<bool>, r: seq<bool>)
    requires |g| == 33 && |r| == 32
    ensures Xor(Product([], g), Zeros(0) + r) == r
  {
  }

  lemma EmptyDividend(start: Register)
    ensures Dividend(start, []) == start
  {
  }

  /** Any division of the same dividend has the register's remainder. */
  lemma {:induction false} RemainderUnique(start: Register, bits: seq<bool>, q: seq<bool>, r: seq<bool>)
    requires IsDivision(Dividend(start, bits), q, r)
    ensures r == Feed(start, bits)
    decreases |bits|
  {
    if bits == [] {
      EmptyDividend(start);
      assert q == [];
      EmptyProduct(Generator(), r);
    } else {
      QuotientLead(Dividend(start, bits), q, r);
      DivisionStep(start, bits, q, r);
      RemainderUnique(StepRegister(FlipFirst(start, bits[0])), bits[1..], q[1..], r);
    }
  }

  /** The register holds the remainder of the division, and nothing else is a remainder of it. */
  lemma FeedIsRemainder(start: Register, bits: seq<bool>, r: seq<bool>)
    ensures IsRemainder(Dividend(start, bits), r) <==> r == Feed(start, bits)
  {
    var q := RegisterDivides(start, bits);
    if IsRemainder(Dividend(start, bits), r) {
      var q' :| IsDivision(Dividend(start, bits), q', r);
      RemainderUnique(start, bits, q', r);
    }
  }

  /** The checksum is the complement of the polynomial remainder, all-ones start included. */
  lemma CrcIsPolynomialRemainder(bytes: seq<Byte>, r: Register)
    ensures IsRemainder(Dividend(Ones(), BytesToBits(bytes)), r) <==> Crc(bytes) == Value(Not(r))
  {
    FeedIsRemainder(Ones(), BytesToBits(bytes), r);
    RegisterValue(Not(r));
    RegisterValue(Not(Digest(bytes)));
    assert Not(Not(r)) == r && Not(Not(Digest(bytes))) == Digest(bytes);
  }

  lemma CrcEqualIff(a: seq<Byte>, b: seq<Byte>)
    ensures Crc(a) == Crc(b) <==> Digest(a) == Digest(b)
  {
    RegisterValue(Not(Digest(a)));
    RegisterValue(Not(Digest(b)));
    assert Not(Not(Digest(a))) == Digest(a) && Not(Not(Digest(b))) == Digest(b);
  }

  // ---------- linearity ----------

  lemma {:induction false} FeedLinear(r: Register, s: Register, a: seq<bool>, b: seq<bool>)
    requires |a| == |b|
    ensures Feed(Xor(r, s), Xor(a, b)) == Xor(Feed(r, a), Feed(s, b))
    decreases |a|
  {
    if a != [] {
      var r', s' := FlipFirst(r, a[0]), FlipFirst(s, b[0]);
      assert FlipFirst(Xor(r, s), Xor(a, b)[0]) == Xor(r', s');
      StepLinear(r', s');
      assert Xor(a, b)[1..] == Xor(a[1..], b[1..]);
      FeedLinear(StepRegister(r'), StepRegister(s'), a[1..], b[1..]);
    }
  }

  lemma XorByteBound(a: Byte, b: Byte)
    ensures XorNat(a, b) < 0x100
  {
    Pow2Values();
    XorNatBound(a, b, 8);
  }

  function XorByte(a: Byte, b: Byte): Byte {
    XorByteBound(a, b);
    XorNat(a, b)
  }

  function XorBytes(a: seq<Byte>, b: seq<Byte>): (c: seq<Byte>)
    requires |a| == |b|
    ensures |c| == |a|
  {
    if a == [] then [] else [XorByte(a[0], b[0])] + XorBytes(a[1..], b[1..])
  }

  lemma {:induction false} XorBytesBits(a: seq<Byte>, b: seq<Byte>)
    requires |a| == |b|
    ensures BytesToBits(XorBytes(a, b)) == Xor(BytesToBits(a), BytesToBits(b))
  {
    if a != [] {
      XorBytesBits(a[1..], b[1..]);
      BitsOfXor(a[0], b[0], 8);
    }
  }

  /** The checksum of a sum of three equally long messages is the sum of their checksums. */
  lemma {:induction false} CrcAffine(a: seq<Byte>, b: seq<Byte>, c: seq<Byte>)
    requires |a| == |b| == |c|
    ensures Crc(XorBytes(XorBytes(a, b), c)) == XorNat(XorNat(Crc(a), Crc(b)), Crc(c))
  {
    var ab := XorBytes(a, b);
    XorBytesBits(a, b);
    XorBytesBits(ab, c);
    var one := Ones();
    assert Xor(Xor(one, one), one) == one;
    FeedLinear(one, one, BytesToBits(a), BytesToBits(b));
    FeedLinear(Xor(one, one), one, BytesToBits(ab), BytesToBits(c));
    SumOfComplements(Digest(a), Digest(b), Digest(c));
  }

  lemma SumOfComplements(a: Register, b: Register, c: Register)
    ensures Value(Not(Xor(Xor(a, b), c))) == XorNat(XorNat(Value(Not(a)), Value(Not(b))), Value(Not(c)))
  {
    var x, y, z := Value(Not(a)), Value(Not(b)), Value(Not(c));
    RegisterValue(Not(a));
    RegisterValue(Not(b));
    RegisterValue(Not(c));
    Pow2Values();
    XorNatBound(x, y, 32);
    XorNatBound(XorNat(x, y), z, 32);
    BitsOfXor(x, y, 32);
    BitsOfXor(XorNat(x, y), z, 32);
    assert Not(Xor(Xor(a, b), c)) == Xor(Xor(Not(a), Not(b)), Not(c));
    WordBits(XorNat(XorNat(x, y), z));
  }

  // ---------- which errors are missed ----------

  lemma DigestDifference(a: seq<Byte>, b: seq<Byte>)
    requires |a| == |b|
    ensures Xor(Digest(a), Digest(b)) == Feed(Zeros(32), Xor(BytesToBits(a), BytesToBits(b)))
  {
    XorSelf(Ones());
    FeedLinear(Ones(), Ones(), BytesToBits(a), BytesToBits(b));
  }

  /** Two equally long messages collide exactly when the generator divides their difference. */
  lemma {:induction false} UndetectedIffDivisible(a: seq<Byte>, b: seq<Byte>)
    requires |a| == |b|
    ensures Crc(a) == Crc(b) <==>
            IsRemainder(Xor(BytesToBits(a), BytesToBits(b)) + Zeros(32), Zeros(32))
  {
    var e := Xor(BytesToBits(a), BytesToBits(b));
    CrcEqualIff(a, b);
    DigestDifference(a, b);
    XorEqual(Digest(a), Digest(b));
    ZeroStart(e, Zeros(32));
  }

  lemma ZeroStart(e: seq<bool>, r: Register)
    ensures IsRemainder(e + Zeros(32), r) <==> r == Feed(Zeros(32), e)
  {
    FeedIsRemainder(Zeros(32), e, r);
    assert Dividend(Zeros(32), e) == e + Zeros(32);
  }

  lemma TopBit(p: nat)
    requires p / 0x100 / 0x100 / 0x100 == 0xED
    ensures BitsOf(p, 32)[31]
  {
    TopByte(p);
    BitsOfShift(p, 24, 8);
    assert BitsOf(0xED, 8) == [true, false, true, true, false, true, true, true];
  }

  lemma TopByte(p: nat)
    ensures ShiftRight(p, 24) == p / 0x100 / 0x100 / 0x100
  {
    ShiftTwice(p, 8, 16);
    ShiftTwice(p / 0x100, 8, 8);
    ShiftByte(p);
    ShiftByte(p / 0x100);
    ShiftByte(p / 0x100 / 0x100);
  }

  /** The constant term is one, so the bit that falls out can be read back. */
  lemma TopOfStep(r: Register)
    ensures StepRegister(r)[31] == r[0]
  {
    TopBit(POLYNOMIAL);
  }

  lemma StepInjective(r: Register, s: Register)
    requires StepRegister(r) == StepRegister(s)
    ensures r == s
  {
    TopOfStep(r);
    TopOfStep(s);
    UndoStep(r, s, PolynomialBits());
  }

  lemma UndoStep(r: Register, s: Register, p: Register)
    requires r[0] == s[0]
    requires (if r[0] then Xor(r[1..] + [false], p) else r[1..] + [false]) ==
             (if s[0] then Xor(s[1..] + [false], p) else s[1..] + [false])
    ensures r == s
  {
    var r', s' := r[1..] + [false], s[1..] + [false];
    forall i | 0 <= i < 32 ensures r[i] == s[i] {
      if i > 0 {
        assert r'[i - 1] == r[i] && s'[i - 1] == s[i];
        assert Xor(r', p)[i - 1] == (r[i] != p[i - 1]) && Xor(s', p)[i - 1] == (s[i] != p[i - 1]);
      }
    }
  }

  lemma {:induction false} StepsInjective(r: Register, s: Register, n: nat)
    requires StepRegisters(r, n) == StepRegisters(s, n)
    ensures r == s
    decreases n
  {
    if n > 0 {
      var r', s' := StepRegister(r), StepRegister(s);
      StepsCons(r, n);
      StepsCons(s, n);
      StepsInjective(r', s', n - 1);
      StepInjective(r, s);
    }
  }

  /** Different registers stay different while both take the same bits. */
  lemma {:induction false} FeedInjective(r: Register, s: Register, bits: seq<bool>)
    requires Feed(r, bits) == Feed(s, bits)
    ensures r == s
    decreases |bits|
  {
    if bits != [] {
      var r', s' := FlipFirst(r, bits[0]), FlipFirst(s, bits[0]);
      FeedInjective(StepRegister(r'), StepRegister(s'), bits[1..]);
      StepInjective(r', s');
      forall i | 0 <= i < 32 ensures r[i] == s[i] { assert r'[i] == s'[i]; }
    }
  }

  /** Different strings of at most 32 bits lead one register to different registers. */
  lemma ShortInputInjective(r: Register, a: seq<bool>, b: seq<bool>)
    requires |a| == |b| <= 32
    requires Feed(r, a) == Feed(r, b)
    ensures a == b
  {
    var pad := Zeros(32 - |a|);
    FeedIsSteps(r, a);
    FeedIsSteps(r, b);
    StepsInjective(Xor(r, a + pad), Xor(r, b + pad), |a|);
    forall i | 0 <= i < |a| ensures a[i] == b[i] {
      assert Xor(r, a + pad)[i] == Xor(r, b + pad)[i];
    }
  }

  lemma {:induction false} BytesToBitsInjective(a: seq<Byte>, b: seq<Byte>)
    requires |a| == |b|
    requires BytesToBits(a) == BytesToBits(b)
    ensures a == b
  {
    if a != [] {
      Pow2Values();
      assert BitsOf(a[0], 8) == BytesToBits(a)[..8] == BytesToBits(b)[..8] == BitsOf(b[0], 8);
      assert BytesToBits(a[1..]) == BytesToBits(a)[8..];
      assert BytesToBits(b[1..]) == BytesToBits(b)[8..];
      ValueOfBits(a[0], 8);
      ValueOfBits(b[0], 8);
      BytesToBitsInjective(a[1..], b[1..]);
    }
  }

  /** An error between equal beginnings and equal endings, at most 32 bits long, is never missed. */
  lemma MiddleDetected(before: seq<bool>, s: seq<bool>, t: seq<bool>, after: seq<bool>)
    requires |s| == |t| <= 32
    requires Feed(Ones(), before + s + after) == Feed(Ones(), before + t + after)
    ensures s == t
  {
    var r := Feed(Ones(), before);
    SplitFeed(before, s, after);
    SplitFeed(before, t, after);
    FeedInjective(Feed(r, s), Feed(r, t), after);
    ShortInputInjective(r, s, t);
  }

  lemma BurstOfBits(s: seq<bool>, t: seq<bool>, start: nat)
    requires |s| == |t|
    requires forall i :: 0 <= i < |s| && !(start <= i < start + 32) ==> s[i] == t[i]
    requires Feed(Ones(), s) == Feed(Ones(), t)
    ensures s == t
  {
    var lo := if start < |s| then start else |s|;
    var hi := if start + 32 < |s| then start + 32 else |s|;
    var before, after := s[..lo], s[hi..];
    var x, y := s[lo..hi], t[lo..hi];
    assert t[..lo] == before && t[hi..] == after;
    ThreeParts(s, lo, hi);
    ThreeParts(t, lo, hi);
    MiddleDetected(before, x, y, after);
  }

  lemma ThreeParts(s: seq<bool>, lo: nat, hi: nat)
    requires lo <= hi <= |s|
    ensures s == s[..lo] + s[lo..hi] + s[hi..]
  {
  }

  /** Every error confined to 32 consecutive bits changes the checksum, at any length. */
  lemma {:induction false} BurstDetected(a: seq<Byte>, b: seq<Byte>, start: nat)
    requires |a| == |b| && a != b
    requires forall i :: 0 <= i < 8 * |a| && !(start <= i < start + 32) ==> BytesToBits(a)[i] == BytesToBits(b)[i]
    ensures Crc(a) != Crc(b)
  {
    if Crc(a) == Crc(b) {
      CrcEqualIff(a, b);
      BurstOfBits(BytesToBits(a), BytesToBits(b), start);
      BytesToBitsInjective(a, b);
      assert false;
    }
  }

  lemma SplitFeed(before: seq<bool>, middle: seq<bool>, after: seq<bool>)
    ensures Feed(Ones(), before + middle + after) == Feed(Feed(Feed(Ones(), before), middle), after)
  {
    FeedAppend(Ones(), before + middle, after);
    FeedAppend(Ones(), before, middle);
  }

  /** The five bytes whose bits are the generator followed by seven zeros. */
  const BURST_OF_33: seq<Byte> := [0x41, 0x06, 0x71, 0xDB, 0x01]

  lemma BurstOf33Bits()
    ensures BytesToBits(BURST_OF_33) == Generator() + Zeros(7)
  {
    BurstBytes();
    ShiftWord(POLYNOMIAL);
    OneAbove(0x1_DB71_0641, POLYNOMIAL, 5, 32, 7);
  }

  lemma BurstBytes()
    ensures LittleEndian(0x1_DB71_0641, 5) == BURST_OF_33
  {
    assert LittleEndian(0x1_DB71, 3) == [0x71, 0xDB, 0x01];
  }

  lemma OneAbove(c: nat, p: nat, k: nat, n: nat, m: nat)
    requires c == 2 * p + 1 && ShiftRight(p, n) == 0 && 8 * k == 1 + n + m
    ensures BytesToBits(LittleEndian(c, k)) == [true] + BitsOf(p, n) + Zeros(m)
  {
    LittleEndianBits(c, k);
    BitsOfSmall(p, n, m);
    assert BitsOf(c, 1 + (n + m)) == [true] + BitsOf(p, n + m);
  }

  /** The `k` low bytes of an integer, lowest first. */
  function LittleEndian(c: nat, k: nat): (bytes: seq<Byte>)
    ensures |bytes| == k
    decreases k
  {
    if k == 0 then [] else [c % 0x100] + LittleEndian(c / 0x100, k - 1)
  }

  lemma {:induction false} LittleEndianBits(c: nat, k: nat)
    ensures BytesToBits(LittleEndian(c, k)) == BitsOf(c, 8 * k)
    decreases k
  {
    if k > 0 {
      NextByte(c, k - 1);
      LittleEndianBits(c / 0x100, k - 1);
      assert LittleEndian(c, k)[1..] == LittleEndian(c / 0x100, k - 1);
    }
  }

  lemma NextByte(c: nat, rest: nat)
    ensures BitsOf(c, 8 + 8 * rest) == BitsOf(c % 0x100, 8) + BitsOf(c / 0x100, 8 * rest)
  {
    BitsOfShift(c, 8, 8 * rest);
    ShiftByte(c);
    LowByte(c);
  }

  /** The limit of 32 is exact: this burst of 33 bits is missed in every message, at every byte. */
  lemma {:induction false} BurstOf33Missed(before: seq<Byte>, middle: seq<Byte>, after: seq<Byte>)
    requires |middle| == 5
    ensures XorBytes(middle, BURST_OF_33) != middle
    ensures Crc(before + XorBytes(middle, BURST_OF_33) + after) == Crc(before + middle + after)
  {
    var altered := XorBytes(middle, BURST_OF_33);
    BurstOf33Bits();
    XorBytesBits(middle, BURST_OF_33);
    FirstBitFlips(BytesToBits(middle), Generator() + Zeros(7));
    GeneratorVanishes(7);
    VanishingError(Feed(Ones(), BytesToBits(before)), BytesToBits(middle), Generator() + Zeros(7));
    DigestParts(before, middle, after);
    DigestParts(before, altered, after);
  }

  lemma FirstBitFlips(a: seq<bool>, e: seq<bool>)
    requires |a| == |e| > 0 && e[0]
    ensures Xor(a, e) != a
  {
    assert Xor(a, e)[0] != a[0];
  }

  lemma VanishingError(r: Register, bits: seq<bool>, e: seq<bool>)
    requires |bits| == |e| && Feed(Zeros(32), e) == Zeros(32)
    ensures Feed(r, Xor(bits, e)) == Feed(r, bits)
  {
    FeedLinear(r, Zeros(32), bits, e);
    assert Xor(r, Zeros(32)) == r;
    assert Xor(Feed(r, bits), Zeros(32)) == Feed(r, bits);
  }

  lemma DigestParts(before: seq<Byte>, middle: seq<Byte>, after: seq<Byte>)
    ensures Digest(before + middle + after) ==
            Feed(Feed(Feed(Ones(), BytesToBits(before)), BytesToBits(middle)), BytesToBits(after))
  {
    BytesToBitsAppend(before + middle, after);
    BytesToBitsAppend(before, middle);
    SplitFeed(BytesToBits(before), BytesToBits(middle), BytesToBits(after));
  }

  lemma AfterLeadingOne(rest: seq<bool>)
    ensures Feed(Zeros(32), [true] + rest) == Feed(PolynomialBits(), rest)
  {
    var first := FlipFirst(Zeros(32), true);
    assert first[1..] + [false] == Zeros(32);
    assert Xor(Zeros(32), PolynomialBits()) == PolynomialBits();
    assert ([true] + rest)[1..] == rest;
  }

  lemma RegisterCancels(r: Register, n: nat)
    ensures Feed(r, r + Zeros(n)) == Zeros(32)
  {
    FeedAppend(r, r, Zeros(n));
    assert r + Zeros(0) == r;
    FeedIsSteps(r, r);
    XorSelf(r);
    StepsOfZero(32);
    FeedZeros(n);
  }

  /** The generator leaves remainder zero, whatever zeros follow it. */
  lemma GeneratorVanishes(n: nat)
    ensures Feed(Zeros(32), Generator() + Zeros(n)) == Zeros(32)
  {
    var p := PolynomialBits();
    assert Generator() + Zeros(n) == [true] + (p + Zeros(n));
    AfterLeadingOne(p + Zeros(n));
    RegisterCancels(p, n);
  }

  lemma StepOfZero()
    ensures StepRegister(Zeros(32)) == Zeros(32)
  {
    assert Zeros(32)[1..] + [false] == Zeros(32);
  }

  lemma {:induction false} StepsOfZero(n: nat)
    ensures StepRegisters(Zeros(32), n) == Zeros(32)
  {
    if n > 0 {
      StepOfZero();
      StepsCons(Zeros(32), n);
      StepsOfZero(n - 1);
    }
  }

  lemma {:induction false} FeedZeros(n: nat)
    ensures Feed(Zeros(32), Zeros(n)) == Zeros(32)
  {
    if n > 0 {
      assert FlipFirst(Zeros(32), false) == Zeros(32);
      assert Zeros(32)[1..] + [false] == Zeros(32);
      assert Zeros(n)[1..] == Zeros(n - 1);
      FeedZeros(n - 1);
    }
  }
}
