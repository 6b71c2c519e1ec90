/** The reflected CRC-32 of src/util/crc32.h (polynomial 0xEDB88320, section 8 of RFC 1952) as arithmetic on GF(2). */
module Crc32 {
  import opened Words
  import opened Gf2

  const POLY: uint32 := 0xEDB88320
  const ONES: uint32 := 0xFFFF_FFFF

  lemma Fits(a: nat, b: nat)
    ensures a < WORD && b < WORD ==> Xor(a, b) < WORD
    ensures WORD / 2 <= a < WORD && WORD / 2 <= b < WORD ==> Xor(a, b) < WORD / 2
  {
    Powers();
    XorBound(a, b, 32);
    XorBound(a, b, 31);
  }

  lemma Powers()
    ensures Pow2(8) == 0x100 && Pow2(31) == WORD / 2 && Pow2(32) == WORD
  {
    assert Pow2(4) == 16;
    assert Pow2(8) == 0x100;
    assert Pow2(12) == 0x1000;
    assert Pow2(16) == 0x1_0000;
    assert Pow2(20) == 0x10_0000;
    assert Pow2(24) == 0x100_0000;
    assert Pow2(28) == 0x1000_0000;
  }

  /** The polynomial when the low bit is set, else nothing. */
  function Mask(c: nat): (m: uint32) {
    if Odd(c) then POLY else 0
  }

  /** One shift of the register; the polynomial is masked in when the low bit is set. */
  function Bit(c: uint32): (r: uint32) {
    Mix(c / 2, Mask(c))
  }

  function Bits(c: uint32, n: nat): (r: uint32)
    decreases c, n
  {
    if n == 0 then c else Bit(Bits(c, n - 1))
  }

  function Mix(c: uint32, d: uint32): (r: uint32) {
    Fits(c, d);
    Xor(c, d)
  }

  function ByteStep(c: uint32, b: uint8): (r: uint32) {
    Bits(Mix(c, b), 8)
  }

  /** The register after a run of bytes. */
  function Update(c: uint32, data: Bytes): (r: uint32)
    decreases |data|
  {
    if data == [] then c else ByteStep(Update(c, data[..|data| - 1]), data[|data| - 1])
  }

  /** crc32_update, with its two loops. */
  method Crc32Update(crc: uint32, data: Bytes) returns (r: uint32)
    ensures r == Update(crc, data)
  {
    r := crc;
    for i := 0 to |data|
      invariant r == Update(crc, data[..i])
    {
      r := Mix(r, data[i]);
      ghost var start := r;
      for j := 0 to 8
        invariant r == Bits(start, j)
      {
        r := Mix(r / 2, Mask(r));
      }
      assert data[..i + 1][..|data[..i + 1]| - 1] == data[..i];
    }
    assert data[..|data|] == data;
  }

  /** The register of a concatenation folds over the parts. */
  lemma {:induction false} UpdateConcat(c: uint32, a: Bytes, b: Bytes)
    ensures Update(c, a + b) == Update(Update(c, a), b)
    decreases |b|
  {
    if b == [] {
      assert a + b == a;
    } else {
      assert (a + b)[..|a + b| - 1] == a + b[..|b| - 1];
      UpdateConcat(c, a, b[..|b| - 1]);
    }
  }

  // ---------------------------------------------------------------- linearity

  lemma MaskTable(p: nat, i: bool, j: bool)
    ensures Xor(if i then p else 0, if j then p else 0) == if i != j then p else 0
  {
    XorSelf(p);
    XorZero(p);
  }

  lemma MaskLinear(c: uint32, d: uint32)
    ensures Mask(Xor(c, d)) == Xor(Mask(c), Mask(d))
  {
    XorHalf(c, d);
    MaskTable(POLY, Odd(c), Odd(d));
  }

  /** The register step is linear over GF(2). */
  lemma BitLinear(c: uint32, d: uint32)
    ensures Bit(Mix(c, d)) == Mix(Bit(c), Bit(d))
  {
    assert Xor(c, d) / 2 == Xor(c / 2, d / 2) by { XorHalf(c, d); }
    MaskLinear(c, d);
    XorExchange(c / 2, Mask(c), d / 2, Mask(d));
  }

  lemma {:induction false} BitsLinear(c: uint32, d: uint32, n: nat)
    ensures Bits(Mix(c, d), n) == Mix(Bits(c, n), Bits(d, n))
    decreases n
  {
    if n > 0 {
      BitsLinear(c, d, n - 1);
      BitLinear(Bits(c, n - 1), Bits(d, n - 1));
    }
  }

  // ---------------------------------------------------------------- the byte step is a bijection

  lemma BitKernel(c: uint32)
    requires Bit(c) == 0
    ensures c == 0
  {
    XorZeroIff(c / 2, Mask(c));
  }

  lemma {:induction false} BitsKernel(c: uint32, n: nat)
    requires Bits(c, n) == 0
    ensures c == 0
    decreases n
  {
    if n > 0 {
      BitKernel(Bits(c, n - 1));
      BitsKernel(c, n - 1);
    }
  }

  lemma BitsInjective(c: uint32, d: uint32, n: nat)
    requires Bits(c, n) == Bits(d, n)
    ensures c == d
  {
    BitsLinear(c, d, n);
    XorSelf(Bits(c, n));
    BitsKernel(Mix(c, d), n);
    XorZeroIff(c, d);
  }

  /** A register value from which one step reaches `t`. */
  function UnBit(t: uint32): (c: uint32) {
    Fits(t, POLY);
    if t < WORD / 2 then 2 * t else 2 * Mix(t, POLY) + 1
  }

  lemma BitOnto(t: uint32)
    ensures Bit(UnBit(t)) == t
  {
    if t < WORD / 2 {
      XorZero(t);
    } else {
      assert UnBit(t) / 2 == Mix(t, POLY) && Mask(UnBit(t)) == POLY;
      XorCancel(t, POLY);
    }
  }

  function UnBits(t: uint32, n: nat): (c: uint32)
    decreases n
  {
    if n == 0 then t else UnBits(UnBit(t), n - 1)
  }

  lemma {:induction false} BitsOnto(t: uint32, n: nat)
    ensures Bits(UnBits(t, n), n) == t
    decreases n
  {
    if n > 0 {
      BitsOnto(UnBit(t), n - 1);
      BitOnto(t);
    }
  }

  /** For every byte, the step is one-to-one and onto on 32-bit states. */
  lemma ByteStepBijection(b: uint8, t: uint32)
    ensures ByteStep(Mix(UnBits(t, 8), b), b) == t
    ensures forall c: uint32, d: uint32 :: ByteStep(c, b) == ByteStep(d, b) ==> c == d
  {
    XorCancel(UnBits(t, 8), b);
    BitsOnto(t, 8);
    forall c: uint32, d: uint32 | ByteStep(c, b) == ByteStep(d, b)
      ensures c == d
    {
      BitsInjective(Mix(c, b), Mix(d, b), 8);
      XorCancel(c, b);
      XorCancel(d, b);
    }
  }

  /** A difference in the register survives any common continuation. */
  lemma {:induction false} DifferenceSurvives(c: uint32, d: uint32, data: Bytes)
    requires c != d
    ensures Update(c, data) != Update(d, data)
    decreases |data|
  {
    if data != [] {
      DifferenceSurvives(c, d, data[..|data| - 1]);
      ByteStepBijection(data[|data| - 1], 0);
    }
  }

  // ---------------------------------------------------------------- four bytes are one 32-bit word

  /** A word whose low n bits are clear just moves down. */
  lemma {:induction false} EvenShift(h: uint32, n: nat)
    requires Pow2(n) * h < WORD
    ensures Bits(Pow2(n) * h, n) == h
    decreases n
  {
    if n > 0 {
      var k := Pow2(n - 1) * h;
      assert Pow2(n) * h == 2 * k;
      XorZero(k);
      BitsFirst(2 * k, n);
      EvenShift(h, n - 1);
    }
  }

  /** The first of n steps can be taken apart instead of the last. */
  lemma {:induction false} BitsFirst(c: uint32, n: nat)
    requires n > 0
    ensures Bits(c, n) == Bits(Bit(c), n - 1)
    decreases n
  {
    if n > 1 { BitsFirst(c, n - 1); }
  }

  lemma {:induction false} BitsAdd(c: uint32, m: nat, n: nat)
    ensures Bits(c, m + n) == Bits(Bits(c, m), n)
    decreases n
  {
    if n > 0 { BitsAdd(c, m, n - 1); }
  }

  lemma SplitWord(s: uint32, b: uint8, h: uint32)
    requires 0x100 * h < WORD
    ensures b + 0x100 * h < WORD
    ensures Mix(s, b + 0x100 * h) == Mix(Mix(s, b), 0x100 * h)
  {
    Powers();
    XorDisjoint(b, h, 8);
    XorAssoc(s, b, 0x100 * h);
  }

  /** Feeding the low byte of a word is feeding the word, as far as eight steps go. */
  lemma PeelByte(s: uint32, b: uint8, h: uint32)
    requires 0x100 * h < WORD
    ensures b + 0x100 * h < WORD
    ensures Bits(Mix(s, b + 0x100 * h), 8) == Mix(ByteStep(s, b), h)
  {
    SplitWord(s, b, h);
    BitsLinear(Mix(s, b), 0x100 * h, 8);
    assert Bits(0x100 * h, 8) == h by {
      Powers();
      EvenShift(h, 8);
    }
  }

  /** Four bytes as one word: 32 register steps. */
  function FourSteps(x: uint32): (r: uint32) {
    Bits(x, 32)
  }

  lemma FourStepsSplit(x: uint32)
    ensures FourSteps(x) == Bits(Bits(Bits(Bits(x, 8), 8), 8), 8)
  {
    BitsAdd(x, 8, 24);
    BitsAdd(Bits(x, 8), 8, 16);
    BitsAdd(Bits(Bits(x, 8), 8), 8, 8);
  }

  /** The little-endian value of four bytes. */
  function Word4(b0: uint8, b1: uint8, b2: uint8, b3: uint8): (w: uint32) {
    b0 + 0x100 * (b1 + 0x100 * (b2 + 0x100 * b3))
  }

  /** Feeding four bytes is feeding the word they form. */
  lemma BytesAsWord(s: uint32, b0: uint8, b1: uint8, b2: uint8, b3: uint8)
    ensures ByteStep(ByteStep(ByteStep(ByteStep(s, b0), b1), b2), b3) == FourSteps(Mix(s, Word4(b0, b1, b2, b3)))
  {
    var s1 := ByteStep(s, b0);
    var s2 := ByteStep(s1, b1);
    var s3 := ByteStep(s2, b2);
    FourStepsSplit(Mix(s, Word4(b0, b1, b2, b3)));
    PeelByte(s, b0, b1 + 0x100 * (b2 + 0x100 * b3));
    PeelByte(s1, b1, b2 + 0x100 * b3);
    PeelByte(s2, b2, b3);
  }

  lemma UpdateFour(s: uint32, b: Bytes)
    requires |b| == 4
    ensures Update(s, b) == ByteStep(ByteStep(ByteStep(ByteStep(s, b[0]), b[1]), b[2]), b[3])
  {
    assert b[..3][..2] == b[..2] && b[..2][..1] == b[..1] && b[..1][..0] == [];
    assert Update(s, b[..1]) == ByteStep(Update(s, []), b[0]);
    assert Update(s, b[..2]) == ByteStep(Update(s, b[..1]), b[1]);
    assert Update(s, b[..3]) == ByteStep(Update(s, b[..2]), b[2]);
  }

  lemma MixInjective(s: uint32, v: uint32, w: uint32)
    requires Mix(s, v) == Mix(s, w)
    ensures v == w
  {
    XorComm(s, v);
    XorComm(s, w);
    XorCancel(v, s);
    XorCancel(w, s);
  }

  lemma FourStepsInjective(x: uint32, y: uint32)
    requires FourSteps(x) == FourSteps(y)
    ensures x == y
  {
    BitsInjective(x, y, 32);
  }

  function WordOf(b: Bytes): (w: uint32)
    requires |b| == 4
  {
    Word4(b[0], b[1], b[2], b[3])
  }

  lemma LowByteUnique(b: uint8, h: nat, c: uint8, i: nat)
    requires b + 0x100 * h == c + 0x100 * i
    ensures b == c && h == i
  {
  }

  lemma WordInjective(a: Bytes, b: Bytes)
    requires |a| == |b| == 4 && WordOf(a) == WordOf(b)
    ensures a == b
  {
    var a1: int, a2: int, a3: int, b1: int, b2: int, b3: int := a[1], a[2], a[3], b[1], b[2], b[3];
    LowByteUnique(a[0], a1 + 0x100 * (a2 + 0x100 * a3), b[0], b1 + 0x100 * (b2 + 0x100 * b3));
    LowByteUnique(a[1], a2 + 0x100 * a3, b[1], b2 + 0x100 * b3);
    LowByteUnique(a[2], a3, b[2], b3);
  }

  lemma UpdateWord(s: uint32, b: Bytes)
    requires |b| == 4
    ensures Update(s, b) == FourSteps(Mix(s, WordOf(b)))
  {
    UpdateFour(s, b);
    BytesAsWord(s, b[0], b[1], b[2], b[3]);
  }

  /** Four different bytes always leave a different register. */
  lemma BurstChangesRegister(s: uint32, a: Bytes, b: Bytes)
    requires |a| == |b| == 4 && a != b
    ensures Update(s, a) != Update(s, b)
  {
    UpdateWord(s, a);
    UpdateWord(s, b);
    if Update(s, a) == Update(s, b) {
      FourStepsInjective(Mix(s, WordOf(a)), Mix(s, WordOf(b)));
      MixInjective(s, WordOf(a), WordOf(b));
      WordInjective(a, b);
    }
  }

  /** The two runs agree except somewhere in four consecutive positions. */
  predicate DifferInWindow(a: Bytes, b: Bytes, k: nat) {
    |a| == |b| && a != b && k + 4 <= |a| && a[..k] == b[..k] && a[k + 4..] == b[k + 4..]
  }

  /** Error detection: any change confined to four consecutive bytes changes the CRC. */
  lemma WindowDetected(s: uint32, a: Bytes, b: Bytes, k: nat)
    requires DifferInWindow(a, b, k)
    ensures Update(s, a) != Update(s, b)
  {
    var wa, wb, tail := a[k..k + 4], b[k..k + 4], a[k + 4..];
    assert a == a[..k] + (wa + tail) && b == b[..k] + (wb + tail);
    var p := Update(s, a[..k]);
    UpdateConcat(s, a[..k], wa + tail);
    UpdateConcat(s, a[..k], wb + tail);
    UpdateConcat(p, wa, tail);
    UpdateConcat(p, wb, tail);
    BurstChangesRegister(p, wa, wb);
    DifferenceSurvives(Update(p, wa), Update(p, wb), tail);
  }

  /** Four chosen bytes take any register value to any other. */
  function Steering(s: uint32, t: uint32): (b: Bytes)
    ensures |b| == 4
  {
    var w := Mix(s, UnBits(t, 32));
    [w % 0x100, w / 0x100 % 0x100, w / 0x1_0000 % 0x100, w / 0x100_0000]
  }

  lemma WordOfBytes(w: uint32)
    ensures WordOf([w % 0x100, w / 0x100 % 0x100, w / 0x1_0000 % 0x100, w / 0x100_0000]) == w
  {
    var h := w / 0x100;
    var g := h / 0x100;
    assert w / 0x1_0000 == g && w / 0x100_0000 == g / 0x100;
  }

  lemma SteeringReaches(s: uint32, t: uint32)
    ensures Update(s, Steering(s, t)) == t
  {
    var x := UnBits(t, 32);
    var w := Mix(s, x);
    WordOfBytes(w);
    UpdateWord(s, Steering(s, t));
    XorComm(s, x);
    XorCancel(x, s);
    XorComm(s, w);
    BitsOnto(t, 32);
  }

  // ---------------------------------------------------------------- against the standard

  /**
    The polynomial of ISO 3309 and section 8 of RFC 1952, the term x^k in bit 31 - k:
    x^32 + x^26 + x^23 + x^22 + x^16 + x^12 + x^11 + x^10 + x^8 + x^7 + x^5 + x^4 + x^2 + x + 1.
  */
  lemma StandardPolynomial()
    ensures POLY == Pow2(5) + Pow2(8) + Pow2(9) + Pow2(15) + Pow2(19) + Pow2(20) + Pow2(21) + Pow2(23) + Pow2(24) +
                    Pow2(26) + Pow2(27) + Pow2(29) + Pow2(30) + Pow2(31)
  {
    Powers();
    assert Pow2(5) == 32 && Pow2(9) == 2 * Pow2(8) && Pow2(15) == 0x80 * Pow2(8) && Pow2(19) == 0x10 * Pow2(15);
    assert Pow2(20) == 2 * Pow2(19) && Pow2(21) == 2 * Pow2(20) && Pow2(23) == 4 * Pow2(21) && Pow2(24) == 2 * Pow2(23);
    assert Pow2(26) == 4 * Pow2(24) && Pow2(27) == 2 * Pow2(26) && Pow2(29) == 4 * Pow2(27) && Pow2(30) == 2 * Pow2(29);
  }

  lemma {:induction false} ZeroStays(n: nat)
    ensures Bits(0, n) == 0
  {
    if n > 0 {
      ZeroStays(n - 1);
      XorZero(0);
    }
  }

  /** A checksum any other implementation gives: that of the bytes FF FF FF FF 80 is 12477CDF. */
  lemma KnownChecksum()
    ensures ONES - Update(ONES, [0xFF, 0xFF, 0xFF, 0xFF, 0x80]) == 0x12477CDF
  {
    var word: Bytes := [0xFF, 0xFF, 0xFF, 0xFF];
    UpdateWord(ONES, word);
    assert WordOf(word) == ONES;
    XorSelf(ONES);
    ZeroStays(32);
    UpdateConcat(ONES, word, [0x80]);
    assert word + [0x80] == [0xFF, 0xFF, 0xFF, 0xFF, 0x80];
    assert [0x80][..0] == [] && Update(0, [0x80]) == ByteStep(Update(0, []), 0x80);
    TopBit();
  }

  lemma TopBit()
    ensures ByteStep(0, 0x80) == POLY
  {
    XorZero(0x80);
    assert Pow2(7) == 0x80;
    EvenShift(1, 7);
    XorZero(POLY);
    assert Bits(0x80, 8) == Bit(Bits(0x80, 7));
  }
}
