/** Exclusive or of unsigned integers, bit by bit, and its algebra. */
module Gf2 {

  predicate Odd(a: nat) {
    a % 2 == 1
  }

  function Bit0(odd: bool): (b: nat) {
    if odd then 1 else 0
  }

  function Xor(a: nat, b: nat): (r: nat)
    decreases a + b
  {
    if a == 0 && b == 0 then 0 else Bit0(Odd(a) != Odd(b)) + 2 * Xor(a / 2, b / 2)
  }

  lemma {:induction false} XorZero(a: nat)
    ensures Xor(a, 0) == a && Xor(0, a) == a
    decreases a
  {
    if a > 0 { XorZero(a / 2); }
  }

  lemma {:induction false} XorComm(a: nat, b: nat)
    ensures Xor(a, b) == Xor(b, a)
    decreases a + b
  {
    if a + b > 0 { XorComm(a / 2, b / 2); }
  }

  /** xor works on the low bit and on the rest separately. */
  lemma XorHalf(a: nat, b: nat)
    ensures Xor(a, b) / 2 == Xor(a / 2, b / 2) && Odd(Xor(a, b)) == (Odd(a) != Odd(b))
  {
  }

  lemma SameBits(x: nat, y: nat)
    requires x / 2 == y / 2 && Odd(x) == Odd(y)
    ensures x == y
  {
  }

  lemma {:induction false} XorAssoc(a: nat, b: nat, c: nat)
    ensures Xor(Xor(a, b), c) == Xor(a, Xor(b, c))
    decreases a + b + c
  {
    if a + b + c > 0 {
      var l, r := Xor(Xor(a, b), c), Xor(a, Xor(b, c));
      assert l / 2 == Xor(Xor(a / 2, b / 2), c / 2) && Odd(l) == ((Odd(a) != Odd(b)) != Odd(c)) by {
        XorHalf(Xor(a, b), c);
        XorHalf(a, b);
      }
      assert r / 2 == Xor(a / 2, Xor(b / 2, c / 2)) && Odd(r) == (Odd(a) != (Odd(b) != Odd(c))) by {
        XorHalf(a, Xor(b, c));
        XorHalf(b, c);
      }
      XorAssoc(a / 2, b / 2, c / 2);
      SameBits(l, r);
    }
  }

  lemma {:induction false} XorSelf(a: nat)
    ensures Xor(a, a) == 0
    decreases a
  {
    if a > 0 { XorSelf(a / 2); }
  }

  /** xor with the same number twice is nothing. */
  lemma XorCancel(a: nat, b: nat)
    ensures Xor(Xor(a, b), b) == a
  {
    XorAssoc(a, b, b);
    XorSelf(b);
    XorZero(a);
  }

  lemma XorZeroIff(a: nat, b: nat)
    ensures Xor(a, b) == 0 <==> a == b
  {
    XorCancel(a, b);
    XorSelf(a);
    XorZero(b);
  }

  /** (a + b) + (c + d) == (a + c) + (b + d) for xor. */
  lemma XorExchange(a: nat, b: nat, c: nat, d: nat)
    ensures Xor(Xor(a, b), Xor(c, d)) == Xor(Xor(a, c), Xor(b, d))
  {
    XorAssoc(a, b, Xor(c, d));
    XorAssoc(b, c, d);
    XorComm(b, c);
    XorAssoc(c, b, d);
    XorAssoc(a, c, Xor(b, d));
  }

  function Pow2(n: nat): (p: nat)
    ensures p > 0
  {
    if n == 0 then 1 else 2 * Pow2(n - 1)
  }

  /** xor stays within the same number of bits, and equal top bits cancel. */
  lemma {:induction false} XorBound(a: nat, b: nat, n: nat)
    ensures a < Pow2(n) && b < Pow2(n) ==> Xor(a, b) < Pow2(n)
    ensures Pow2(n) <= a < 2 * Pow2(n) && Pow2(n) <= b < 2 * Pow2(n) ==> Xor(a, b) < Pow2(n)
    decreases n
  {
    if n > 0 {
      XorBound(a / 2, b / 2, n - 1);
    }
  }

  /** xor of numbers without common bit positions is addition. */
  lemma {:induction false} XorDisjoint(low: nat, high: nat, n: nat)
    requires low < Pow2(n)
    ensures Xor(low, Pow2(n) * high) == low + Pow2(n) * high
    decreases n
  {
    if n == 0 {
      XorZero(high);
    } else {
      var h := Pow2(n - 1) * high;
      assert Pow2(n) * high == 2 * h;
      XorDisjoint(low / 2, high, n - 1);
      XorDouble(low, h);
    }
  }

  lemma XorDouble(low: nat, h: nat)
    ensures Xor(low, 2 * h) == low % 2 + 2 * Xor(low / 2, h)
  {
    assert (2 * h) / 2 == h && !Odd(2 * h);
  }
}
