/** Fixed-width unsigned integers of the C++ code, as ranges of the integers. */
module Words {
  import opened Modular

  /** One more than the largest uint32_t. Counters wrap to 0 here. */
  const WORD: int := 0x1_0000_0000

  type uint8 = x: int | 0 <= x < 0x100
  type uint16 = x: int | 0 <= x < 0x1_0000
  type uint32 = x: int | 0 <= x < 0x1_0000_0000
  type uint64 = x: int | 0 <= x < 0x1_0000_0000_0000_0000

  type Bytes = seq<uint8>

  datatype Option<+T> = None | Some(value: T)

  /** The value of a mathematical count as a uint32_t register shows it. */
  function Wrap(n: int): (w: uint32) {
    n % WORD
  }

  lemma WrapSmall(n: nat)
    requires n < WORD
    ensures Wrap(n) == n
  {
  }

  /** uint32_t subtraction. */
  function Minus(a: uint32, b: uint32): (d: uint32) {
    Wrap(a - b)
  }

  /** Adding to the register is adding to the count. */
  lemma WrapAdd(n: int, k: int)
    ensures Wrap(Wrap(n) + k) == Wrap(n + k)
  {
    ModPlusMultiple(Wrap(n) + k, n / WORD, WORD);
    assert n + k == Wrap(n) + k + n / WORD * WORD;
  }

  /** The register difference is the register form of the true difference. */
  lemma WrapDiff(a: int, b: int)
    ensures Minus(Wrap(a), Wrap(b)) == Wrap(a - b)
  {
    var qa, qb := a / WORD, b / WORD;
    assert a == qa * WORD + Wrap(a) && b == qb * WORD + Wrap(b);
    assert a - b == Wrap(a) - Wrap(b) + (qa - qb) * WORD;
    ModPlusMultiple(Wrap(a) - Wrap(b), qa - qb, WORD);
  }

  /** Two counts less than 2^32 apart show the same register only if they are equal. */
  lemma WrapInjective(a: int, b: int)
    requires Wrap(a) == Wrap(b) && -WORD < a - b < WORD
    ensures a == b
  {
    WrapDiff(a, b);
  }

  /** The register of a count that went below zero by at most one wrap. */
  lemma WrapNegative(n: int)
    requires -WORD <= n < 0
    ensures Wrap(n) == n + WORD
  {
  }
}
