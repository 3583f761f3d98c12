/** Bit operations on natural numbers of any width. */
module Bits {

  function PowerOfTwo(n: nat): (r: nat)
    ensures r > 0
  {
    if n == 0 then 1 else 2 * PowerOfTwo(n - 1)
  }

  /** Bit i of a number. */
  predicate Bit(a: nat, i: nat) {
    if i == 0 then a % 2 == 1 else Bit(a / 2, i - 1)
  }

  function Xor(a: nat, b: nat): nat {
    if a == 0 && b == 0 then 0 else (a % 2 + b % 2) % 2 + 2 * Xor(a / 2, b / 2)
  }

  function Or(a: nat, b: nat): nat {
    if a == 0 && b == 0 then 0 else (if a % 2 + b % 2 > 0 then 1 else 0) + 2 * Or(a / 2, b / 2)
  }

  /** The bits of a that b does not have. */
  function AndNot(a: nat, b: nat): nat {
    if a == 0 then 0 else (if a % 2 == 1 && b % 2 == 0 then 1 else 0) + 2 * AndNot(a / 2, b / 2)
  }

  lemma LowAndHigh(low: nat, high: nat)
    requires low < 2
    ensures (low + 2 * high) % 2 == low && (low + 2 * high) / 2 == high
  {
  }

  lemma {:induction false} NoBits(i: nat)
    ensures !Bit(0, i)
  {
    if i > 0 {
      NoBits(i - 1);
    }
  }

  lemma {:induction false} XorBit(a: nat, b: nat, i: nat)
    ensures Bit(Xor(a, b), i) <==> Bit(a, i) != Bit(b, i)
    decreases i
  {
    if a == 0 && b == 0 {
      NoBits(i);
    } else {
      LowAndHigh((a % 2 + b % 2) % 2, Xor(a / 2, b / 2));
      if i > 0 {
        XorBit(a / 2, b / 2, i - 1);
      }
    }
  }

  lemma {:induction false} OrBit(a: nat, b: nat, i: nat)
    ensures Bit(Or(a, b), i) <==> Bit(a, i) || Bit(b, i)
    decreases i
  {
    if a == 0 && b == 0 {
      NoBits(i);
    } else {
      LowAndHigh(if a % 2 + b % 2 > 0 then 1 else 0, Or(a / 2, b / 2));
      if i > 0 {
        OrBit(a / 2, b / 2, i - 1);
      }
    }
  }

  lemma {:induction false} AndNotBit(a: nat, b: nat, i: nat)
    ensures Bit(AndNot(a, b), i) <==> Bit(a, i) && !Bit(b, i)
    decreases i
  {
    if a == 0 {
      NoBits(i);
    } else {
      LowAndHigh(if a % 2 == 1 && b % 2 == 0 then 1 else 0, AndNot(a / 2, b / 2));
      if i > 0 {
        AndNotBit(a / 2, b / 2, i - 1);
      }
    }
  }

  /** A power of two has one bit. */
  lemma {:induction false} PowerBit(n: nat, i: nat)
    ensures Bit(PowerOfTwo(n), i) <==> i == n
  {
    if n == 0 {
      if i > 0 {
        NoBits(i - 1);
      }
    } else {
      LowAndHigh(0, PowerOfTwo(n - 1));
      if i > 0 {
        PowerBit(n - 1, i - 1);
      }
    }
  }

  lemma {:induction false} PowerSum(m: nat, n: nat)
    ensures PowerOfTwo(m + n) == PowerOfTwo(m) * PowerOfTwo(n)
  {
    if m > 0 {
      PowerSum(m - 1, n);
      DoubleProduct(PowerOfTwo(m - 1), PowerOfTwo(n));
      assert PowerOfTwo(m + n) == 2 * PowerOfTwo(m - 1 + n);
    }
  }

  lemma DoubleProduct(a: nat, b: nat)
    ensures 2 * (a * b) == (2 * a) * b
  {
  }

  /** The powers that widths and tags are made of. */
  lemma Powers()
    ensures PowerOfTwo(8) == 0x100 && PowerOfTwo(16) == 0x1_0000 && PowerOfTwo(31) == 0x8000_0000
    ensures PowerOfTwo(32) == 0x1_0000_0000 && PowerOfTwo(48) == 0x1_0000_0000_0000 && PowerOfTwo(63) == 0x8000_0000_0000_0000
  {
    assert PowerOfTwo(4) == 16 && PowerOfTwo(3) == 8;
    PowerSum(4, 4);
    PowerSum(8, 8);
    PowerSum(4, 3);
    PowerSum(8, 7);
    PowerSum(16, 15);
    PowerSum(16, 16);
    PowerSum(32, 16);
    PowerSum(32, 31);
  }

  /** A bit above all others is added. */
  lemma {:induction false} OrAbove(a: nat, n: nat)
    requires a < PowerOfTwo(n)
    ensures Or(a, PowerOfTwo(n)) == a + PowerOfTwo(n)
  {
    if n == 0 {
      assert Or(0, 1) == 1 + 2 * Or(0, 0);
    } else {
      LowAndHigh(0, PowerOfTwo(n - 1));
      OrAbove(a / 2, n - 1);
    }
  }
}
