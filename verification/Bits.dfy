/**
 The bit operations that `sys/pging.c` applies to 64-bit words, over naturals:
 a left shift is a multiplication modulo 2^64, a right shift a division, and
 the bitwise or is defined bit by bit.
 */
module Bits {
  const U64 := 0x1_0000_0000_0000_0000

  function Or(a: nat, b: nat): nat
    decreases a + b
  {
    if a == 0 then b
    else if b == 0 then a
    else 2 * Or(a / 2, b / 2) + (if a % 2 == 1 || b % 2 == 1 then 1 else 0)
  }

  function Pow2(k: nat): nat {
    if k == 0 then 1 else 2 * Pow2(k - 1)
  }

  lemma Pow2Values()
    ensures Pow2(12) == 0x1000 && Pow2(21) == 0x20_0000 && Pow2(30) == 0x4000_0000 && Pow2(39) == 0x80_0000_0000
  {
    assert Pow2(4) == 16;
    assert Pow2(8) == 16 * Pow2(4);
    assert Pow2(12) == 16 * Pow2(8);
    assert Pow2(16) == 16 * Pow2(12);
    assert Pow2(20) == 16 * Pow2(16);
    assert Pow2(24) == 16 * Pow2(20);
    assert Pow2(28) == 16 * Pow2(24);
    assert Pow2(32) == 16 * Pow2(28);
    assert Pow2(36) == 16 * Pow2(32);
  }

  lemma OrHalf(a: nat, b: nat)
    ensures Or(a, b) / 2 == Or(a / 2, b / 2)
    ensures Or(a, b) % 2 == if a % 2 == 1 || b % 2 == 1 then 1 else 0
  {
  }

  /** Words that share no bit position add up under bitwise or. */
  lemma {:induction false} OrDisjoint(a: nat, n: nat, k: nat)
    requires a < Pow2(k)
    ensures Or(a, n * Pow2(k)) == a + n * Pow2(k)
    decreases k
  {
    if k > 0 {
      var h := Pow2(k - 1);
      assert n * Pow2(k) == 2 * (n * h);
      OrDisjoint(a / 2, n, k - 1);
      OrHalf(a, n * Pow2(k));
    }
  }

  function Shifted(n: nat, k: nat): nat {
    if k == 0 then n else 2 * Shifted(n, k - 1)
  }

  lemma ShiftedPage(n: nat)
    ensures Shifted(n, 12) == n * 4096
  {
    assert Shifted(n, 1) == 2 * n;
    assert Shifted(n, 2) == 4 * n;
    assert Shifted(n, 4) == 4 * Shifted(n, 2);
    assert Shifted(n, 6) == 4 * Shifted(n, 4);
    assert Shifted(n, 8) == 4 * Shifted(n, 6);
    assert Shifted(n, 10) == 4 * Shifted(n, 8);
    assert Shifted(n, 12) == 4 * Shifted(n, 10);
  }

  /** Or leaves the page number alone when the second operand fits in the page offset. */
  lemma OrOffset(base: nat, x: nat, y: nat)
    requires base % 4096 == 0 && x < 4096 && y < 4096
    ensures Or(base + x, y) == base + Or(x, y) && Or(x, y) < 4096
  {
    assert Pow2(12) == 4096;
    ShiftedPage(base / 4096);
    OrOffsetAt(base / 4096, x, y, 12);
  }

  lemma {:induction false} OrOffsetAt(n: nat, x: nat, y: nat, k: nat)
    requires x < Pow2(k) && y < Pow2(k)
    ensures Or(Shifted(n, k) + x, y) == Shifted(n, k) + Or(x, y) && Or(x, y) < Pow2(k)
    decreases k
  {
    if k > 0 {
      OrOffsetAt(n, x / 2, y / 2, k - 1);
      OrHalf(Shifted(n, k) + x, y);
      OrHalf(x, y);
    }
  }

  lemma {:induction false} OrSelf(x: nat)
    ensures Or(x, x) == x
  {
    if x > 0 {
      OrSelf(x / 2);
    }
  }
}
