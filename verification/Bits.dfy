/** 32-bit operators, defined bit by bit, and their meaning on prefix masks. */
module Bits {
  import opened Net

  const U32_MAX := 0xFFFF_FFFF

  function Pow2(k: nat): (p: nat)
    ensures p > 0
  {
    if k == 0 then 1 else 2 * Pow2(k - 1)
  }

  function And(a: nat, b: nat): nat
    decreases a
  {
    if a == 0 || b == 0 then 0
    else 2 * And(a / 2, b / 2) + if a % 2 == 1 && b % 2 == 1 then 1 else 0
  }

  function Or(a: nat, b: nat): nat
    decreases a + b
  {
    if a == 0 && b == 0 then 0
    else 2 * Or(a / 2, b / 2) + if a % 2 == 1 || b % 2 == 1 then 1 else 0
  }

  function Not32(a: nat): nat
    requires a <= U32_MAX
  {
    U32_MAX - a
  }

  /** Left shift that drops the bits above bit 31. */
  function Shl32(a: nat, k: nat): nat {
    a * Pow2(k) % 0x1_0000_0000
  }

  /** `if prefix == 0 { 0 } else { u32::MAX << (32 - prefix) }` */
  function PrefixMask(prefix: nat): nat
    requires prefix <= 32
  {
    if prefix == 0 then 0 else Shl32(U32_MAX, 32 - prefix)
  }

  lemma {:induction false} ModDouble(a: nat, m: nat)
    requires m > 0
    ensures a % (2 * m) == 2 * (a / 2 % m) + a % 2
  {
    var h := a / 2;
    var q := h / m;
    var r := h % m;
    assert h == q * m + r;
    assert a == q * (2 * m) + (2 * r + a % 2);
    ModUnique(a, 2 * m, q, 2 * r + a % 2);
  }

  lemma {:induction false} MulMonotone(x: int, y: int, m: nat)
    requires x <= y
    ensures x * m <= y * m
  {
  }

  lemma {:induction false} ModUnique(a: nat, m: nat, q: int, r: nat)
    requires m > 0 && a == q * m + r && r < m
    ensures a % m == r && a / m == q
  {
    var d := a / m - q;
    assert d * m == r - a % m;
    if d > 0 {
      MulMonotone(1, d, m);
    } else if d < 0 {
      MulMonotone(d, -1, m);
    }
  }

  lemma {:induction false} Pow2Monotone(i: nat, j: nat)
    requires i <= j
    ensures Pow2(i) <= Pow2(j)
    decreases j
  {
    if i < j {
      Pow2Monotone(i, j - 1);
    }
  }

  lemma {:induction false} Pow2Of32()
    ensures Pow2(32) == 0x1_0000_0000
  {
    assert Pow2(8) == 256;
    assert Pow2(16) == 0x1_0000;
    assert Pow2(24) == 0x100_0000;
  }

  lemma {:induction false} Pow2Add(i: nat, j: nat)
    ensures Pow2(i + j) == Pow2(i) * Pow2(j)
  {
    if i > 0 {
      Pow2Add(i - 1, j);
    }
  }

  lemma {:induction false} AndOnes(a: nat, n: nat)
    requires a < Pow2(n)
    ensures And(a, Pow2(n) - 1) == a
    decreases n
  {
    if a > 0 {
      AndOnes(a / 2, n - 1);
      AndOdd(a, Pow2(n - 1) - 1);
    }
  }

  lemma {:induction false} AndOdd(a: nat, half: nat)
    ensures And(a, 2 * half + 1) == 2 * And(a / 2, half) + a % 2
  {
    assert (2 * half + 1) / 2 == half;
  }

  /** Clearing the low k bits rounds down to a multiple of 2^k. */
  lemma {:induction false} AndHighBits(a: nat, n: nat, k: nat)
    requires k <= n && a < Pow2(n)
    ensures Pow2(k) <= Pow2(n)
    ensures And(a, Pow2(n) - Pow2(k)) == a - a % Pow2(k)
    decreases n
  {
    Pow2Monotone(k, n);
    if k == 0 {
      AndOnes(a, n);
    } else {
      AndHighBits(a / 2, n - 1, k - 1);
      HighStep(a, Pow2(n - 1), Pow2(k - 1));
    }
  }

  lemma {:induction false} HighStep(a: nat, p: nat, q: nat)
    requires 0 < q <= p && And(a / 2, p - q) == a / 2 - a / 2 % q
    ensures And(a, 2 * p - 2 * q) == a - a % (2 * q)
  {
    hide And;
    ModDouble(a, q);
    AndEven(a, p - q);
    EvenRounds(a, q);
  }

  lemma {:induction false} EvenRounds(a: nat, m: nat)
    requires m > 0 && a % (2 * m) == 2 * (a / 2 % m) + a % 2
    ensures 2 * (a / 2 - a / 2 % m) == a - a % (2 * m)
  {
  }

  lemma {:induction false} AndEven(a: nat, half: nat)
    ensures And(a, 2 * half) == 2 * And(a / 2, half)
  {
    if a > 0 && half > 0 {
      assert 2 * half / 2 == half;
    }
  }

  /** Setting the low k bits moves to the last number of the block. */
  lemma {:induction false} OrLowBits(a: nat, k: nat)
    ensures Or(a, Pow2(k) - 1) == a - a % Pow2(k) + Pow2(k) - 1
    decreases k
  {
    if k == 0 {
      OrZero(a);
    } else {
      OrLowBits(a / 2, k - 1);
      LowStep(a, Pow2(k - 1));
    }
  }

  lemma {:induction false} LowStep(a: nat, q: nat)
    requires q > 0 && Or(a / 2, q - 1) == a / 2 - a / 2 % q + q - 1
    ensures Or(a, 2 * q - 1) == a - a % (2 * q) + 2 * q - 1
  {
    hide Or;
    ModDouble(a, q);
    OrOdd(a, q - 1);
    EvenRounds(a, q);
  }

  lemma {:induction false} OrOdd(a: nat, half: nat)
    ensures Or(a, 2 * half + 1) == 2 * Or(a / 2, half) + 1
  {
    assert (2 * half + 1) / 2 == half;
  }

  lemma {:induction false} OrZero(a: nat)
    ensures Or(a, 0) == a
  {
    if a > 0 {
      OrZero(a / 2);
    }
  }

  lemma {:induction false} PrefixMaskValue(prefix: nat)
    requires prefix <= 32
    ensures Pow2(32 - prefix) <= 0x1_0000_0000
    ensures PrefixMask(prefix) == 0x1_0000_0000 - Pow2(32 - prefix)
  {
    Pow2Of32();
    var k := 32 - prefix;
    Pow2Monotone(k, 32);
    if prefix > 0 {
      Pow2Monotone(0, k);
      Pow2Monotone(k, 31);
      var p := Pow2(k);
      assert U32_MAX * p == (p - 1) * 0x1_0000_0000 + (0x1_0000_0000 - p);
      ModUnique(U32_MAX * p, 0x1_0000_0000, p - 1, 0x1_0000_0000 - p);
    }
  }

  /** Masking an address keeps exactly the prefix. */
  lemma {:induction false} MaskRounds(a: Ipv4, prefix: nat)
    requires prefix <= 32
    ensures And(a, PrefixMask(prefix)) == a - a % Pow2(32 - prefix)
  {
    hide And, PrefixMask;
    Pow2Of32();
    PrefixMaskValue(prefix);
    hide Pow2;
    AndHighBits(a, 32, 32 - prefix);
  }
}
