/**
 * Unsigned machine words as naturals: bitwise operators, shifts and truncation, all defined bit
 * by bit from the least significant one so that every proof about them is linear.
 */
module Bits {
  type byte = x: int | 0 <= x < 256

  const TWO_64: nat := 0x1_0000_0000_0000_0000

  function BitOr(a: nat, b: nat): nat
    decreases a + b
  {
    if a == 0 && b == 0 then 0
    else 2 * BitOr(a / 2, b / 2) + (if a % 2 == 1 || b % 2 == 1 then 1 else 0)
  }

  function BitXor(a: nat, b: nat): nat
    decreases a + b
  {
    if a == 0 && b == 0 then 0
    else 2 * BitXor(a / 2, b / 2) + (if a % 2 != b % 2 then 1 else 0)
  }

  function Shl(a: nat, k: nat): nat
    decreases k, a
  {
    if k == 0 then a else 2 * Shl(a, k - 1)
  }

  function Shr(a: nat, k: nat): nat
    decreases k, a
  {
    if k == 0 then a else Shr(a / 2, k - 1)
  }

  /** The `k` low bits: truncation to a `k`-bit word. */
  function Low(a: nat, k: nat): nat
    decreases k, a
  {
    if k == 0 then 0 else 2 * Low(a / 2, k - 1) + a % 2
  }

  /** `u32` left shift: the bits pushed past bit 31 are lost. */
  function Shl32(a: nat, k: nat): nat {
    Low(Shl(a, k), 32)
  }

  function Pow2(n: nat): (r: nat)
    ensures r > 0
  {
    if n == 0 then 1 else 2 * Pow2(n - 1)
  }

  // -- shifts and truncation ----------------------------------------------------------------

  lemma {:induction false} ShrShl(a: nat, k: nat)
    ensures Shr(Shl(a, k), k) == a
  {
    if k > 0 { ShrShl(a, k - 1); }
  }

  lemma {:induction false} LowShl(a: nat, k: nat)
    ensures Low(Shl(a, k), k) == 0
  {
    if k > 0 { LowShl(a, k - 1); }
  }

  lemma {:induction false} ShrLow(a: nat, m: nat, k: nat)
    requires k <= m
    ensures Shr(Low(a, m), k) == Low(Shr(a, k), m - k)
    decreases k
  {
    if k > 0 { ShrLow(a / 2, m - 1, k - 1); }
  }

  lemma {:induction false} LowLow(a: nat, m: nat, k: nat)
    requires k <= m
    ensures Low(Low(a, m), k) == Low(a, k)
    decreases k
  {
    if k > 0 { LowLow(a / 2, m - 1, k - 1); }
  }

  /** A value below 2^k is its own truncation and vanishes when shifted out. */
  lemma {:induction false} SmallValue(a: nat, k: nat)
    requires a < Pow2(k)
    ensures Low(a, k) == a && Shr(a, k) == 0
    decreases k
  {
    if k > 0 { SmallValue(a / 2, k - 1); }
  }

  lemma {:induction false} LowRange(a: nat, k: nat)
    ensures Low(a, k) < Pow2(k)
    decreases k
  {
    if k > 0 { LowRange(a / 2, k - 1); }
  }

  // -- or and xor ---------------------------------------------------------------------------

  lemma {:induction false} OrZero(a: nat)
    ensures BitOr(a, 0) == a && BitOr(0, a) == a
  {
    if a != 0 { OrZero(a / 2); }
  }

  lemma {:induction false} ShrOr(a: nat, b: nat, k: nat)
    ensures Shr(BitOr(a, b), k) == BitOr(Shr(a, k), Shr(b, k))
    decreases k
  {
    if k > 0 {
      assert BitOr(a, b) / 2 == BitOr(a / 2, b / 2);
      ShrOr(a / 2, b / 2, k - 1);
    }
  }

  lemma {:induction false} LowOr(a: nat, b: nat, k: nat)
    ensures Low(BitOr(a, b), k) == BitOr(Low(a, k), Low(b, k))
    decreases k
  {
    if k > 0 {
      assert BitOr(a, b) / 2 == BitOr(a / 2, b / 2);
      LowOr(a / 2, b / 2, k - 1);
    }
  }

  /** Or is zero only on zeros; xor is zero only on equal operands. */
  lemma {:induction false} OrVanishes(a: nat, b: nat)
    ensures BitOr(a, b) == 0 <==> a == 0 && b == 0
    decreases a + b
  {
    if a != 0 || b != 0 { OrVanishes(a / 2, b / 2); }
  }

  lemma {:induction false} XorVanishes(a: nat, b: nat)
    ensures BitXor(a, b) == 0 <==> a == b
    decreases a + b
  {
    if a != 0 || b != 0 { XorVanishes(a / 2, b / 2); }
  }

  /** Xor with a fixed operand is its own inverse. */
  lemma {:induction false} XorInvolution(a: nat, b: nat)
    ensures BitXor(BitXor(a, b), b) == a
    decreases a + b
  {
    if a != 0 || b != 0 {
      XorInvolution(a / 2, b / 2);
      var x := BitXor(a, b);
      assert x / 2 == BitXor(a / 2, b / 2) && x % 2 == (if a % 2 != b % 2 then 1 else 0);
    }
  }

  lemma {:induction false} XorCommutes(a: nat, b: nat)
    ensures BitXor(a, b) == BitXor(b, a)
    decreases a + b
  {
    if a != 0 || b != 0 { XorCommutes(a / 2, b / 2); }
  }

  lemma {:induction false} XorRange(a: nat, b: nat, k: nat)
    requires a < Pow2(k) && b < Pow2(k)
    ensures BitXor(a, b) < Pow2(k)
    decreases k
  {
    if k > 0 && (a != 0 || b != 0) { XorRange(a / 2, b / 2, k - 1); }
  }

  // -- modular multiplication ---------------------------------------------------------------

  lemma SmallMultiple(z: int, p: int)
    requires 0 - p < z * p < p
    ensures z == 0
  {
  }

  lemma DivModUnique(x: nat, p: nat, q: int, r: nat)
    requires p > 0 && x == q * p + r && r < p
    ensures x % p == r
  {
    var d := x / p;
    assert x == d * p + x % p;
    assert (q - d) * p == x % p - r;
    SmallMultiple(q - d, p);
  }

  /** A factor with an inverse modulo m can be multiplied away. */
  lemma ModUndo(h: nat, p: nat, i: nat, k: nat, m: nat)
    requires h < m && p * i == 1 + k * m
    ensures ((h * p) % m * i) % m == h
  {
    var q := h * p / m;
    var low := (h * p) % m;
    calc {
      low * i;
      (h * p - q * m) * i;
      h * (p * i) - q * m * i;
      h * (1 + k * m) - q * m * i;
      (h * k - q * i) * m + h;
    }
    DivModUnique(low * i, m, h * k - q * i, h);
  }
}
