/**
 * Powers of two and `_arr_round_up_pow2`, the rounding step of the dynamic
 * array's growth rule. The C helper works on a 32-bit `unsigned int` and
 * computes `1u << (32 - clz(n - 1))`; the model keeps that shape, with the
 * count of leading zeros written out through the bit length of its argument.
 */
module PowerOfTwo {

  /** Width in bits of the C `unsigned int` that the rounding helper works on. */
  const UIntBits: nat := 32

  /** Largest argument for which the shift in the rounding helper stays below
      the width of `unsigned int` (2^31); beyond it the shift is undefined. */
  const MaxRoundUpArg: nat := 0x8000_0000

  /** 2^k. */
  function Pow2(k: nat): (r: nat)
    ensures r >= 1
  {
    if k == 0 then 1 else 2 * Pow2(k - 1)
  }

  /** x is one of 1, 2, 4, 8, ... */
  predicate IsPow2(x: nat)
  {
    if x <= 1 then x == 1 else x % 2 == 0 && IsPow2(x / 2)
  }

  /** Number of significant bits of m: the position of its highest set bit,
      plus one (0 for m == 0). */
  function BitLength(m: nat): (r: nat)
    ensures m < Pow2(r)
    ensures m > 0 ==> r >= 1 && Pow2(r - 1) <= m
  {
    if m == 0 then 0 else 1 + BitLength(m / 2)
  }

  lemma {:induction false} Pow2IsPow2(k: nat)
    ensures IsPow2(Pow2(k))
  {
    if k > 0 {
      Pow2IsPow2(k - 1);
      assert Pow2(k) / 2 == Pow2(k - 1);
    }
  }

  /** The two powers the 32-bit helper touches, 2^31 and 2^32. */
  lemma Pow2Word()
    ensures Pow2(UIntBits - 1) == MaxRoundUpArg
    ensures Pow2(UIntBits) == 0x1_0000_0000
  {
    assert Pow2(8) == 0x100;
    assert Pow2(16) == 0x1_0000;
    assert Pow2(24) == 0x100_0000;
    assert Pow2(UIntBits) == 0x1_0000_0000;
  }

  /** A number below 2^k has at most k significant bits. */
  lemma {:induction false} BitLengthAtMost(x: nat, k: nat)
    requires x < Pow2(k)
    ensures BitLength(x) <= k
  {
    if x > 0 {
      BitLengthAtMost(x / 2, k - 1);
    }
  }

  /** Every power of two above m is at least 2^BitLength(m). */
  lemma {:induction false} LeastPow2Above(m: nat, p: nat)
    requires IsPow2(p) && m < p
    ensures Pow2(BitLength(m)) <= p
  {
    if m > 0 {
      assert p >= 2 && p % 2 == 0 && IsPow2(p / 2);
      LeastPow2Above(m / 2, p / 2);
    }
  }

  /** `__builtin_clz` on a non-zero 32-bit value: the number of leading zero
      bits, i.e. the highest set bit of x is at position 31 - r. */
  function Clz32(x: nat): (r: nat)
    requires 0 < x < 0x1_0000_0000
    ensures r < UIntBits
    ensures Pow2(UIntBits - 1 - r) <= x < Pow2(UIntBits - r)
  {
    Pow2Word();
    BitLengthAtMost(x, UIntBits);
    UIntBits - BitLength(x)
  }

  /** `_arr_round_up_pow2`: n itself below 2, otherwise `1u << (32 - clz(n - 1))`,
      which is not below n and less than 2n. The source's overflow fallback (0
      when the shifted value is below n) is not written out: within the
      precondition the shifted value is never below n. */
  function RoundUpPow2(n: nat): (r: nat)
    requires n <= MaxRoundUpArg
    ensures n < 2 ==> r == n
    ensures n >= 2 ==> n <= r < 2 * n
  {
    if n < 2 then n
    else
      var shift := UIntBits - Clz32(n - 1);
      Pow2Word();
      assert shift < UIntBits;  // the shift is defined and `1u << shift` does not wrap
      Pow2(shift)
  }

  /** From 2 on, the rounded value is a power of two, and it never exceeds 2^31. */
  lemma RoundUpPow2IsPow2(n: nat)
    requires 2 <= n <= MaxRoundUpArg
    ensures IsPow2(RoundUpPow2(n)) && RoundUpPow2(n) <= MaxRoundUpArg
  {
    var b := BitLength(n - 1);
    assert RoundUpPow2(n) == Pow2(b);
    Pow2IsPow2(b);
    Pow2IsPow2(UIntBits - 1);
    Pow2Word();
    LeastPow2Above(n - 1, MaxRoundUpArg);
  }

  /** From 2 on, no power of two between n and the rounded value is skipped. */
  lemma RoundUpPow2IsLeast(n: nat, p: nat)
    requires 2 <= n <= MaxRoundUpArg
    requires IsPow2(p) && n <= p
    ensures RoundUpPow2(n) <= p
  {
    assert RoundUpPow2(n) == Pow2(BitLength(n - 1));
    LeastPow2Above(n - 1, p);
  }

  /** The two lemmas above together: the least power of two not below n. */
  lemma RoundUpPow2IsLeastPow2(n: nat)
    requires 2 <= n <= MaxRoundUpArg
    ensures IsPow2(RoundUpPow2(n)) && RoundUpPow2(n) <= MaxRoundUpArg
    ensures forall p: nat :: IsPow2(p) && n <= p ==> RoundUpPow2(n) <= p
  {
    RoundUpPow2IsPow2(n);
    forall p: nat | IsPow2(p) && n <= p
      ensures RoundUpPow2(n) <= p
    {
      RoundUpPow2IsLeast(n, p);
    }
  }
}
