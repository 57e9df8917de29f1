/** Unsigned 32-bit arithmetic of broker/src/arithmetic.c.

    Words are natural numbers below 2^32. `|`, `^` and `>>` are defined on their binary
    digits, lowest first, so that what is proved is about the bits and not about an
    arithmetic formula chosen to suit the allocator. */
module Arithmetic {

  const WORD: nat := 0x1_0000_0000

  type Word = n: nat | n < WORD

  function Pow2(k: nat): (p: nat)
    ensures p >= 1
  {
    if k == 0 then 1 else 2 * Pow2(k - 1)
  }

  predicate IsPow2(n: nat) {
    n == 1 || (n > 1 && n % 2 == 0 && IsPow2(n / 2))
  }

  function Or(a: nat, b: nat): nat {
    if a == 0 && b == 0 then 0
    else 2 * Or(a / 2, b / 2) + (if a % 2 == 1 || b % 2 == 1 then 1 else 0)
  }

  function Xor(a: nat, b: nat): nat {
    if a == 0 && b == 0 then 0
    else 2 * Xor(a / 2, b / 2) + (if a % 2 != b % 2 then 1 else 0)
  }

  /** n-- and n++, with wrap-around. */
  function Dec(n: Word): Word { if n == 0 then WORD - 1 else n - 1 }
  function Inc(n: Word): Word { if n == WORD - 1 then 0 else n + 1 }

  /** a >> k */
  function Shr(a: nat, k: nat): nat {
    if k == 0 then a else Shr(a / 2, k - 1)
  }

  lemma {:induction false} Pow2Step(k: nat)
    ensures IsPow2(Pow2(k))
  {
    if k > 0 { Pow2Step(k - 1); }
  }

  lemma {:induction false} Pow2Mono(j: nat, k: nat)
    requires j <= k
    ensures Pow2(j) <= Pow2(k)
  {
    if j < k { Pow2Mono(j, k - 1); }
  }

  lemma {:induction false} OrZero(a: nat)
    ensures Or(a, 0) == a
  {
    if a > 0 { OrZero(a / 2); }
  }

  lemma {:induction false} ShrZero(k: nat)
    ensures Shr(0, k) == 0
  {
    if k > 0 { ShrZero(k - 1); }
  }

  lemma {:induction false} ShrShr(a: nat, j: nat, k: nat)
    ensures Shr(Shr(a, j), k) == Shr(a, j + k)
    decreases j
  {
    if j > 0 { ShrShr(a / 2, j - 1, k); }
  }

  lemma {:induction false} ShrOr(a: nat, b: nat, k: nat)
    ensures Shr(Or(a, b), k) == Or(Shr(a, k), Shr(b, k))
    decreases k
  {
    if k > 0 {
      ShrOr(a / 2, b / 2, k - 1);
      ShrZero(k);
      ShrZero(k - 1);
    }
  }

  /** Shifting t ones right by d leaves t - d ones. */
  lemma {:induction false} ShrOnes(t: nat, d: nat)
    requires d <= t
    ensures Shr(Pow2(t) - 1, d) == Pow2(t - d) - 1
    decreases d
  {
    if d > 0 {
      assert (Pow2(t) - 1) / 2 == Pow2(t - 1) - 1;
      ShrOnes(t - 1, d - 1);
    }
  }

  /** A word whose bits from j up are t ones, or-ed with j ones, is t + j ones. */
  lemma {:induction false} OrFill(a: nat, t: nat, j: nat)
    requires Shr(a, j) == Pow2(t) - 1
    ensures Or(a, Pow2(j) - 1) == Pow2(t + j) - 1
    decreases j
  {
    if j == 0 {
      OrZero(a);
    } else {
      var c := Pow2(j - 1) - 1;
      var b := Pow2(j) - 1;
      assert b % 2 == 1 && b / 2 == c;
      OrFill(a / 2, t, j - 1);
      assert Or(a, b) == 2 * Or(a / 2, c) + 1;
      assert Pow2(t + j) == 2 * Pow2(t + j - 1);
    }
  }

  /** The top t of the len bits of x are ones. */
  predicate TopOnes(x: nat, len: nat, t: nat) {
    t <= len && Shr(x, len - t) == Pow2(t) - 1
  }

  function Least(a: nat, b: nat): nat { if a <= b then a else b }

  /** One `x |= x >> t` step. */
  function Smear(x: nat, t: nat): nat {
    Or(x, Shr(x, t))
  }

  /** The bits or-ed in below the leading ones are ones themselves. */
  lemma ShiftedOnes(x: nat, len: nat, t: nat, k: nat)
    requires TopOnes(x, len, t) && k <= len - t && len <= 2 * t + k
    ensures Shr(Shr(x, t), k) == Pow2(len - k - t) - 1
  {
    var d := 2 * t + k - len;
    calc {
      Shr(Shr(x, t), k);
      { ShrShr(x, t, k); }
      Shr(x, t + k);
      { ShrShr(x, len - t, d); assert len - t + d == t + k; }
      Shr(Shr(x, len - t), d);
      { ShrOnes(t, d); }
      Pow2(t - d) - 1;
    }
  }

  /** One step doubles the run of leading ones. */
  lemma SmearStep(x: nat, len: nat, t: nat)
    requires TopOnes(x, len, t)
    ensures TopOnes(Smear(x, t), len, Least(2 * t, len))
  {
    var t' := Least(2 * t, len);
    var k := len - t';
    var a := Shr(x, k);
    assert Shr(a, t' - t) == Pow2(t) - 1 by { ShrShr(x, k, t' - t); }
    assert Shr(Smear(x, t), k) == Or(a, Shr(Shr(x, t), k)) by { ShrOr(x, Shr(x, t), k); }
    assert Shr(Shr(x, t), k) == Pow2(t' - t) - 1 by { ShiftedOnes(x, len, t, k); }
    assert Or(a, Pow2(t' - t) - 1) == Pow2(t') - 1 by { OrFill(a, t, t' - t); }
  }

  /** The five shift-or steps. */
  function Smeared(x: nat): nat {
    Smear(Smear(Smear(Smear(Smear(x, 1), 2), 4), 8), 16)
  }

  /** Five steps fill every bit below the leading one. */
  lemma SmearFive(x: nat, len: nat)
    requires 1 <= len <= 32 && TopOnes(x, len, 1)
    ensures Smeared(x) == Pow2(len) - 1
  {
    var x1 := SmearOr(x, len, 1);
    var x2 := SmearOr(x1, len, 2);
    var x3 := SmearOr(x2, len, 4);
    var x4 := SmearOr(x3, len, 8);
    var x5 := SmearOr(x4, len, 16);
    assert TopOnes(x5, len, len);
  }

  /** The same step once all bits may already be ones: the extra shift changes nothing. */
  lemma SmearOr(x: nat, len: nat, t: nat) returns (y: nat)
    requires TopOnes(x, len, Least(t, len))
    ensures y == Smear(x, t)
    ensures TopOnes(y, len, Least(2 * t, len))
  {
    y := Smear(x, t);
    if t <= len {
      SmearStep(x, len, t);
    } else {
      ShrShr(x, 0, len);
      ShrOnes(len, len);
      ShrShr(x, len, t - len);
      ShrZero(t - len);
      OrZero(x);
    }
  }

  /** Every word has a length: it is zero, or its leading bit is one. */
  lemma {:induction false} LengthOf(x: nat, bound: nat) returns (len: nat)
    requires x < Pow2(bound)
    ensures len <= bound
    ensures x < Pow2(len)
    ensures if x == 0 then len == 0 else len > 0 && Pow2(len - 1) <= x && Shr(x, len - 1) == 1
  {
    if x == 0 {
      len := 0;
    } else if x == 1 {
      len := 1;
      assert Pow2(1) == 2 * Pow2(0);
      if bound == 0 { assert false; }
    } else {
      if bound == 0 { assert false; }
      var l := LengthOf(x / 2, bound - 1);
      len := l + 1;
    }
  }

  lemma SmearedZero()
    ensures Smeared(0) == 0
  {
    forall t: nat ensures Smear(0, t) == 0 { ShrZero(t); }
  }

  /** What the five steps make of any word: all ones up to its leading one. */
  lemma SmearWord(x: Word) returns (len: nat)
    ensures len <= 32 && x < Pow2(len)
    ensures if len == 0 then x == 0 else Pow2(len - 1) <= x
    ensures Smeared(x) == Pow2(len) - 1
  {
    assert x < Pow2(32) by { PowersOf16(); }
    len := LengthOf(x, 32);
    if x == 0 {
      SmearedZero();
    } else {
      assert TopOnes(x, len, 1) by { assert Pow2(1) == 2 * Pow2(0); }
      hide Smeared;
      SmearFive(x, len);
    }
  }

  /** The least power of two not below n, or 0 when it does not fit a word. */
  function RoundedWord(n: Word): Word {
    if 1 <= n <= 0x8000_0000 then CeilPow2(n) else 0
  }

  /** next_power_of_2 */
  method NextPowerOf2(n: Word) returns (r: Word)
    ensures r == RoundedWord(n)
  {
    var m := Dec(n);
    ghost var x := m;
    m := Smear(m, 1);
    m := Smear(m, 2);
    m := Smear(m, 4);
    m := Smear(m, 8);
    m := Smear(m, 16);
    ghost var len := SmearWord(x);
    Rounded(n, len);
    r := Inc(m);
  }

  lemma Rounded(n: Word, len: nat)
    requires len <= 32
    requires var x := Dec(n); x < Pow2(len) && (if len == 0 then x == 0 else Pow2(len - 1) <= x)
    ensures Pow2(len) <= WORD
    ensures 1 <= n <= 0x8000_0000 ==> Inc(Pow2(len) - 1) == CeilPow2(n)
    ensures n == 0 || n > 0x8000_0000 ==> Inc(Pow2(len) - 1) == 0
  {
    WordLength(Dec(n), len);
    if 1 <= n <= 0x8000_0000 {
      assert IsPow2(Pow2(len)) by { Pow2Step(len); }
      CeilUnique(n, Pow2(len));
    }
  }

  lemma WordLength(x: Word, len: nat)
    requires len <= 32 && x < Pow2(len) && (if len == 0 then x == 0 else Pow2(len - 1) <= x)
    ensures Pow2(len) <= WORD
    ensures Pow2(len) == WORD <==> x >= 0x8000_0000
    ensures x == 0 ==> Pow2(len) == 1
    ensures x > 0 ==> Pow2(len) <= 2 * x
  {
    PowersOf16();
    Pow2Mono(len, 32);
    if len <= 31 { Pow2Mono(len, 31); }
  }

  /** The least power of two that is not below n. */
  function CeilPow2(n: nat): (p: nat)
    ensures IsPow2(p) && n <= p && (n >= 1 ==> p < 2 * n)
  {
    if n <= 1 then 1 else 2 * CeilPow2((n + 1) / 2)
  }

  lemma {:induction false} SmallerPow2(a: nat, b: nat)
    requires IsPow2(a) && IsPow2(b) && a < b
    ensures 2 * a <= b
  {
    if a > 1 { SmallerPow2(a / 2, b / 2); }
  }

  lemma CeilUnique(n: nat, p: nat)
    requires IsPow2(p) && n <= p < 2 * n
    ensures p == CeilPow2(n)
  {
    var c := CeilPow2(n);
    if p < c { SmallerPow2(p, c); }
    if c < p { SmallerPow2(c, p); }
  }

  /** p is a multiple of the power of two s: the bits of p below s are zero. */
  predicate Aligned(p: nat, s: nat)
    requires IsPow2(s)
  {
    s == 1 || (p % 2 == 0 && Aligned(p / 2, s / 2))
  }

  lemma {:induction false} AlignedIsMultiple(p: nat, s: nat)
    requires IsPow2(s)
    ensures Aligned(p, s) <==> p % s == 0
  {
    if s > 1 {
      var h := s / 2;
      AlignedIsMultiple(p / 2, h);
      assert s == 2 * h;
      EvenMultiple(p, h);
    }
  }

  lemma EvenMultiple(p: nat, h: nat)
    requires h > 0
    ensures p % (2 * h) == 0 <==> p % 2 == 0 && (p / 2) % h == 0
  {
    var q := p / (2 * h);
    assert p == q * (2 * h) + p % (2 * h) && q * (2 * h) == 2 * (q * h);
    if p % (2 * h) == 0 { DivUnique(q * h, q, h, 0); }
    if p % 2 == 0 && (p / 2) % h == 0 {
      var m := p / 2 / h;
      assert p / 2 == m * h && m * (2 * h) == 2 * (m * h);
      DivUnique(p, m, 2 * h, 0);
    }
  }

  lemma DivUnique(x: int, q: int, a: int, r: int)
    requires 0 <= r < a && x == q * a + r
    ensures x % a == r && x / a == q
  {
    var d := q - x / a;
    assert d * a == q * a - (x / a) * a;
    assert d * a == x % a - r;
    assert d >= 1 ==> d * a >= a;
    assert d <= -1 ==> d * a <= -a;
  }

  lemma {:induction false} AlignedToSmaller(p: nat, s: nat, t: nat)
    requires IsPow2(s) && IsPow2(t) && s <= t && Aligned(p, t)
    ensures Aligned(p, s)
  {
    if s > 1 { AlignedToSmaller(p / 2, s / 2, t / 2); }
  }

  lemma {:induction false} AlignedSum(p: nat, q: nat, s: nat)
    requires IsPow2(s) && Aligned(p, s) && Aligned(q, s)
    ensures Aligned(p + q, s)
    ensures p >= q ==> Aligned(p - q, s)
  {
    if s > 1 { AlignedSum(p / 2, q / 2, s / 2); }
  }

  lemma {:induction false} Pow2Aligned(s: nat, t: nat)
    requires IsPow2(s) && IsPow2(t) && s <= t
    ensures Aligned(t, s)
  {
    if s > 1 { Pow2Aligned(s / 2, t / 2); }
  }

  lemma {:induction false} AlignedZero(s: nat)
    requires IsPow2(s)
    ensures Aligned(0, s)
  {
    if s > 1 { AlignedZero(s / 2); }
  }

  lemma {:induction false} XorZero(a: nat)
    ensures Xor(a, 0) == a
  {
    if a > 0 { XorZero(a / 2); }
  }

  /** For an aligned block, flipping the size bit of its position gives the other half of
      the block of twice the size. */
  lemma {:induction false} XorAligned(p: nat, s: nat)
    requires IsPow2(s) && Aligned(p, s)
    ensures IsPow2(2 * s)
    ensures Aligned(p, 2 * s) || (p >= s && Aligned(p - s, 2 * s))
    ensures Xor(p, s) == if Aligned(p, 2 * s) then p + s else p - s
  {
    if s == 1 {
      XorZero(p / 2);
    } else {
      XorAligned(p / 2, s / 2);
    }
  }

  /** The buddy of a block's buddy is the block. */
  lemma {:induction false} XorInvolutive(p: nat, s: nat)
    requires IsPow2(s) && Aligned(p, s)
    ensures Aligned(Xor(p, s), s) && Xor(Xor(p, s), s) == p != Xor(p, s)
  {
    if s == 1 {
      XorZero(p / 2);
    } else {
      XorInvolutive(p / 2, s / 2);
    }
  }

  lemma PowersOf16()
    ensures Pow2(32) == WORD && Pow2(31) == 0x8000_0000
  {
    assert Pow2(8) == 0x100;
    assert Pow2(16) == 0x1_0000;
    assert Pow2(24) == 0x100_0000;
  }
}
