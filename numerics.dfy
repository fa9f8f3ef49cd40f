/** Integer machinery shared by the model: powers of two, bit counts, a bitwise
    AND on naturals, and the two's-complement wrap-around of C#'s 32- and 64-bit
    signed integers (`int` and `long`), which Dafny's unbounded `int` does not
    have on its own. */
module Numerics {

  const TWO_30: int := 0x4000_0000
  const TWO_31: int := 0x8000_0000
  const TWO_32: int := 0x1_0000_0000
  const TWO_62: int := 0x4000_0000_0000_0000
  const TWO_63: int := 0x8000_0000_0000_0000
  const TWO_64: int := 0x1_0000_0000_0000_0000

  /** The two signed integer widths of C#: `int` (32 bits) and `long` (64 bits). */
  datatype Width = W32 | W64 {
    function Bits(): int { if W32? then 32 else 64 }
    function Modulus(): int { if W32? then TWO_32 else TWO_64 }
    /** 2^(Bits()-1): the first value that no longer fits the signed type. */
    function Half(): int { if W32? then TWO_31 else TWO_63 }
  }

  /** `v` is a value of the signed type of width `w`. */
  predicate InRange(v: int, w: Width) {
    -w.Half() <= v < w.Half()
  }

  /** The unsigned reinterpretation `(uint)v` / `(ulong)v` of a signed value. */
  function ToUnsigned(v: int, w: Width): (u: nat)
    ensures u < w.Modulus()
    ensures 0 <= v < w.Modulus() ==> u == v
    ensures -w.Modulus() <= v < 0 ==> u == v + w.Modulus()
  {
    v % w.Modulus()
  }

  /** Wrap-around to the signed type: what `unchecked` arithmetic and a cast
      back from the unsigned type produce. */
  function Wrap(v: int, w: Width): (r: int)
    ensures InRange(r, w)
    ensures InRange(v, w) ==> r == v
    ensures (r - v) % w.Modulus() == 0
  {
    var m := v % w.Modulus();
    if m >= w.Half() then m - w.Modulus() else m
  }

  /** Exclusive or of two 32-bit signed values, through their bit patterns. */
  function Xor32(a: int, b: int): (r: int)
    ensures InRange(r, W32)
  {
    Wrap(((ToUnsigned(a, W32) as bv32) ^ (ToUnsigned(b, W32) as bv32)) as int, W32)
  }

  /** C#'s integer division, which truncates toward zero (Dafny's `/` floors
      for a positive divisor). */
  function DivTrunc(x: int, y: int): (q: int)
    requires y != 0
    ensures x >= 0 && y > 0 ==> q == x / y
  {
    var a := if x < 0 then -x else x;
    var b := if y < 0 then -y else y;
    if (x < 0) != (y < 0) then -(a / b) else a / b
  }

  // ---------------------------------------------------------------- powers of two

  function Pow2(k: nat): (r: nat)
    ensures r >= 1
  {
    if k == 0 then 1 else 2 * Pow2(k - 1)
  }

  /** `n` is 1, 2, 4, 8, ...: every halving step leaves no remainder down to 1. */
  predicate IsPowerOfTwo(n: nat)
  {
    if n <= 1 then n == 1 else n % 2 == 0 && IsPowerOfTwo(n / 2)
  }

  /** The number of one bits of `n` (`BitOperations.PopCount`). */
  function PopCount(n: nat): nat
  {
    if n == 0 then 0 else n % 2 + PopCount(n / 2)
  }

  /** The number of significant bits of `n`: 0 for 0, and `k` when
      `2^(k-1) <= n < 2^k`. `LeadingZeroCount` of a w-bit value is
      `w - BitLength`. */
  function BitLength(n: nat): nat
  {
    if n == 0 then 0 else 1 + BitLength(n / 2)
  }

  /** Bitwise AND of two naturals, bit by bit from the least significant. */
  function BitAnd(a: nat, b: nat): nat
    decreases a
  {
    if a == 0 || b == 0 then 0
    else 2 * BitAnd(a / 2, b / 2) + (if a % 2 == 1 && b % 2 == 1 then 1 else 0)
  }

  lemma {:induction false} Pow2Add(a: nat, b: nat)
    ensures Pow2(a + b) == Pow2(a) * Pow2(b)
    decreases a
  {
    if a > 0 {
      Pow2Add(a - 1, b);
    }
  }

  lemma Pow2Of16()
    ensures Pow2(16) == 0x1_0000
  {
    assert Pow2(2) == 4;
    Pow2Add(2, 2);
    Pow2Add(4, 4);
    Pow2Add(8, 8);
  }

  lemma Pow2Of32()
    ensures Pow2(30) == TWO_30 && Pow2(31) == TWO_31 && Pow2(32) == TWO_32
  {
    Pow2Of16();
    Pow2Add(16, 16);
    assert Pow2(32) == 2 * Pow2(31) && Pow2(31) == 2 * Pow2(30);
  }

  lemma Pow2Of64()
    ensures Pow2(62) == TWO_62 && Pow2(63) == TWO_63 && Pow2(64) == TWO_64
  {
    Pow2Of32();
    Pow2Add(32, 32);
    assert Pow2(64) == 2 * Pow2(63) && Pow2(63) == 2 * Pow2(62);
  }

  /** The literal values of the powers of two that bound C#'s integer types. */
  lemma Pow2Constants()
    ensures Pow2(30) == TWO_30 && Pow2(31) == TWO_31 && Pow2(32) == TWO_32
    ensures Pow2(62) == TWO_62 && Pow2(63) == TWO_63 && Pow2(64) == TWO_64
  {
    Pow2Of32();
    Pow2Of64();
  }

  lemma {:induction false} Pow2StrictlyMonotone(j: nat, k: nat)
    requires j < k
    ensures Pow2(j) < Pow2(k)
    decreases k
  {
    if j < k - 1 {
      Pow2StrictlyMonotone(j, k - 1);
    }
  }

  lemma Pow2Monotone(j: nat, k: nat)
    requires j <= k
    ensures Pow2(j) <= Pow2(k)
  {
    if j < k {
      Pow2StrictlyMonotone(j, k);
    }
  }

  /** Powers of two are ordered as their exponents are. */
  lemma Pow2Order(j: nat, k: nat)
    ensures j <= k <==> Pow2(j) <= Pow2(k)
    ensures j < k <==> Pow2(j) < Pow2(k)
  {
    if j < k {
      Pow2StrictlyMonotone(j, k);
    } else if k < j {
      Pow2StrictlyMonotone(k, j);
    }
  }

  lemma {:induction false} Pow2IsPowerOfTwo(k: nat)
    ensures IsPowerOfTwo(Pow2(k))
  {
    if k > 0 {
      Pow2IsPowerOfTwo(k - 1);
      assert Pow2(k) / 2 == Pow2(k - 1);
    }
  }

  /** `BitLength` locates `n` between two consecutive powers of two. */
  lemma {:induction false} BitLengthBounds(n: nat)
    requires n >= 1
    ensures BitLength(n) >= 1
    ensures Pow2(BitLength(n) - 1) <= n < Pow2(BitLength(n))
  {
    if n > 1 {
      BitLengthBounds(n / 2);
    }
  }

  /** Any `k` with `2^(k-1) <= n < 2^k` is the bit length of `n`. */
  lemma BitLengthUnique(n: nat, k: nat)
    requires k >= 1 && Pow2(k - 1) <= n < Pow2(k)
    ensures BitLength(n) == k
  {
    BitLengthBounds(n);
    var b := BitLength(n);
    Pow2Order(b, k - 1);
    Pow2Order(k, b - 1);
  }

  /** A power of two is the power of two its bit length names. */
  lemma {:induction false} PowerOfTwoIsPow2(n: nat)
    requires IsPowerOfTwo(n)
    ensures n >= 1 && n == Pow2(BitLength(n) - 1)
  {
    if n > 1 {
      PowerOfTwoIsPow2(n / 2);
    }
  }

  lemma {:induction false} PopCountZero(n: nat)
    ensures PopCount(n) == 0 <==> n == 0
  {
    if n > 0 && n % 2 == 0 {
      PopCountZero(n / 2);
    }
  }

  /** `PopCount(n) == 1` is the same test as "n is a power of two". */
  lemma {:induction false} PopCountOneIffPowerOfTwo(n: nat)
    ensures PopCount(n) == 1 <==> IsPowerOfTwo(n)
  {
    if n > 1 {
      PopCountOneIffPowerOfTwo(n / 2);
      if n % 2 == 1 {
        PopCountZero(n / 2);
      }
    }
  }

  /** Masking with `2^n - 1` keeps every value below `2^n`. */
  lemma {:induction false} BitAndLowOnes(u: nat, n: nat)
    requires u < Pow2(n)
    ensures BitAnd(u, Pow2(n) - 1) == u
    decreases n
  {
    if n > 0 && u > 0 {
      BitAndLowOnes(u / 2, n - 1);
    }
  }

  /** Division with remainder has only one answer. */
  lemma DivModUnique(u: int, d: int, a: int, b: int)
    requires d >= 1 && u == d * a + b && 0 <= b < d
    ensures u / d == a && u % d == b
  {
    var x := a - u / d;
    assert d * x == u % d - b by {
      assert u == d * (u / d) + u % d;
      assert d * a - d * (u / d) == d * x;
    }
    assert x == 0;
  }

  /** Two values that differ by a multiple of the modulus wrap to the same
      signed value. */
  lemma WrapCongruent(a: int, b: int, w: Width)
    requires (a - b) % w.Modulus() == 0
    ensures Wrap(a, w) == Wrap(b, w)
  {
    var m := w.Modulus();
    var k := (a - b) / m;
    assert a - b == m * k;
    assert b == m * (b / m) + b % m;
    assert a == m * (k + b / m) + b % m;
    DivModUnique(a, m, k + b / m, b % m);
  }

  lemma HalfRemainder(u: nat, q: nat)
    requires q >= 1
    ensures u % (2 * q) == 2 * ((u / 2) % q) + u % 2
  {
    var h := u / 2;
    var a := h / q;
    var b := 2 * (h % q) + u % 2;
    assert h == q * a + h % q;
    assert u == 2 * h + u % 2;
    assert u == (2 * q) * a + b by {
      assert 2 * h == 2 * (q * a) + 2 * (h % q);
      assert 2 * (q * a) == (2 * q) * a;
    }
    DivModUnique(u, 2 * q, a, b);
  }

  /** An even mask drops the lowest bit: `u & 2m == 2 * ((u / 2) & m)`. */
  lemma BitAndEvenMask(u: nat, m: nat)
    ensures BitAnd(u, 2 * m) == 2 * BitAnd(u / 2, m)
  {
    if u != 0 && m != 0 {
      assert (2 * m) / 2 == m && (2 * m) % 2 == 0;
    }
  }

  /** One step of the induction below: if masking `u / 2` with `m` rounds it
      down to a multiple of `p`, masking `u` with `2 * m` rounds it down to a
      multiple of `2 * p`. */
  lemma BitAndHighMaskStep(u: nat, m: nat, p: nat)
    requires p >= 1
    requires BitAnd(u / 2, m) == u / 2 - (u / 2) % p
    ensures BitAnd(u, 2 * m) == u - u % (2 * p)
  {
    BitAndEvenMask(u, m);
    HalfRemainder(u, p);
    assert u == 2 * (u / 2) + u % 2;
  }

  /** The two ends of the induction below: the mask `2^n - 1` keeps
      everything, the mask `0` nothing. */
  lemma BitAndHighMaskBase(u: nat, n: nat, k: nat)
    requires (k == 0 || k == n) && u < Pow2(n)
    ensures Pow2(k) <= Pow2(n)
    ensures BitAnd(u, Pow2(n) - Pow2(k)) == u - u % Pow2(k)
  {
    if k == 0 {
      Pow2Monotone(0, n);
      BitAndLowOnes(u, n);
    } else {
      DivModUnique(u, Pow2(k), 0, u);
    }
  }

  /** Masking with `2^n - 2^k` (the n-bit complement of `2^k - 1`) clears the
      `k` low bits: it rounds `u` down to a multiple of `2^k`. */
  lemma {:induction false} BitAndHighMask(u: nat, n: nat, k: nat)
    requires k <= n && u < Pow2(n)
    ensures Pow2(k) <= Pow2(n)
    ensures BitAnd(u, Pow2(n) - Pow2(k)) == u - u % Pow2(k)
    decreases k
  {
    if k == 0 || k == n {
      BitAndHighMaskBase(u, n, k);
    } else {
      var p, m := Pow2(k - 1), Pow2(n - 1) - Pow2(k - 1);
      assert Pow2(k) == 2 * p && Pow2(n) == 2 * Pow2(n - 1);
      BitAndHighMask(u / 2, n - 1, k - 1);
      BitAndHighMaskStep(u, m, p);
    }
  }
}
