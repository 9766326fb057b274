/** Bitwise operators of the C sources on unbounded naturals, and the two facts
    about powers of two that the allocator relies on. */
module Bits {

  const U32_MAX: int := 0xffff_ffff
  const I32_MAX: int := 0x7fff_ffff
  const U64_MAX: int := 0xffff_ffff_ffff_ffff

  /** Two's complement narrowing to a signed 32-bit value. */
  function Wrap32(x: int): int {
    (x + 0x8000_0000) % 0x1_0000_0000 - 0x8000_0000
  }

  lemma Wrap32Is(x: int)
    ensures -0x8000_0000 <= x <= I32_MAX ==> Wrap32(x) == x
    ensures I32_MAX < x <= U32_MAX ==> Wrap32(x) == x - 0x1_0000_0000
  {
  }

  /** `x & y`. */
  function And(x: nat, y: nat): nat {
    if x == 0 || y == 0 then 0 else (if x % 2 == 1 && y % 2 == 1 then 1 else 0) + 2 * And(x / 2, y / 2)
  }

  /** `x & ~mask`, for a mask of low bits. */
  function Clear(x: nat, mask: nat): int {
    x - And(x, mask)
  }

  ghost predicate IsPowerOfTwo(n: nat) {
    n == 1 || (n > 1 && n % 2 == 0 && IsPowerOfTwo(n / 2))
  }

  lemma MultipleBounds(k: int, d: int)
    requires d > 0
    ensures k >= 1 ==> k * d >= d
    ensures k <= -1 ==> k * d <= -d
  {
  }

  lemma ModUnique(v: int, d: int, q: int, r: int)
    requires 0 <= r < d && v == q * d + r
    ensures v % d == r
  {
    var q', r' := v / d, v % d;
    assert v == q' * d + r';
    assert (q - q') * d == r' - r;
    MultipleBounds(q - q', d);
  }

  lemma ModOfMultiple(k: int, d: int)
    requires d > 0
    ensures (k * d) % d == 0
  {
    ModUnique(k * d, d, k, 0);
  }

  lemma ModDouble(v: nat, k: nat)
    requires k > 0
    ensures v % (2 * k) == 2 * (v / 2 % k) + v % 2
  {
    var h := v / 2;
    var q, r := h / k, h % k;
    assert h == q * k + r;
    assert v == q * (2 * k) + (2 * r + v % 2);
    ModUnique(v, 2 * k, q, 2 * r + v % 2);
  }

  /** Masking with `m` keeps the remainder modulo `m + 1` when that is a power of two. */
  lemma {:induction false} LowMask(v: nat, m: nat)
    requires IsPowerOfTwo(m + 1)
    ensures And(v, m) == v % (m + 1)
    decreases m
  {
    if m > 0 {
      var k := (m + 1) / 2;
      assert m + 1 == 2 * k && m / 2 == k - 1;
      LowMask(v / 2, k - 1);
      ModDouble(v, k);
    }
  }

  lemma LowMask15(v: nat)
    ensures And(v, 15) == v % 16
  {
    assert IsPowerOfTwo(2) && IsPowerOfTwo(4) && IsPowerOfTwo(8) && IsPowerOfTwo(16);
    LowMask(v, 15);
  }

  lemma {:induction false} AndSelf(k: nat)
    ensures And(k, k) == k
  {
    if k > 0 {
      AndSelf(k / 2);
    }
  }

  /** The C idiom `n && !(n & (n - 1))` recognises exactly the powers of two. */
  lemma {:induction false} PowerOfTwoTest(n: nat)
    requires n > 0
    ensures And(n, n - 1) == 0 <==> IsPowerOfTwo(n)
  {
    if n > 1 {
      if n % 2 == 0 {
        assert (n - 1) / 2 == n / 2 - 1;
        PowerOfTwoTest(n / 2);
      } else {
        assert (n - 1) / 2 == n / 2;
        AndSelf(n / 2);
      }
    }
  }

  /** Every power of two from 32 on is a multiple of 16 and at least twice 16. */
  lemma {:induction false} LargePowerOfTwo(n: nat)
    requires IsPowerOfTwo(n) && n > 16
    ensures n >= 32 && n % 32 == 0
  {
    if n / 2 > 16 {
      LargePowerOfTwo(n / 2);
      assert n == 2 * (n / 2);
    } else {
      assert n / 2 in {9, 10, 11, 12, 13, 14, 15, 16};
    }
  }

  /** Powers of two up to 16 divide 16. */
  lemma SmallPowerOfTwo(n: nat)
    requires IsPowerOfTwo(n) && n <= 16
    ensures n == 1 || n == 2 || n == 4 || n == 8 || n == 16
  {
    if n > 1 {
      assert IsPowerOfTwo(n / 2);
      if n / 2 > 1 {
        assert IsPowerOfTwo(n / 4);
      }
    }
  }

  /** `p` is a multiple of `n`. */
  ghost predicate AlignedTo(p: int, n: nat) {
    exists k: int :: Times(k, n) == p
  }

  ghost function Times(k: int, n: int): int {
    k * n
  }

  lemma AlignedIs(p: int, n: nat)
    requires n > 0
    ensures AlignedTo(p, n) <==> p % n == 0
  {
    if AlignedTo(p, n) {
      var k :| Times(k, n) == p;
      ModOfMultiple(k, n);
    }
    if p % n == 0 {
      assert Times(p / n, n) == p;
    }
  }

  lemma QuotientBounds(v: int, n: nat)
    requires n > 0
    ensures Times(v / n, n) <= v < Times(v / n, n) + n
    ensures v - v % n == Times(v / n, n)
  {
  }

  lemma TimesNext(k: int, n: int)
    ensures Times(k + 1, n) == Times(k, n) + n
  {
  }

  lemma TimesOf16(k: int, n: int)
    requires n % 16 == 0
    ensures Times(k, n) % 16 == 0
  {
    var e := n / 16;
    assert k * (e * 16) == (k * e) * 16;
    ModOfMultiple(k * e, 16);
  }

  lemma ClearIsQuotient(v: nat, n: nat)
    requires IsPowerOfTwo(n)
    ensures Clear(v, n - 1) == Times(v / n, n)
  {
    LowMask(v, n - 1);
    QuotientBounds(v, n);
  }

  /** `(raw + n - 1) & ~(n - 1)` is the next multiple of a power of two `n`. */
  lemma ClearRoundsUp(raw: nat, n: nat) returns (k: int)
    requires IsPowerOfTwo(n) && n > 16
    ensures var up := Clear(raw + n - 1, n - 1);
            raw <= up < raw + n && up % 16 == 0 && up == Times(k, n) && up + n == Times(k + 1, n)
    ensures n % 16 == 0
  {
    LargePowerOfTwo(n);
    k := NextMultiple(raw, n);
    assert Clear(raw + n - 1, n - 1) == Times(k, n) by {
      ClearIsQuotient(raw + n - 1, n);
    }
  }

  lemma NextMultiple(raw: nat, n: nat) returns (k: int)
    requires n > 0 && n % 16 == 0
    ensures k == (raw + n - 1) / n
    ensures raw <= Times(k, n) < raw + n && Times(k, n) % 16 == 0 && Times(k, n) + n == Times(k + 1, n)
  {
    k := (raw + n - 1) / n;
    QuotientBounds(raw + n - 1, n);
    TimesNext(k, n);
    TimesOf16(k, n);
  }
}
