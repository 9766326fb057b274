/** The size and address arithmetic of src/aux/libc/allocator.c. */
module BlockSizes {
  import opened Bits

  /** `value & ~15`, see `RoundDown16IsMask`. */
  function RoundDown16(value: nat): int {
    value - value % 16
  }

  lemma RoundDown16IsMask(value: nat)
    ensures RoundDown16(value) == Clear(value, 15)
  {
    LowMask15(value);
  }

  /** The block size `malloc` carves for a request: header, tag, and rounding to 16. */
  function Total(requested: nat): int {
    RoundDown16((if requested != 0 then requested else 1) + 35)
  }

  /** It is the least multiple of 16 that holds the request beside 20 bytes of overhead. */
  lemma TotalFits(requested: nat)
    ensures Total(requested) % 16 == 0 && Total(requested) >= 32
    ensures Total(requested) - 20 >= (if requested != 0 then requested else 1)
    ensures Total(requested) - 20 - 16 < (if requested != 0 then requested else 1)
    ensures requested == 0 ==> Total(requested) == 32
  {
  }

  /** A block that is not cut has at most 16 bytes more. */
  lemma RestIsSmall(size: int, total: int)
    requires size % 16 == 0 && total % 16 == 0 && size - total < 32
    ensures size <= total + 16
  {
  }

  ghost function Product(count: nat, each: nat): nat {
    count * each
  }

  /** `align16`. */
  function Align16(v: nat): int {
    RoundDown16(v + 15)
  }

  /** Where `waste_allocator_init` puts errno: `(base + 3) & ~3` in 32-bit arithmetic. */
  function ErrnoSlot(base: int): int {
    Wrap32(base + 3) - Wrap32(base + 3) % 4
  }

  /** Where it starts the heap: `align16(err + 4)` in 32-bit arithmetic. */
  function FirstBlock(base: int): int {
    var end := Wrap32(Wrap32(ErrnoSlot(base) + 4) + 15);
    end - end % 16
  }

  /** The guard `first < base` refuses a base exactly when rounding it up would leave the
      signed range; otherwise errno and the heap follow `base` in order, aligned. */
  lemma InitLayout(base: int)
    requires 0 <= base <= I32_MAX
    ensures FirstBlock(base) < base <==> base > I32_MAX - 19
    ensures base <= I32_MAX - 19 ==>
              var err, first := ErrnoSlot(base), FirstBlock(base);
              && base <= err <= base + 3 && err % 4 == 0 && err + 4 <= first <= err + 19
              && 16 <= first <= I32_MAX && first % 16 == 0
  {
    if base <= I32_MAX - 19 {
      SmallBaseLayout(base);
    } else {
      LargeBaseLayout(base);
    }
  }

  lemma SmallBaseLayout(base: int)
    requires 0 <= base <= I32_MAX - 19
    ensures var err, first := ErrnoSlot(base), FirstBlock(base);
            && base <= err <= base + 3 && err % 4 == 0 && err + 4 <= first <= err + 19
            && 16 <= first <= I32_MAX && first % 16 == 0
  {
    SmallErrno(base);
    var err := ErrnoSlot(base);
    Wrap32Is(err + 4);
    Wrap32Is(err + 19);
    RoundDown(err + 19, 16);
  }

  lemma SmallErrno(base: int)
    requires 0 <= base <= I32_MAX - 19
    ensures base <= ErrnoSlot(base) <= base + 3 && ErrnoSlot(base) % 4 == 0 && ErrnoSlot(base) <= I32_MAX - 19
  {
    Wrap32Is(base + 3);
    RoundDown(base + 3, 4);
  }

  lemma LargeBaseLayout(base: int)
    requires I32_MAX - 19 < base <= I32_MAX
    ensures FirstBlock(base) < base
  {
    Wrap32Is(base + 3);
    RoundDown(Wrap32(base + 3), 4);
    var err := ErrnoSlot(base);
    Wrap32Is(err + 4);
    Wrap32Is(Wrap32(err + 4) + 15);
    RoundDown(Wrap32(Wrap32(err + 4) + 15), 16);
  }

  lemma RoundDown(v: int, n: int)
    requires n == 4 || n == 16
    ensures v - n < v - v % n <= v && (v - v % n) % n == 0
  {
  }

  function PrefixTo(raw: int, up: int, alignment: int): int {
    if up != raw && up - raw < 32 then up - raw + alignment else up - raw
  }

  lemma PrefixToIs(raw: int, up: int, alignment: nat, k: int)
    requires raw % 16 == 0 && up % 16 == 0 && alignment % 16 == 0 && alignment > 16
    requires raw <= up < raw + alignment && up == Times(k, alignment) && up + alignment == Times(k + 1, alignment)
    ensures var prefix := PrefixTo(raw, up, alignment);
            && (prefix == 0 || 32 <= prefix) && prefix <= alignment + 16 && prefix % 16 == 0
            && AlignedTo(raw + prefix, alignment)
  {
    var prefix := PrefixTo(raw, up, alignment);
    var r, u := raw / 16, up / 16;
    assert raw == 16 * r && up == 16 * u;
    if up != raw && up - raw < 32 {
      assert u == r + 1;
      assert raw + prefix == Times(k + 1, alignment);
    } else {
      assert prefix == 16 * (u - r);
      assert raw + prefix == Times(k, alignment);
    }
  }

  /** How far `allocate_aligned` moves up from `raw`: to the next multiple of `alignment`,
      or one further when the gap would be too small to become a block. */
  ghost function Prefix(raw: nat, alignment: nat): int
    requires alignment > 0
  {
    PrefixTo(raw, Clear(raw + alignment - 1, alignment - 1), alignment)
  }

  lemma PrefixIs(raw: nat, alignment: nat)
    requires IsPowerOfTwo(alignment) && alignment > 16 && raw % 16 == 0
    ensures alignment % 16 == 0
    ensures var prefix := Prefix(raw, alignment);
            && Gap(raw, alignment, prefix) && prefix <= alignment + 16 && prefix % 16 == 0
  {
    var k := ClearRoundsUp(raw, alignment);
    PrefixToIs(raw, Clear(raw + alignment - 1, alignment - 1), alignment, k);
    PrefixToLeast(raw, Clear(raw + alignment - 1, alignment - 1), alignment, k);
  }

  /** `raw + prefix` is the first aligned address from `raw` on that leaves no gap or one that
      makes a block. */
  ghost predicate Gap(raw: int, alignment: nat, prefix: int) {
    && AlignedTo(raw + prefix, alignment) && (prefix == 0 || 32 <= prefix)
    && forall q :: raw <= q < raw + prefix && AlignedTo(q, alignment) ==> 0 < q - raw < 32
  }

  lemma {:induction false} MultiplesApart(j: int, k: int, n: nat)
    requires j < k
    ensures Times(j, n) + n <= Times(k, n)
    decreases k - j
  {
    TimesNext(k - 1, n);
    if j < k - 1 {
      MultiplesApart(j, k - 1, n);
    }
  }

  lemma PrefixToLeast(raw: int, up: int, alignment: nat, k: int)
    requires raw <= up < raw + alignment && up == Times(k, alignment) && up + alignment == Times(k + 1, alignment)
    ensures forall q :: raw <= q < raw + PrefixTo(raw, up, alignment) && AlignedTo(q, alignment) ==> 0 < q - raw < 32
  {
    forall q | raw <= q < raw + PrefixTo(raw, up, alignment) && AlignedTo(q, alignment)
      ensures 0 < q - raw < 32
    {
      var j :| Times(j, alignment) == q;
      if j < k {
        MultiplesApart(j, k, alignment);
      } else if k + 1 < j {
        MultiplesApart(k + 1, j, alignment);
      }
    }
  }

  /** The block `malloc` returns for the padded request is large enough for the move. */
  lemma CarveFits(size: nat, alignment: nat, prefix: int, original: int)
    requires alignment % 16 == 0 && 0 <= prefix <= alignment + 16
    requires original % 16 == 0 && original >= size + alignment + 32 + 20
    ensures Total(size) % 16 == 0 && Total(size) >= 32 && Total(size) - 20 >= size
    ensures original - prefix - Total(size) >= 0
  {
    TotalFits(size);
  }
}
