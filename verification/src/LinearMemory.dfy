/** WebAssembly linear memory as little-endian 32-bit words at aligned addresses,
    with the byte view that `memset` and `memcpy` work on. */
module LinearMemory {

  const PAGE: int := 65536

  type Word = w: int | 0 <= w < 0x1_0000_0000
  type Byte = b: int | 0 <= b < 256

  /** A 32-bit store; the address must be inside memory. */
  function Put(words: map<int, Word>, a: int, v: Word): map<int, Word>
    requires a in words
  {
    words[a := v]
  }

  /** Byte `k` of a word, little-endian. */
  function ByteOf(w: Word, k: int): Byte
    requires 0 <= k < 4
  {
    if k == 0 then w % 0x100
    else if k == 1 then w / 0x100 % 0x100
    else if k == 2 then w / 0x100 / 0x100 % 0x100
    else w / 0x100 / 0x100 / 0x100
  }

  function FromBytes(b0: Byte, b1: Byte, b2: Byte, b3: Byte): Word {
    b0 + 0x100 * (b1 + 0x100 * (b2 + 0x100 * b3))
  }

  lemma LowByte(b: Byte, rest: nat)
    ensures (b + 0x100 * rest) % 0x100 == b && (b + 0x100 * rest) / 0x100 == rest
  {
  }

  lemma BytesRoundTrip(b0: Byte, b1: Byte, b2: Byte, b3: Byte)
    ensures ByteOf(FromBytes(b0, b1, b2, b3), 0) == b0
    ensures ByteOf(FromBytes(b0, b1, b2, b3), 1) == b1
    ensures ByteOf(FromBytes(b0, b1, b2, b3), 2) == b2
    ensures ByteOf(FromBytes(b0, b1, b2, b3), 3) == b3
  {
    LowByte(b2, b3);
    LowByte(b1, b2 + 0x100 * b3);
    LowByte(b0, b1 + 0x100 * (b2 + 0x100 * b3));
  }

  /** The word with byte `k` replaced by `v`. */
  function WithByte(w: Word, k: int, v: Byte): Word
    requires 0 <= k < 4
  {
    FromBytes(if k == 0 then v else ByteOf(w, 0), if k == 1 then v else ByteOf(w, 1),
              if k == 2 then v else ByteOf(w, 2), if k == 3 then v else ByteOf(w, 3))
  }

  lemma WithByteIs(w: Word, k: int, v: Byte, j: int)
    requires 0 <= k < 4 && 0 <= j < 4
    ensures ByteOf(WithByte(w, k, v), j) == if j == k then v else ByteOf(w, j)
  {
    BytesRoundTrip(if k == 0 then v else ByteOf(w, 0), if k == 1 then v else ByteOf(w, 1),
                   if k == 2 then v else ByteOf(w, 2), if k == 3 then v else ByteOf(w, 3));
  }

  /** The byte at address `a`; outside memory, where nothing is ever read, zero. */
  ghost function ByteAt(words: map<int, Word>, a: int): Byte {
    if a - a % 4 in words then ByteOf(words[a - a % 4], a % 4) else 0
  }

  /** The `n` bytes from address `p` on. */
  ghost function Contents(words: map<int, Word>, p: int, n: nat): (r: seq<int>)
    ensures |r| == n
    ensures forall i :: 0 <= i < n ==> r[i] == ByteAt(words, p + i)
  {
    seq(n, i => ByteAt(words, p + i))
  }

  /** A byte store. */
  function PutByte(words: map<int, Word>, a: int, v: Byte): map<int, Word>
    requires a - a % 4 in words
  {
    words[a - a % 4 := WithByte(words[a - a % 4], a % 4, v)]
  }

  /** A byte store changes that byte and no other. */
  lemma PutByteIs(words: map<int, Word>, a: int, v: Byte)
    requires a - a % 4 in words
    ensures forall x :: ByteAt(PutByte(words, a, v), x) == if x == a then v else ByteAt(words, x)
  {
    forall x
      ensures ByteAt(PutByte(words, a, v), x) == if x == a then v else ByteAt(words, x)
    {
      if x - x % 4 == a - a % 4 {
        WithByteIs(words[a - a % 4], a % 4, v, x % 4);
      }
    }
  }

  /** Fresh memory from `lo` up to `hi`: wasm pages start out zero. */
  function Zeros(lo: int, hi: int): map<int, Word> {
    map a | lo <= a < hi && a % 4 == 0 :: 0
  }
}
