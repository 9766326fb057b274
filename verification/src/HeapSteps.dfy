/** What the operations of the allocator do to the heap and to the map of live
    allocations, step by step. */
module HeapSteps {
  import opened Bits
  import opened BlockSizes
  import opened LinearMemory
  import opened Heap

  lemma KeepsLess(h: State, h': State, kept: set<int>, more: set<int>)
    requires Keeps(h, h', more) && kept <= more
    ensures Keeps(h, h', kept)
  {
  }

  lemma SameAllocations(h: State, h': State, initialized: bool)
    requires h' == h.(words := h'.words) && Keeps(h, h', Allocated(h))
    requires if initialized then Inv(h, {}) else h.size == map[] && h.rank == map[]
    ensures Live(h') == Live(h)
  {
    if initialized {
      LiveStep(h, h', {}, {});
      assert Pointers({}) == {};
      assert Live(h) - {} == Live(h) && Live(h') - {} == Live(h');
    }
  }

  lemma EmptyHeap(words: map<int, Word>, base: int)
    requires 16 <= base <= MAX_BREAK && base % 16 == 0
    ensures Inv(State(words, base, base, 0, map[], map[], 0), {})
  {
    assert Span(base, base) == {};
  }

  lemma GrowthIsOutside(h: State, pages: nat, initialized: bool)
    requires h.words.Keys == Span(0, pages * PAGE)
    requires if initialized then Inv(h, {}) else h.size == map[] && h.rank == map[]
    ensures var w := h.words + Zeros(pages * PAGE, (pages + 1) * PAGE);
            && w.Keys == Span(0, (pages + 1) * PAGE)
            && (initialized ==> Inv(h.(words := w), {}))
            && Keeps(h, h.(words := w), Allocated(h))
  {
    var z := Zeros(pages * PAGE, (pages + 1) * PAGE);
    var w := h.words + z;
    assert w.Keys == Span(0, (pages + 1) * PAGE);
    if initialized {
      OutsideFrame(h, h.(words := w), {}, Allocated(h));
    }
  }

  /** No untagged block ends where `b` begins. */
  ghost predicate HoleBelow(h: State, hole: set<int>, b: int) {
    forall c {:trigger Succ(h.size, c)} :: c in hole && c in h.size ==> Succ(h.size, c) != b
  }

  lemma OpenForRelease(h: State, b: int, hole: set<int>)
    requires Inv(h, hole) && b in Allocated(h) && b !in hole && Succ(h.size, b) !in hole
    ensures Inv(h, hole + {b}) && Succ(h.size, b) !in hole + {b}
    ensures b in h.words && Reads(h.words[b], h.size[b], false)
    ensures hole <= Allocated(h) - {b}
  {
    OpenBlock(h, b, hole);
    TaggedReads(h, b, hole);
  }

  /** What `release_block` finds above a block, and what absorbing it gives. */
  lemma NextCase(h: State, b: int, hole: set<int>, kept: set<int>)
    requires Inv(h, hole) && b in hole && Succ(h.size, b) !in hole
    requires kept <= Allocated(h) && b !in kept
    ensures var n := Succ(h.size, b);
            if n < h.brk then
              && n in h.words && n in h.size
              && Reads(h.words[n], h.size[n], n in h.rank)
              && (n in h.rank ==>
                    && LinkedPart(h, n)
                    && RemoveFree(h, n).words[n] == h.words[n]
                    && Inv(Absorb(h, n, b, n), hole)
                    && Keeps(h, Absorb(h, n, b, n), kept)
                    && Allocated(Absorb(h, n, b, n)) == Allocated(h)
                    && Succ(Absorb(h, n, b, n).size, b) !in Absorb(h, n, b, n).rank
                    && Absorb(h, n, b, n).words.Keys == h.words.Keys)
            else n !in h.rank
  {
    var n := Succ(h.size, b);
    UpperNeighbour(h, b, hole);
    if n in h.rank {
      AbsorbNextKeeps(h, b, hole, kept);
      FreeBlocksAligned(h);
      assert LinkedAt(h, n);
      RemoveFreeHeader(h, n);
    }
  }

  /** What `release_block` finds below a block, and what joining it gives. */
  lemma PreviousCase(h: State, b: int, hole: set<int>, kept: set<int>) returns (p: int)
    requires Inv(h, hole + {b}) && b in h.size && h.base < b && b !in hole
    requires HoleBelow(h, hole, b)
    requires Succ(h.size, b) !in h.rank
    requires kept <= Allocated(h) && b !in kept
    ensures p in h.size && p in h.words && b - 4 in h.words
    ensures Reads(h.words[b - 4], h.size[p], p in h.rank) && Reads(h.words[p], h.size[p], p in h.rank)
    ensures h.size[p] >= 32 && h.base <= p == b - h.size[p]
    ensures p !in h.rank ==> LeftClear(h, b)
    ensures p in h.rank ==>
              && LinkedPart(h, p) && p !in hole && p !in kept
              && Inv(Absorb(h, p, p, b), hole + {p})
              && Keeps(h, Absorb(h, p, p, b), kept)
              && Allocated(Absorb(h, p, p, b)) == Allocated(h) - {b} + {p}
              && Succ(Absorb(h, p, p, b).size, p) !in Absorb(h, p, p, b).rank
              && LeftClear(Absorb(h, p, p, b), p)
              && Absorb(h, p, p, b).words.Keys == h.words.Keys
  {
    BlockWords(h, b);
    p := LowerNeighbour(h, b, hole + {b});
    if p in h.rank {
      AbsorbPrevKeeps(h, p, b, hole + {b}, kept);
      assert LinkedAt(h, p);
      assert hole + {b} - {b} + {p} == hole + {p};
    }
  }

  lemma LowestIsClear(h: State, b: int, hole: set<int>)
    requires Inv(h, hole) && b in h.size && b <= h.base
    ensures LeftClear(h, b)
  {
    forall c | c in h.rank
      ensures Succ(h.size, c) != b
    {
      assert BlockAt(h.size, h.base, h.brk, c);
    }
  }

  lemma HoleStaysBelow(h: State, h': State, b: int, hole: set<int>, kept: set<int>)
    requires hole <= kept && Keeps(h, h', kept) && HoleBelow(h, hole, b)
    ensures HoleBelow(h', hole, b)
  {
    forall c | c in hole && c in h'.size
      ensures Succ(h'.size, c) != b
    {
      assert Succ(h.size, c) != b;
    }
  }

  /** Tagging the lower part of a cut block as handed out. */
  lemma LowerTagKeeps(h: State, b: int, n: int, kept: set<int>)
    requires Inv(h, {b, b + n}) && h.size[b] == n && n > 0 && kept <= Allocated(h) && b !in kept
    ensures b in h.words && b + n - 4 in h.words && 0 <= n < MAX_BREAK
    ensures Inv(WriteBlock(h, b, n, true), {b + n})
    ensures Keeps(h, WriteBlock(h, b, n, true), kept)
  {
    WriteBlockKeeps(h, b, true, {b, b + n}, kept);
    BlockWords(h, b);
    assert {b, b + n} - {b} == {b + n};
  }

  lemma BlockWhole(h: State, b: int, hole: set<int>)
    requires Inv(h, hole) && b in hole
    ensures Whole(BlocksOf(h), b)
  {
    BlocksInside(h.size, h.base, h.brk);
  }

  lemma BlockIs(h: State, b: int, hole: set<int>)
    requires Inv(h, hole) && b in h.size
    ensures b % 16 == 0 && h.size[b] % 16 == 0 && h.size[b] >= 32
  {
    assert BlockAt(h.size, h.base, h.brk, b);
  }

  lemma FreeBlockTag(h: State, b: int)
    requires Inv(h, {}) && b in h.rank
    ensures b in h.words && Reads(h.words[b], h.size[b], true)
  {
    TaggedReads(h, b, {});
  }

  lemma FreeBlockNext(h: State, b: int)
    requires Linked(h) && b in h.rank
    ensures b + 8 in h.words
    ensures var n := h.words[b + 8];
            && (n != 0 ==> n in h.rank && h.rank[n] < h.rank[b])
            && (forall c :: c in h.rank && h.rank[c] < h.rank[b] ==> n != 0 && h.rank[c] <= h.rank[n])
    ensures forall c :: c in h.rank && h.rank[c] == h.rank[b] ==> c == b
  {
    assert LinkedAt(h, b);
    assert Next(h.words, b) == h.words[b + 8];
  }

  /** Tagging the block that a moved break has made room for. */
  lemma NewBlockTagged(h: State, total: int, end: int, kept: set<int>)
    requires Inv(h, {}) && kept <= Allocated(h)
    requires total % 16 == 0 && 32 <= total && h.brk + total <= MAX_BREAK
    requires h.words.Keys == Span(0, end) && h.brk + total <= end
    ensures h.brk in h.words && h.brk + total - 4 in h.words && h.brk !in h.size
    ensures var h' := WriteBlock(Extend(h, total), h.brk, total, true);
            Inv(h', {}) && Keeps(h, h', kept)
  {
    var h1 := Extend(h, total);
    assert h.brk !in h.size && Inv(h1, {h.brk}) && Keeps(h, h1, kept) by {
      SpanGrows(h.base, h.brk + total, 0, end);
      ExtendKeeps(h, total, kept);
    }
    assert h1.size[h.brk] == total && kept <= Allocated(h1) - {h.brk};
    TagLast(h1, h.brk, kept);
    KeepsTrans(h, h1, WriteBlock(h1, h.brk, total, true), kept);
  }

  /** Tagging the one block whose tags are missing. */
  lemma TagLast(h: State, b: int, kept: set<int>)
    requires Inv(h, {b}) && b in h.size && kept <= Allocated(h) - {b}
    ensures b in h.words && b + h.size[b] - 4 in h.words && 0 <= h.size[b] < MAX_BREAK
    ensures Inv(WriteBlock(h, b, h.size[b], true), {}) && Keeps(h, WriteBlock(h, b, h.size[b], true), kept)
  {
    BlockWords(h, b);
    WriteBlockKeeps(h, b, true, {b}, kept);
    assert {b} - {b} == {};
  }

  lemma AllocatedFlag(h: State, b: int)
    requires Inv(h, {}) && b in h.size
    ensures b in h.words && Reads(h.words[b], h.size[b], b in h.rank)
  {
    TaggedReads(h, b, {});
  }

  lemma AllocatedTag(h: State, b: int)
    requires Inv(h, {}) && b in Allocated(h)
    ensures b in h.words && Reads(h.words[b], h.size[b], false) && h.size[b] >= 32
    ensures b % 16 == 0 && h.size[b] % 16 == 0 && b >= 16
  {
    TaggedReads(h, b, {});
    assert BlockAt(h.size, h.base, h.brk, b);
  }

  /** `h'` is `h` with one more allocated block, of at least `requested` usable bytes, at `p`;
      the payloads of all other allocated blocks are untouched. */
  ghost predicate Granted(h: State, h': State, p: int, requested: int) {
    && p > 0 && p - 16 in h'.size && p - 16 !in Allocated(h)
    && Allocated(h') == Allocated(h) + {p - 16}
    && Holds(h'.size[p - 16], requested)
    && Keeps(h, h', Allocated(h))
  }

  /** A block of this size has the bytes requested, and not 32 more. */
  ghost predicate Holds(size: int, requested: int) {
    requested <= size - 20 < requested + 32 && 0 < size - 20
  }

  // ---- the blocks of a heap --------------------------------------------------

  /** The blocks of a heap without their contents: sizes, and which are free, in which order. */
  datatype Blocks = Blocks(base: int, brk: int, size: map<int, int>, rank: map<int, nat>, clock: nat)

  ghost function BlocksOf(h: State): Blocks {
    Blocks(h.base, h.brk, h.size, h.rank, h.clock)
  }

  /** A free block that can hold `total` bytes. */
  ghost predicate Fits(a: Blocks, b: int, total: int) {
    b in a.rank && b in a.size && total <= a.size[b]
  }

  ghost predicate HasFit(a: Blocks, total: int) {
    exists b :: Fits(a, b, total)
  }

  /** The first such block in list order. */
  ghost predicate FirstFit(a: Blocks, b: int, total: int) {
    Fits(a, b, total) && forall c :: Fits(a, c, total) ==> a.rank[c] <= a.rank[b]
  }

  ghost function SizeAt(a: Blocks, b: int): int {
    if b in a.size then a.size[b] else 0
  }

  /** The place of a free block in the list, the head being highest, or -1. */
  ghost function RankAt(a: Blocks, b: int): int {
    if b in a.rank then a.rank[b] else -1
  }

  /** `b` leaves the list; what it has beyond `total`, if that makes a block, goes to its head. No
      other block changes. */
  ghost predicate Takes(a: Blocks, b: int, total: int, c: Blocks) {
    var rest := SizeAt(a, b) - total;
    && c.base == a.base && c.brk == a.brk && c.clock == a.clock + (if rest >= 32 then 1 else 0)
    && (forall x {:trigger SizeAt(c, x)} ::
          SizeAt(c, x) == if x == b && rest >= 32 then total
                          else if x == b + total && rest >= 32 then rest
                          else SizeAt(a, x))
    && (forall x {:trigger RankAt(c, x)} ::
          RankAt(c, x) == if x == b then -1
                          else if x == b + total && rest >= 32 then a.clock
                          else RankAt(a, x))
  }

  /** A block of `total` bytes is put at the break. */
  ghost predicate Grows(a: Blocks, total: int, c: Blocks) {
    c == a.(brk := a.brk + total, size := a.size[a.brk := total])
  }

  /** What `malloc` does for a block of `total` bytes: take the first free block that fits; if there
      is none, put a block at the break, or refuse. */
  ghost predicate Serves(a: Blocks, total: int, p: int, c: Blocks) {
    if HasFit(a, total) then p > 0 && FirstFit(a, p - 16, total) && Takes(a, p - 16, total, c)
    else (p == 0 && c == a) || (p == a.brk + 16 && p != 0 && Grows(a, total, c))
  }

  /** A free block that ends at `b`. */
  ghost predicate EndsAt(a: Blocks, lo: int, b: int) {
    RankAt(a, lo) >= 0 && lo + SizeAt(a, lo) == b
  }

  /** `lo` begins the free block that ends at `b`, or is `b` if none does. */
  ghost predicate JoinsBelow(a: Blocks, b: int, lo: int) {
    if lo == b then forall c :: !EndsAt(a, c, b) else EndsAt(a, lo, b)
  }

  /** Where the free block that begins at `end` ends, or `end` if none does. */
  ghost function High(a: Blocks, end: int): int {
    if RankAt(a, end) >= 0 then end + SizeAt(a, end) else end
  }

  /** `b` and the free blocks beside it become one, from `lo` on, at the head of the list. No other
      block changes. */
  ghost predicate Joins(a: Blocks, b: int, lo: int, c: Blocks) {
    var next := b + SizeAt(a, b);
    && JoinsBelow(a, b, lo) && c.base == a.base && c.brk == a.brk && c.clock == a.clock + 1
    && (forall x {:trigger SizeAt(c, x)} ::
          SizeAt(c, x) == if x == lo then High(a, next) - lo
                          else if x == b || (x == next && RankAt(a, next) >= 0) then 0
                          else SizeAt(a, x))
    && (forall x {:trigger RankAt(c, x)} ::
          RankAt(c, x) == if x == lo then a.clock else if x == b || x == next then -1 else RankAt(a, x))
  }

  /** What `free` does. */
  ghost predicate Releases(a: Blocks, b: int, c: Blocks) {
    exists lo :: Joins(a, b, lo, c)
  }

  /** Block `b` seen as two. */
  ghost function Sliced(a: Blocks, b: int, n: int): Blocks {
    a.(size := a.size[b := n][b + n := SizeAt(a, b) - n])
  }

  /** Of block `b`, `n` bytes from `prefix` on are kept. What is above goes to the list together with
      the free block it meets, and then what is below, which begins at `lo`, likewise. No other
      block changes. */
  ghost predicate Carves(a: Blocks, b: int, prefix: int, n: int, lo: int, c: Blocks) {
    var kept, end := b + prefix, b + SizeAt(a, b);
    var top := kept + n;
    && (if prefix == 0 then lo == b else JoinsBelow(a, b, lo)) && c.base == a.base && c.brk == a.brk
    && c.clock == a.clock + (if top < end then 1 else 0) + (if 0 < prefix then 1 else 0)
    && (forall x {:trigger SizeAt(c, x)} {:trigger RankAt(c, x)} :: CarvedAt(a, b, prefix, n, lo, c, x))
  }

  /** What becomes of block `x`. */
  ghost predicate CarvedAt(a: Blocks, b: int, prefix: int, n: int, lo: int, c: Blocks, x: int) {
    var kept, end := b + prefix, b + SizeAt(a, b);
    var top := kept + n;
    if x == kept then SizeAt(c, x) == n && RankAt(c, x) == -1
    else if x == top && top < end then SizeAt(c, x) == High(a, end) - top && RankAt(c, x) == a.clock
    else if x == lo && 0 < prefix then SizeAt(c, x) == kept - lo && RankAt(c, x) == c.clock - 1
    else if x == b || (x == end && top < end && RankAt(a, end) >= 0) then SizeAt(c, x) == 0 && RankAt(c, x) == -1
    else SizeAt(c, x) == SizeAt(a, x) && RankAt(c, x) == RankAt(a, x)
  }

  lemma CutIsCutTop(h: State, b: int, n: int)
    requires b in h.size && LinkedPart(h, b)
    ensures BlocksOf(Cut(h, b, n)) == CutTop(BlocksOf(h), b, n)
  {
  }

  lemma SplitIsSliced(h: State, b: int, n: int)
    requires b in h.size
    ensures BlocksOf(Split(h, b, n)) == Sliced(BlocksOf(h), b, n)
  {
  }

  /** How much of `room` bytes a block for `bytes` takes: all of it if the rest makes no block. */
  ghost function Kept(room: int, bytes: nat): int {
    if room - Total(bytes) >= 32 then Total(bytes) else room
  }

  /** What `malloc` does with any request. */
  ghost predicate Mallocs(a: Blocks, bytes: nat, p: int, c: Blocks) {
    if Total(bytes) <= LARGEST then Serves(a, Total(bytes), p, c) else p == 0 && c == a
  }

  /** What `allocate_aligned` does: `malloc`, or for an alignment above 16 a larger `malloc` at
      `raw` of which it keeps what starts at the first suitable address. */
  ghost predicate Aligns(a: Blocks, alignment: nat, bytes: nat, p: int, c: Blocks) {
    if alignment <= 16 then Mallocs(a, bytes, p, c)
    else if bytes + alignment + 32 > LARGEST - 35 then p == 0 && c == a
    else exists raw, mid, prefix, n, lo :: AlignsVia(a, alignment, bytes, raw, mid, prefix, n, lo, p, c)
  }

  /** The same with the block of that `malloc` at `raw`, the gap left below and the bytes kept. */
  ghost predicate AlignsVia(a: Blocks, alignment: nat, bytes: nat, raw: int, mid: Blocks, prefix: int, n: int, lo: int,
                            p: int, c: Blocks) {
    && Mallocs(a, bytes + alignment + 32, raw, mid)
    && if raw == 0 then p == 0 && c == mid else Shifts(mid, alignment, bytes, raw, prefix, n, lo, p, c)
  }

  /** Of the block granted at `raw`, `n` bytes from the first suitable address on are kept. */
  ghost predicate Shifts(mid: Blocks, alignment: nat, bytes: nat, raw: int, prefix: int, n: int, lo: int, p: int,
                         c: Blocks) {
    && p == raw + prefix && Gap(raw, alignment, prefix)
    && n == Kept(SizeAt(mid, raw - 16) - prefix, bytes) && Carves(mid, raw - 16, prefix, n, lo, c)
  }

  lemma ShiftsVia(mid: Blocks, alignment: nat, bytes: nat, raw: int, prefix: int, n: int, lo: int, c: Blocks)
    requires Gap(raw, alignment, prefix) && n == Kept(SizeAt(mid, raw - 16) - prefix, bytes)
    requires Carves(mid, raw - 16, prefix, n, lo, c)
    ensures Shifts(mid, alignment, bytes, raw, prefix, n, lo, raw + prefix, c) && AlignedTo(raw + prefix, alignment)
  {
  }

  /** What `realloc` does for bytes: `malloc`, then `free` the old block unless that failed. */
  ghost predicate Reallocs(a: Blocks, ptr: int, bytes: nat, r: int, c: Blocks) {
    exists mid :: Mallocs(a, bytes, r, mid) && if r == 0 then c == mid else Releases(mid, ptr - 16, c)
  }

  const LARGEST: int := 0x7fff_fff0

  /** The steps of `release_block`. */
  ghost function AbsorbUpper(a: Blocks, b: int): Blocks {
    var next := b + SizeAt(a, b);
    if next in a.rank
    then a.(size := (a.size - {next})[b := SizeAt(a, b) + SizeAt(a, next)], rank := a.rank - {next})
    else a
  }

  ghost function AbsorbLower(a: Blocks, b: int, lo: int): Blocks {
    if lo == b then a
    else a.(size := (a.size - {b})[lo := SizeAt(a, lo) + SizeAt(a, b)], rank := a.rank - {lo})
  }

  ghost function Pushed(a: Blocks, b: int): Blocks {
    a.(rank := a.rank[b := a.clock], clock := a.clock + 1)
  }

  /** The lower part of a free block, with the upper part on no list. */
  ghost function CutTop(a: Blocks, b: int, n: int): Blocks
    requires b in a.size
  {
    a.(size := a.size[b := n][b + n := a.size[b] - n], rank := a.rank - {b})
  }

  lemma EndsBelow(a: Blocks, b: int, c: int)
    requires SizeAt(a, b) > 0 && (RankAt(a, b + SizeAt(a, b)) >= 0 ==> SizeAt(a, b + SizeAt(a, b)) > 0)
    requires RankAt(a, b) == -1
    ensures EndsAt(AbsorbUpper(a, b), c, b) <==> EndsAt(a, c, b)
  {
  }

  lemma JoinedAt(a: Blocks, b: int, lo: int, x: int)
    requires b in a.size && b !in a.rank && SizeAt(a, b) > 0 && (lo == b || EndsAt(a, lo, b))
    requires a.rank.Keys <= a.size.Keys && (RankAt(a, b + SizeAt(a, b)) >= 0 ==> SizeAt(a, b + SizeAt(a, b)) > 0)
    ensures var c, next := Pushed(AbsorbLower(AbsorbUpper(a, b), b, lo), lo), b + SizeAt(a, b);
            && SizeAt(c, x) == (if x == lo then High(a, next) - lo
                                else if x == b || (x == next && RankAt(a, next) >= 0) then 0
                                else SizeAt(a, x))
            && RankAt(c, x) == (if x == lo then a.clock else if x == b || x == next then -1 else RankAt(a, x))
  {
  }

  lemma ReleaseSteps(a: Blocks, b: int, lo: int)
    requires b in a.size && b !in a.rank && a.rank.Keys <= a.size.Keys && a.size[b] > 0
    requires b + a.size[b] in a.rank ==> a.size[b + a.size[b]] > 0
    requires JoinsBelow(AbsorbUpper(a, b), b, lo)
    ensures Joins(a, b, lo, Pushed(AbsorbLower(AbsorbUpper(a, b), b, lo), lo))
  {
    forall c
      ensures EndsAt(AbsorbUpper(a, b), c, b) <==> EndsAt(a, c, b)
    {
      EndsBelow(a, b, c);
    }
    forall x
      ensures var c, next := Pushed(AbsorbLower(AbsorbUpper(a, b), b, lo), lo), b + SizeAt(a, b);
              && SizeAt(c, x) == (if x == lo then High(a, next) - lo
                                  else if x == b || (x == next && RankAt(a, next) >= 0) then 0
                                  else SizeAt(a, x))
              && RankAt(c, x) == (if x == lo then a.clock else if x == b || x == next then -1 else RankAt(a, x))
    {
      JoinedAt(a, b, lo, x);
    }
  }

  lemma ClearIsLowest(h: State, b: int)
    requires h.rank.Keys <= h.size.Keys && LeftClear(h, b)
    ensures forall c :: !EndsAt(BlocksOf(h), c, b)
  {
    forall c | c in h.rank
      ensures c + h.size[c] != b
    {
      assert Succ(h.size, c) != b;
    }
  }

  lemma NeighboursBig(h: State, hole: set<int>, b: int)
    requires Inv(h, hole) && b in h.size
    ensures h.size[b] > 0 && (b + h.size[b] in h.rank ==> h.size[b + h.size[b]] > 0)
  {
    assert BlockAt(h.size, h.base, h.brk, b);
    assert b + h.size[b] in h.size ==> BlockAt(h.size, h.base, h.brk, b + h.size[b]);
  }

  /** What freeing the tail and then the prefix of a block comes to. */
  lemma CarveSteps(a: Blocks, b: int, prefix: int, n: int, mid: Blocks, lo: int, c: Blocks)
    requires Whole(a, b) && 0 < prefix && 0 < n && prefix + n <= a.size[b]
    requires Carves(Sliced(a, b, prefix), b + prefix, 0, n, b + prefix, mid) && Joins(mid, b, lo, c)
    ensures Carves(a, b, prefix, n, lo, c)
  {
    forall x
      ensures EndsAt(mid, x, b) <==> EndsAt(a, x, b)
    {
      CarveEnds(a, b, prefix, n, mid, x);
    }
    forall x
      ensures CarvedAt(a, b, prefix, n, lo, c, x)
    {
      CarveStepsAt(a, b, prefix, n, mid, lo, c, x);
    }
  }

  /** An allocated block among blocks that do not overlap. */
  ghost predicate Whole(a: Blocks, b: int) {
    && Separate(a.size) && a.rank.Keys <= a.size.Keys && b in a.size && b !in a.rank
    && forall x :: x in a.size ==> a.size[x] > 0
  }

  lemma CarveEnds(a: Blocks, b: int, prefix: int, n: int, mid: Blocks, x: int)
    requires Whole(a, b) && 0 < prefix && 0 < n && prefix + n <= a.size[b]
    requires Carves(Sliced(a, b, prefix), b + prefix, 0, n, b + prefix, mid)
    ensures EndsAt(mid, x, b) <==> EndsAt(a, x, b)
  {
    SlicedAt(a, b, prefix, x);
    SlicedAt(a, b, prefix, b + a.size[b]);
  }

  lemma SlicedAt(a: Blocks, b: int, n: int, x: int)
    requires Whole(a, b) && 0 < n < a.size[b]
    ensures RankAt(Sliced(a, b, n), x) == RankAt(a, x) && RankAt(a, b) == -1
    ensures SizeAt(Sliced(a, b, n), x) == if x == b then n else if x == b + n then a.size[b] - n else SizeAt(a, x)
    ensures b < x < b + a.size[b] ==> SizeAt(a, x) == 0 && RankAt(a, x) == -1
  {
  }

  lemma CarveStepsAt(a: Blocks, b: int, prefix: int, n: int, mid: Blocks, lo: int, c: Blocks, x: int)
    requires Whole(a, b) && 0 < prefix && 0 < n && prefix + n <= a.size[b]
    requires Carves(Sliced(a, b, prefix), b + prefix, 0, n, b + prefix, mid) && Joins(mid, b, lo, c)
    ensures CarvedAt(a, b, prefix, n, lo, c, x)
  {
    SlicedAt(a, b, prefix, x);
    SlicedAt(a, b, prefix, b + a.size[b]);
    SlicedAt(a, b, prefix, b);
    SlicedAt(a, b, prefix, b + prefix);
  }

  lemma ReleaseIs(h: State, hole: set<int>, b: int, lo: int, mid: Blocks, c: Blocks)
    requires Inv(h, hole) && b in Allocated(h) && JoinsBelow(AbsorbUpper(BlocksOf(h), b), b, lo)
    requires mid == AbsorbLower(AbsorbUpper(BlocksOf(h), b), b, lo) && c == Pushed(mid, lo)
    ensures Joins(BlocksOf(h), b, lo, c)
  {
    NeighboursBig(h, hole, b);
    ReleaseSteps(BlocksOf(h), b, lo);
  }

  /** What cutting a free block in two and pushing the upper part comes to. */
  lemma TakeSteps(a: Blocks, b: int, total: int)
    requires b in a.size && a.size[b] - total >= 32 && total > 0 && b + total !in a.size
    ensures Takes(a, b, total, Pushed(CutTop(a, b, total), b + total))
  {
  }

  lemma TakeWholeStep(a: Blocks, b: int, total: int)
    requires b in a.size && a.size[b] - total < 32
    ensures Takes(a, b, total, a.(rank := a.rank - {b}))
  {
  }

  /** Keeping all of a block. */
  lemma TrimNothing(a: Blocks, b: int)
    requires b in a.size && b !in a.rank
    ensures Carves(a, b, 0, a.size[b], b, a)
  {
  }

  /** Only `b` ends where it is cut, so what is above it has nothing to join below. */
  lemma NothingBelow(a: Blocks, b: int, n: int, lo: int)
    requires Whole(a, b) && 0 < n < a.size[b]
    ensures !EndsAt(Sliced(a, b, n), lo, b + n)
  {
    SlicedAt(a, b, n, lo);
    if lo in a.size {
      assert lo < b ==> lo + a.size[lo] <= b;
      assert b < lo ==> b + a.size[b] <= lo;
    }
  }

  lemma TrimSteps(a: Blocks, b: int, n: int, lo: int, c: Blocks)
    requires Whole(a, b) && 0 < n < a.size[b] && Joins(Sliced(a, b, n), b + n, lo, c)
    ensures Carves(a, b, 0, n, b, c)
  {
    NothingBelow(a, b, n, lo);
    SlicedAt(a, b, n, b + n);
    SlicedAt(a, b, n, b + a.size[b]);
    forall x
      ensures CarvedAt(a, b, 0, n, b, c, x)
    {
      SlicedAt(a, b, n, x);
    }
  }

  lemma GrantedLive(h: State, h': State, p: int, requested: nat)
    requires Inv(h, {}) && Granted(h, h', p, requested)
    ensures p !in Live(h) && Live(h') - {p} == Live(h)
    ensures p in Live(h') && requested <= |Live(h')[p]| < requested + 32
  {
    LiveStep(h, h', {}, {p - 16});
    LiveAt(h, p);
    LiveAt(h', p);
    assert Pointers({}) == {} && Pointers({p - 16}) == {p};
    assert Live(h) - {} == Live(h);
  }

  lemma FreeLive(h: State, h': State, b: int)
    requires Inv(h, {}) && Allocated(h') == Allocated(h) - {b} && Keeps(h, h', Allocated(h) - {b})
    ensures Live(h') == Live(h) - {b + 16}
  {
    assert Pointers({}) == {};
    assert Live(h') - {} == Live(h');
    if b in Allocated(h) {
      LiveStep(h, h', {b}, {});
      assert Pointers({b}) == {b + 16};
    } else {
      FreeNothing(h, h', b);
    }
  }

  lemma FreeNothing(h: State, h': State, b: int)
    requires Inv(h, {}) && Allocated(h') == Allocated(h) - {b} && Keeps(h, h', Allocated(h) - {b})
    requires b !in Allocated(h)
    ensures Live(h') == Live(h) - {b + 16}
  {
    assert Pointers({}) == {};
    assert Live(h') - {} == Live(h');
    assert Live(h) - {b + 16} == Live(h) - {} by {
      LiveAt(h, b + 16);
    }
    assert Allocated(h) - {b} == Allocated(h) - {} == Allocated(h);
    LiveStep(h, h', {}, {});
  }

  lemma OutsideHeap(size: map<int, int>, base: int, brk: int, ptr: int)
    requires Tiled(size, base, brk)
    requires ptr == 0 || !(base <= (ptr - 16) % 0x1_0000_0000 < brk)
    ensures ptr - 16 !in size
  {
    BlocksInside(size, base, brk);
  }

  lemma FreeOutside(h: State, ptr: int, initialized: bool)
    requires if initialized then Tiled(h.size, h.base, h.brk) else h.size == map[]
    requires ptr == 0 || !(h.base <= (ptr - 16) % 0x1_0000_0000 < h.brk)
    ensures Live(h) - {ptr} == Live(h)
  {
    if initialized {
      OutsideHeap(h.size, h.base, h.brk, ptr);
    }
    LiveAt(h, ptr);
  }

  lemma LivePointer(h: State, p: int, initialized: bool)
    requires if initialized then Tiled(h.size, h.base, h.brk) else h.size == map[]
    requires p in Live(h)
    ensures initialized && p - 16 in Allocated(h) && 0 < p <= U32_MAX && Live(h)[p] == Payload(h, p - 16)
  {
    LiveAt(h, p);
    if initialized {
      BlocksInside(h.size, h.base, h.brk);
    }
  }

  lemma NullIsNotLive(h: State, initialized: bool)
    requires if initialized then Tiled(h.size, h.base, h.brk) else h.size == map[]
    ensures Live(h) - {0} == Live(h)
  {
    FreeOutside(h, 0, initialized);
  }

  /** At least `n` bytes, the first `n` of them zero. */
  ghost predicate Zeroed(bytes: seq<int>, n: int) {
    n <= |bytes| && forall i :: 0 <= i < n ==> bytes[i] == 0
  }

  /** The first `n` bytes agree, as far as both go. */
  ghost predicate StartsAlike(now: seq<int>, was: seq<int>, n: nat) {
    var k := if |was| < n then |was| else n;
    k <= |now| && now[..k] == was[..k]
  }

  lemma WordBelow(p: int, i: nat)
    requires p % 4 == 0
    ensures p <= p + i - (p + i) % 4 <= p + i
  {
  }

  lemma FourAligned(b: int)
    requires b % 16 == 0
    ensures (b + 16) % 4 == 0
  {
    assert b + 16 == 4 * (4 * (b / 16) + 4);
  }

  lemma PayloadInMemory(h: State, b: int)
    requires Inv(h, {}) && b in h.size
    ensures (b + 16) % 4 == 0 && h.size[b] >= 32
    ensures forall a :: b + 16 <= a < b + h.size[b] - 4 ==> a - a % 4 in h.words
    ensures forall c :: c in h.size && c != b ==> c + h.size[c] <= b || b + h.size[b] <= c
  {
    assert BlockAt(h.size, h.base, h.brk, b);
    FourAligned(b);
    forall a | b + 16 <= a < b + h.size[b] - 4
      ensures a - a % 4 in h.words
    {
      PayloadWord(h.base, h.brk, b, h.size[b], a);
    }
  }

  lemma PayloadStart(h: State, b: int, n: nat)
    requires b in h.size && n <= h.size[b] - 20
    ensures n <= |Payload(h, b)| && Payload(h, b)[..n] == Contents(h.words, b + 16, n)
  {
  }

  /** A byte store into an allocated payload, on the map of live allocations. */
  lemma StoreLive(h: State, p: int, i: nat, v: Byte)
    requires Inv(h, {}) && p in Live(h) && i < |Live(h)[p]|
    ensures p + i - (p + i) % 4 in h.words
    ensures var h' := h.(words := PutByte(h.words, p + i, v));
            Inv(h', {}) && h'.words.Keys == h.words.Keys && Live(h') == Live(h)[p := Live(h)[p][i := v]]
  {
    StoreKeeps(h, p, i, v);
    var h' := h.(words := PutByte(h.words, p + i, v));
    var was, now := Live(h), Live(h');
    forall q
      ensures q in now <==> q in was
      ensures q in now && q in was ==> now[q] == if q == p then was[p][i := v] else was[q]
    {
      StoreLiveAt(h, h', p, i, v, q);
    }
  }

  lemma StoreKeeps(h: State, p: int, i: nat, v: Byte)
    requires Inv(h, {}) && p in Live(h) && i < |Live(h)[p]|
    ensures p + i - (p + i) % 4 in h.words
    ensures var h' := h.(words := PutByte(h.words, p + i, v));
            && Inv(h', {}) && h'.words.Keys == h.words.Keys && Keeps(h, h', Allocated(h) - {p - 16})
            && forall x :: ByteAt(h'.words, x) == if x == p + i then v else ByteAt(h.words, x)
  {
    LiveAt(h, p);
    PayloadInMemory(h, p - 16);
    PutByteIs(h.words, p + i, v);
    WordBelow(p, i);
    PayloadWriteKeeps(h, h.(words := PutByte(h.words, p + i, v)), p - 16);
  }

  lemma StoreLiveAt(h: State, h': State, p: int, i: nat, v: Byte, q: int)
    requires Inv(h, {}) && p in Live(h) && i < |Live(h)[p]| && h' == h.(words := h'.words)
    requires Inv(h', {}) && Keeps(h, h', Allocated(h) - {p - 16})
    requires forall x :: ByteAt(h'.words, x) == if x == p + i then v else ByteAt(h.words, x)
    ensures q in Live(h') <==> q in Live(h)
    ensures q in Live(h) ==> Live(h')[q] == if q == p then Live(h)[p][i := v] else Live(h)[q]
  {
    LiveAt(h, q);
    LiveAt(h', q);
    if q in Live(h) && q != p {
      PayloadKept(h, h', {}, Allocated(h) - {p - 16}, q - 16);
    }
  }

  /** Filling a block that has just been granted. */
  lemma GrantedThenFilled(h: State, h1: State, h2: State, p: int, requested: nat)
    requires Inv(h, {}) && Granted(h, h1, p, requested)
    requires h2 == h1.(words := h2.words) && Keeps(h1, h2, Allocated(h1) - {p - 16})
    ensures Granted(h, h2, p, requested)
    ensures p !in Live(h) && Live(h2) - {p} == Live(h)
    ensures p in Live(h2) && requested <= |Live(h2)[p]| < requested + 32 && Live(h2)[p] == Payload(h2, p - 16)
  {
    assert Allocated(h1) - {p - 16} == Allocated(h);
    KeepsTrans(h, h1, h2, Allocated(h));
    GrantedLive(h, h2, p, requested);
    LiveAt(h2, p);
  }

  /** `h'` is `h` with block `b` exchanged for a new block `c` that starts with the same bytes. */
  ghost predicate Moved(h: State, h': State, b: int, c: int, requested: nat) {
    && b in Allocated(h) && c in h'.size && c !in Allocated(h)
    && Allocated(h') == Allocated(h) - {b} + {c}
    && Keeps(h, h', Allocated(h) - {b})
    && Holds(h'.size[c], requested)
    && StartsAlike(Payload(h', c), Payload(h, b), requested)
  }

  lemma CopySteps(h: State, h1: State, h2: State, b: int, c: int, requested: nat)
    requires Inv(h, {}) && b in Allocated(h) && Granted(h, h1, c + 16, requested)
    requires h2 == h1.(words := h2.words) && Keeps(h1, h2, Allocated(h1) - {c})
    requires StartsAlike(Payload(h2, c), Payload(h1, b), requested)
    ensures Granted(h, h2, c + 16, requested)
    ensures StartsAlike(Payload(h2, c), Payload(h, b), requested)
  {
    assert Allocated(h1) - {c} == Allocated(h);
    KeepsTrans(h, h1, h2, Allocated(h));
    PayloadKept(h, h1, {}, Allocated(h), b);
  }

  lemma MoveSteps(h: State, h1: State, h2: State, b: int, c: int, requested: nat)
    requires b in Allocated(h) && Granted(h, h1, c + 16, requested)
    requires Inv(h1, {}) && StartsAlike(Payload(h1, c), Payload(h, b), requested)
    requires Allocated(h2) == Allocated(h1) - {b} && Keeps(h1, h2, Allocated(h1) - {b})
    ensures Moved(h, h2, b, c, requested)
  {
    var kept := Allocated(h) - {b};
    KeepsLess(h, h1, kept, Allocated(h));
    KeepsLess(h1, h2, kept, Allocated(h1) - {b});
    KeepsTrans(h, h1, h2, kept);
    PayloadKept(h1, h2, {}, Allocated(h1) - {b}, c);
  }

  lemma MovedLive(h: State, h': State, ptr: int, r: int, requested: nat)
    requires Inv(h, {}) && Moved(h, h', ptr - 16, r - 16, requested)
    ensures r !in Live(h) && Live(h') - {r} == Live(h) - {ptr}
    ensures r in Live(h') && requested <= |Live(h')[r]| < requested + 32
    ensures ptr in Live(h) && StartsAlike(Live(h')[r], Live(h)[ptr], requested)
  {
    assert Live(h') - {r} == Live(h) - {ptr} by {
      LiveStep(h, h', {ptr - 16}, {r - 16});
      assert Pointers({ptr - 16}) == {ptr} && Pointers({r - 16}) == {r};
    }
    LiveAt(h, ptr);
    LiveAt(h, r);
    LiveAt(h', r);
  }

  lemma TailTagged(h: State, b: int, hole: set<int>, kept: set<int>)
    requires Inv(h, hole + {b}) && b in h.size && b !in hole && kept <= Allocated(h) && b !in kept
    ensures 0 <= h.size[b] < MAX_BREAK && b in h.words && b + h.size[b] - 4 in h.words
    ensures var h' := WriteBlock(h, b, h.size[b], true);
            Inv(h', hole) && Keeps(h, h', kept) && h'.words.Keys == h.words.Keys
  {
    BlockWords(h, b);
    WriteBlockKeeps(h, b, true, hole + {b}, kept);
    assert hole + {b} - {b} == hole;
  }

  /** Splitting off the tail, with neither part tagged yet. */
  lemma TailSplit(h: State, b: int, n: int, hole: set<int>, kept: set<int>)
    requires Inv(h, hole + {b}) && b in h.size && b !in hole && forall c :: c in hole ==> c < b
    requires kept == Allocated(h) - {b} && n % 16 == 0 && 32 <= n <= h.size[b] - 32
    ensures var h' := Split(h, b, n);
            && b + n !in h.size
            && Inv(h', (hole + {b + n}) + {b}) && Keeps(h, h', kept)
            && Allocated(h') == Allocated(h) + {b + n}
            && Succ(h'.size, b + n) !in hole && HoleBelow(h', hole, b + n)
  {
    SplitKeeps(h, b, n, hole + {b}, kept);
    assert hole + {b} + {b + n} == (hole + {b + n}) + {b};
    SplitAboveHole(h, b, n, hole);
  }

  lemma SplitAboveHole(h: State, b: int, n: int, hole: set<int>)
    requires Separate(h.size) && hole <= h.size.Keys && b in h.size && n > 0
    requires forall c :: c in hole ==> c < b
    ensures HoleBelow(Split(h, b, n), hole, b + n)
  {
  }

  lemma PrefixSplit(h: State, b: int, n: int, kept: set<int>)
    requires Inv(h, {b}) && n % 16 == 0 && 32 <= n <= h.size[b] - 32 && kept == Allocated(h) - {b}
    ensures var h' := Split(h, b, n);
            && b + n !in h.size && Inv(h', {b} + {b + n}) && Keeps(h, h', kept)
            && Allocated(h') == Allocated(h) + {b + n}
  {
    SplitKeeps(h, b, n, {b}, kept);
  }

  lemma TailReleased(h: State, h1: State, h2: State, b: int, kept: set<int>)
    requires Keeps(h, h1, kept) && Keeps(h1, h2, kept + {b}) && b in h1.size
    ensures Keeps(h, h2, kept) && b in h2.size && h2.size[b] == h1.size[b]
  {
    KeepsLess(h1, h2, kept, kept + {b});
    KeepsTrans(h, h1, h2, kept);
  }

  /** A block cut in two, and the upper part given back. */
  lemma TailDone(h: State, h1: State, h2: State, b: int, n: int, lo: int, kept: set<int>)
    requires Whole(BlocksOf(h), b) && 0 < n < h.size[b] && kept == Allocated(h) - {b} && b + n !in kept
    requires BlocksOf(h1) == Sliced(BlocksOf(h), b, n) && Keeps(h, h1, kept) && b in h1.size && h1.size[b] == n
    requires Allocated(h1) == Allocated(h) + {b + n} && b in Allocated(h)
    requires Joins(BlocksOf(h1), b + n, lo, BlocksOf(h2)) && Allocated(h2) == Allocated(h1) - {b + n}
    requires Keeps(h1, h2, Allocated(h1) - {b + n})
    ensures b in h2.size && h2.size[b] == n && Allocated(h2) == Allocated(h) && Keeps(h, h2, kept)
    ensures Carves(BlocksOf(h), b, 0, n, b, BlocksOf(h2))
  {
    TrimSteps(BlocksOf(h), b, n, lo, BlocksOf(h2));
    KeepsLess(h1, h2, kept + {b}, Allocated(h1) - {b + n});
    TailReleased(h, h1, h2, b, kept);
  }

  /** The upper part of a block handed out, and then the lower part given back. */
  lemma BothDone(h: State, h1: State, h2: State, b: int, c: int)
    requires b in Allocated(h) && c !in Allocated(h) && c in h1.size
    requires Allocated(h1) == Allocated(h) + {c} && Keeps(h, h1, Allocated(h) - {b})
    requires Allocated(h2) == Allocated(h1) - {b} && Keeps(h1, h2, Allocated(h1) - {b})
    ensures Allocated(h2) == Allocated(h) - {b} + {c} && Keeps(h, h2, Allocated(h) - {b})
    ensures c in h2.size && h2.size[c] == h1.size[c]
  {
    var kept := Allocated(h) - {b};
    assert kept + {c} == Allocated(h1) - {b};
    TailReleased(h, h1, h2, c, kept);
  }

  /** A free block handed out in part, and then the rest put back on the list. */
  lemma SplitDone(h: State, h1: State, h2: State, b: int, kept: set<int>)
    requires Keeps(h, h1, kept) && Keeps(h1, h2, kept + {b})
    ensures Keeps(h, h2, kept)
  {
    KeepsLess(h1, h2, kept, kept + {b});
    KeepsTrans(h, h1, h2, kept);
  }

  lemma SixteenDivides(p: int, n: nat)
    requires p % 16 == 0 && (n == 1 || n == 2 || n == 4 || n == 8 || n == 16)
    ensures AlignedTo(p, n)
  {
    var m := p / 16;
    assert Times(16 * m, 1) == Times(8 * m, 2) == Times(4 * m, 4) == Times(2 * m, 8) == Times(m, 16) == p;
  }

  lemma SmallAlignment(h: State, p: int, alignment: nat)
    requires Inv(h, {}) && p - 16 in Allocated(h) && IsPowerOfTwo(alignment) && alignment <= 16
    ensures AlignedTo(p, alignment)
  {
    AllocatedTag(h, p - 16);
    SmallPowerOfTwo(alignment);
    SixteenDivides(p, alignment);
  }

  /** Carving an aligned block out of one that has just been granted. */
  lemma GrantedThenCarved(h: State, h1: State, h2: State, block: int, prefix: int, reserve: int, bytes: nat)
    requires Inv(h1, {}) && Granted(h, h1, block + 16, reserve)
    requires Allocated(h2) == Allocated(h1) - {block} + {block + prefix}
    requires block + prefix in h2.size && Holds(h2.size[block + prefix], bytes)
    requires Keeps(h1, h2, Allocated(h1) - {block})
    requires 0 <= prefix < h1.size[block]
    ensures Granted(h, h2, block + prefix + 16, bytes)
  {
    assert Allocated(h1) - {block} == Allocated(h);
    KeepsTrans(h, h1, h2, Allocated(h));
    assert block + prefix !in Allocated(h) by {
      assert prefix > 0 ==> block + prefix !in h1.size;
    }
  }
}
