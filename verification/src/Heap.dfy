/** The boundary-tag heap of src/aux/libc/allocator.c as a value.

    `words` is linear memory seen as little-endian 32-bit words at aligned
    addresses; every access the allocator makes is aligned. `size` and `rank`
    are the abstract heap: the blocks with their sizes, and the free blocks
    ranked by their place in the free list (higher ranks are nearer the head). */
module Heap {
  import opened LinearMemory

  const MAX_BREAK: int := 0x7fff_ffff

  datatype State = State(
    words: map<int, Word>,
    base: int,
    brk: int,
    head: int,
    size: map<int, int>,
    rank: map<int, nat>,
    clock: nat)

  /** The address right after block `b`. */
  ghost function Succ(size: map<int, int>, b: int): int
    requires b in size
  {
    b + size[b]
  }

  function Prev(words: map<int, Word>, b: int): int
    requires b + 4 in words
  {
    words[b + 4]
  }

  function Next(words: map<int, Word>, b: int): int
    requires b + 8 in words
  {
    words[b + 8]
  }

  /** `size | allocated` for a flag in bit 0. */
  function Tag(size: int, taken: bool): int {
    if taken && size % 2 == 0 then size + 1 else size
  }

  /** `tag & ~1`. */
  function TagSize(tag: int): int {
    tag - tag % 2
  }

  /** What reading a tag word tells: the size, and whether the block is free. */
  ghost predicate Reads(tag: int, size: int, free: bool) {
    TagSize(tag) == size && (tag % 2 == 0 <==> free)
  }

  lemma TagReads(size: int, taken: bool)
    requires size % 16 == 0
    ensures Reads(Tag(size, taken), size, !taken)
  {
  }

  // ---- the heap invariant, clause by clause -------------------------------

  /** Block `b` is well sized and followed by a block or the break. */
  ghost predicate BlockAt(size: map<int, int>, base: int, brk: int, b: int)
    requires b in size
  {
    && base <= b && b % 16 == 0 && size[b] % 16 == 0 && size[b] >= 32
    && b + size[b] <= brk
    && (b + size[b] == brk || b + size[b] in size)
  }

  /** Blocks tile the heap: see `TilingIsExact` for what this amounts to. */
  ghost predicate Tiled(size: map<int, int>, base: int, brk: int) {
    && 16 <= base <= brk <= MAX_BREAK && base % 16 == 0 && brk % 16 == 0
    && (base < brk ==> base in size)
    && (forall b {:trigger BlockAt(size, base, brk, b)} :: b in size ==> BlockAt(size, base, brk, b))
    && Separate(size)
  }

  ghost predicate Separate(size: map<int, int>) {
    forall b, c {:trigger size[b], size[c]} :: b in size && c in size && b < c ==> b + size[b] <= c
  }

  /** The word addresses from `lo` up to `hi`. */
  ghost function Span(lo: int, hi: int): set<int> {
    set a | lo <= a < hi && a % 4 == 0
  }

  ghost predicate Backed(h: State) {
    Span(h.base, h.brk) <= h.words.Keys
  }

  ghost predicate TaggedAt(h: State, b: int)
    requires b in h.size
  {
    var tag := Tag(h.size[b], b !in h.rank);
    && b in h.words && h.words[b] == tag
    && b + h.size[b] - 4 in h.words && h.words[b + h.size[b] - 4] == tag
  }

  /** Both tags of every block outside `hole` give its size and its free/allocated state. */
  ghost predicate Tagged(h: State, hole: set<int>) {
    forall b {:trigger TaggedAt(h, b)} :: b in h.size && b !in hole ==> TaggedAt(h, b)
  }

  /** The link words of free block `b`: its neighbours in the list point back at it
      and ranks descend. */
  ghost predicate LinksAt(h: State, b: int)
    requires b in h.rank
  {
    && b + 4 in h.words && b + 8 in h.words && h.rank[b] < h.clock
    && (Next(h.words, b) != 0 ==>
          var n := Next(h.words, b);
          n in h.rank && n + 4 in h.words && h.rank[n] < h.rank[b] && Prev(h.words, n) == b)
    && (Prev(h.words, b) != 0 ==>
          var p := Prev(h.words, b);
          p in h.rank && p + 8 in h.words && Next(h.words, p) == b)
    && (Prev(h.words, b) == 0 <==> h.head == b)
  }

  /** No free block ranks between `b` and the next one in the list. */
  ghost predicate OrderAt(h: State, b: int)
    requires b in h.rank && LinksAt(h, b)
  {
    forall c :: c in h.rank && h.rank[c] < h.rank[b] ==>
      Next(h.words, b) != 0 && h.rank[c] <= h.rank[Next(h.words, b)]
  }

  ghost predicate LinkedAt(h: State, b: int)
    requires b in h.rank
  {
    LinksAt(h, b) && OrderAt(h, b)
  }

  /** The free blocks form one doubly linked list from `head`: see `FreeListIsExact`. */
  ghost predicate Linked(h: State) {
    && (forall b {:trigger LinkedAt(h, b)} :: b in h.rank ==> LinkedAt(h, b))
    && (h.head != 0 ==> h.head in h.rank)
    && (forall c :: c in h.rank ==> h.head != 0 && h.rank[c] <= h.rank[h.head])
    && (forall b, c :: b in h.rank && c in h.rank && h.rank[b] == h.rank[c] ==> b == c)
  }

  /** Free blocks are blocks, and no two of them touch. */
  ghost predicate Apart(h: State) {
    && h.rank.Keys <= h.size.Keys
    && (forall b {:trigger Succ(h.size, b)} :: b in h.rank ==> Succ(h.size, b) !in h.rank)
  }

  /** The heap invariant, with the tags of the blocks in `hole` not required. */
  ghost predicate Inv(h: State, hole: set<int>) {
    && Tiled(h.size, h.base, h.brk)
    && Backed(h)
    && hole <= h.size.Keys && hole !! h.rank.Keys
    && Tagged(h, hole)
    && Linked(h)
    && Apart(h)
  }

  // ---- the block operations ------------------------------------------------

  /** `write_block`. */
  ghost function WriteBlock(h: State, b: int, size: int, taken: bool): State
    requires 0 <= size < MAX_BREAK
  {
    h.(words := h.words[b := Tag(size, taken)][b + size - 4 := Tag(size, taken)])
  }

  /** `remove_free`. */
  function RemoveFree(h: State, b: int): State
    requires b + 4 in h.words && b + 8 in h.words
  {
    var prev, next := Prev(h.words, b), Next(h.words, b);
    var w1 := if prev != 0 then h.words[prev + 8 := next] else h.words;
    var w2 := if next != 0 then w1[next + 4 := prev] else w1;
    h.(words := w2, head := if prev != 0 then h.head else next, rank := h.rank - {b})
  }

  /** `insert_free`. */
  ghost function InsertFree(h: State, b: int): State
    requires 0 <= h.head <= MAX_BREAK && 0 <= b <= MAX_BREAK
  {
    var w1 := h.words[b + 4 := 0][b + 8 := h.head];
    var w2 := if h.head != 0 then w1[h.head + 4 := b] else w1;
    h.(words := w2, head := b, rank := h.rank[b := h.clock], clock := h.clock + 1)
  }

  /** Two neighbouring blocks seen as one. */
  ghost function Merge(h: State, b: int, c: int): State
    requires b in h.size && c in h.size
  {
    h.(size := (h.size - {c})[b := h.size[b] + h.size[c]])
  }

  /** One block seen as two, the first of size `n`. */
  function Split(h: State, b: int, n: int): State
    requires b in h.size
  {
    h.(size := h.size[b := n][b + n := h.size[b] - n])
  }

  /** The blocks handed out to the program. */
  ghost function Allocated(h: State): set<int> {
    h.size.Keys - h.rank.Keys
  }

  /** Every payload word of the blocks in `kept` is as it was. */
  ghost predicate Keeps(h: State, h': State, kept: set<int>) {
    && h.words.Keys <= h'.words.Keys
    && (forall c :: c in kept ==>
          c in h.size && c in h'.size && h'.size[c] == h.size[c] && c !in h.rank && c !in h'.rank)
    && (forall c, a {:trigger c in kept, h'.words[a]} ::
          c in kept && a in h.words && c + 16 <= a < c + h.size[c] - 4 ==> h'.words[a] == h.words[a])
  }

  // ---- what each block operation keeps -------------------------------------

  ghost predicate FreeAligned(h: State) {
    forall y :: y in h.rank ==> y % 16 == 0 && 16 <= y
  }

  lemma FreeBlocksAligned(h: State)
    requires Tiled(h.size, h.base, h.brk) && Apart(h)
    ensures FreeAligned(h) && FreeBig(h)
  {
    forall y | y in h.rank
      ensures y % 16 == 0 && 16 <= y && h.size[y] >= 32
    {
      assert BlockAt(h.size, h.base, h.brk, y);
    }
  }

  ghost predicate FreeBig(h: State) {
    forall y :: y in h.rank ==> y in h.size && h.size[y] >= 32
  }

  ghost predicate LinkedPart(h: State, b: int) {
    && b + 4 in h.words && b + 8 in h.words
    && (Next(h.words, b) != 0 ==> Next(h.words, b) in h.rank && Next(h.words, b) + 4 in h.words)
    && (Prev(h.words, b) != 0 ==> Prev(h.words, b) in h.rank && Prev(h.words, b) + 8 in h.words)
  }

  /** The list survives any change of memory that leaves the link words alone. */
  lemma LinkedFrame(h: State, h': State)
    requires Linked(h)
    requires h'.rank == h.rank && h'.head == h.head && h'.clock == h.clock
    requires h.words.Keys <= h'.words.Keys
    requires forall y :: y in h.rank && y + 4 in h.words ==> h'.words[y + 4] == h.words[y + 4]
    requires forall y :: y in h.rank && y + 8 in h.words ==> h'.words[y + 8] == h.words[y + 8]
    ensures Linked(h')
  {
    forall x | x in h'.rank
      ensures LinkedAt(h', x)
    {
      assert LinkedAt(h, x);
    }
  }

  /** A word inside block `p` is not a payload word of another block. */
  lemma PayloadsApart(size: map<int, int>, p: int, kept: set<int>, a: int)
    requires Separate(size) && p in size && p !in kept && p <= a < p + size[p]
    ensures forall c :: c in kept && c in size ==> !(c + 16 <= a < c + size[c] - 4)
  {
  }

  /** Tags survive any change of memory that leaves the tag words alone. */
  lemma TaggedFrame(h: State, h': State, hole: set<int>, hole': set<int>)
    requires Tagged(h, hole) && Tiled(h.size, h.base, h.brk)
    requires h'.size == h.size && h'.words.Keys == h.words.Keys
    requires forall x :: x in h.size && x !in hole' ==> x !in hole && (x in h.rank <==> x in h'.rank)
    requires forall a :: a in h.words && (a % 16 == 0 || a % 16 == 12) ==> h'.words[a] == h.words[a]
    ensures Tagged(h', hole')
  {
    forall x | x in h'.size && x !in hole'
      ensures TaggedAt(h', x)
    {
      assert TaggedAt(h, x) && BlockAt(h.size, h.base, h.brk, x);
      TagPlaces(x, h.size[x]);
    }
  }

  lemma TagPlaces(b: int, n: int)
    requires b % 16 == 0 && n % 16 == 0
    ensures (b + n - 4) % 16 == 12
  {
  }

  lemma RemoveFreeLinksAt(h: State, b: int, x: int)
    requires FreeAligned(h)
    requires b in h.rank && LinksAt(h, b) && x in h.rank && LinksAt(h, x) && x != b
    ensures LinksAt(RemoveFree(h, b), x)
    ensures Next(RemoveFree(h, b).words, x) ==
            if x == Prev(h.words, b) then Next(h.words, b) else Next(h.words, x)
  {
    var h' := RemoveFree(h, b);
    var prev, next := Prev(h.words, b), Next(h.words, b);
    assert Next(h'.words, x) == if x == prev then next else Next(h.words, x);
    assert Prev(h'.words, x) == if x == next then prev else Prev(h.words, x);
  }

  lemma RemoveFreeLinks(h: State, b: int)
    requires Linked(h) && FreeAligned(h)
    requires b in h.rank && b + 4 in h.words && b + 8 in h.words
    ensures Linked(RemoveFree(h, b))
  {
    var h' := RemoveFree(h, b);
    assert LinkedAt(h, b);
    forall x | x in h'.rank
      ensures LinkedAt(h', x)
    {
      assert LinkedAt(h, x);
      RemoveFreeLinksAt(h, b, x);
    }
  }

  lemma RemoveFreePayloads(h: State, b: int, kept: set<int>)
    requires Separate(h.size) && FreeBig(h) && LinkedPart(h, b)
    requires kept <= Allocated(h)
    ensures Keeps(h, RemoveFree(h, b), kept)
  {
    var prev, next := Prev(h.words, b), Next(h.words, b);
    if prev != 0 {
      PayloadsApart(h.size, prev, kept, prev + 8);
    }
    if next != 0 {
      PayloadsApart(h.size, next, kept, next + 4);
    }
  }

  lemma RemoveFreeTags(h: State, b: int, hole: set<int>)
    requires Tiled(h.size, h.base, h.brk) && Tagged(h, hole)
    requires FreeAligned(h) && LinkedPart(h, b)
    ensures Tagged(RemoveFree(h, b), hole + {b})
  {
    TaggedFrame(h, RemoveFree(h, b), hole, hole + {b});
  }

  lemma RemoveFreeKeeps(h: State, b: int, hole: set<int>, kept: set<int>)
    requires Inv(h, hole) && b in h.rank
    requires kept <= Allocated(h)
    ensures b + 4 in h.words && b + 8 in h.words
    ensures Inv(RemoveFree(h, b), hole + {b})
    ensures Keeps(h, RemoveFree(h, b), kept)
  {
    assert LinkedAt(h, b);
    var h' := RemoveFree(h, b);
    FreeBlocksAligned(h);
    RemoveFreeLinks(h, b);
    RemoveFreePayloads(h, b, kept);
    RemoveFreeTags(h, b, hole);
  }

  lemma InsertFreeLinksAt(h: State, b: int, x: int)
    requires FreeAligned(h)
    requires b !in h.rank && b % 16 == 0 && 16 <= b <= MAX_BREAK
    requires 0 <= h.head <= MAX_BREAK && (h.head != 0 ==> h.head in h.rank && LinksAt(h, h.head))
    requires x in h.rank ==> LinksAt(h, x) && h.head != 0
    requires x in h.rank || x == b
    ensures LinksAt(InsertFree(h, b), x)
    ensures x != b ==> Next(InsertFree(h, b).words, x) == Next(h.words, x)
  {
    var h' := InsertFree(h, b);
    if x != b {
      assert Next(h'.words, x) == Next(h.words, x);
      assert Prev(h'.words, x) == if x == h.head then b else Prev(h.words, x);
    }
  }

  lemma InsertFreeLinks(h: State, b: int)
    requires Linked(h) && FreeAligned(h)
    requires b !in h.rank && b % 16 == 0 && 16 <= b <= MAX_BREAK
    requires 0 <= h.head <= MAX_BREAK
    ensures Linked(InsertFree(h, b))
  {
    var h' := InsertFree(h, b);
    if h.head != 0 {
      assert LinkedAt(h, h.head);
    }
    forall x | x in h.rank
      ensures h.rank[x] < h.clock
    {
      assert LinkedAt(h, x);
    }
    forall x | x in h'.rank
      ensures LinkedAt(h', x)
    {
      if x != b {
        assert LinkedAt(h, x);
      }
      InsertFreeLinksAt(h, b, x);
    }
  }

  lemma InsertFreePayloads(h: State, b: int, kept: set<int>)
    requires Separate(h.size) && FreeBig(h)
    requires h.head != 0 ==> h.head in h.rank && h.head + 4 in h.words
    requires 0 <= h.head <= MAX_BREAK && 0 <= b <= MAX_BREAK
    requires b in h.size && h.size[b] >= 32 && b + 4 in h.words && b + 8 in h.words
    requires kept <= Allocated(h) && b !in kept
    ensures Keeps(h, InsertFree(h, b), kept)
  {
    PayloadsApart(h.size, b, kept, b + 4);
    PayloadsApart(h.size, b, kept, b + 8);
    if h.head != 0 {
      PayloadsApart(h.size, h.head, kept, h.head + 4);
    }
  }

  /** Link words sit at offsets 4 and 8, never where tags are. */
  lemma LinkOffsets(b: int)
    requires b % 16 == 0
    ensures (b + 4) % 16 == 4 && (b + 8) % 16 == 8
  {
  }

  lemma Sum16(a: int, b: int)
    requires a % 16 == 0 && b % 16 == 0
    ensures (a + b) % 16 == 0 && (a - b) % 16 == 0
  {
  }

  lemma InsertFreeTags(h: State, b: int, hole: set<int>)
    requires Tiled(h.size, h.base, h.brk) && Tagged(h, hole) && b in h.size && b in hole
    requires 0 <= h.head <= MAX_BREAK && h.head % 16 == 0 && 0 <= b <= MAX_BREAK && b % 16 == 0
    requires b in h.words && h.words[b] == h.size[b]
    requires b + h.size[b] - 4 in h.words && h.words[b + h.size[b] - 4] == h.size[b]
    requires b + 4 in h.words && b + 8 in h.words && (h.head != 0 ==> h.head + 4 in h.words)
    ensures Tagged(InsertFree(h, b), hole - {b})
  {
    var h' := InsertFree(h, b);
    LinkOffsets(b);
    LinkOffsets(h.head);
    TaggedFrame(h, h', hole, hole);
    assert BlockAt(h.size, h.base, h.brk, b);
    assert TaggedAt(h', b);
  }

  lemma SpanAt(lo: int, hi: int, b: int, k: int)
    requires lo <= b + k < hi && b % 16 == 0 && k % 4 == 0
    ensures b + k in Span(lo, hi)
  {
  }

  lemma FourWords(base: int, brk: int, b: int, size: int)
    requires base <= b && b + size <= brk && b % 16 == 0 && size % 16 == 0 && size >= 32
    ensures b in Span(base, brk) && b + 4 in Span(base, brk) && b + 8 in Span(base, brk)
    ensures b + size - 4 in Span(base, brk)
  {
    SpanAt(base, brk, b, 0);
    SpanAt(base, brk, b, 4);
    SpanAt(base, brk, b, 8);
    SpanAt(base, brk, b + size, -4);
  }

  lemma BlockWords(h: State, b: int)
    requires Tiled(h.size, h.base, h.brk) && Backed(h) && b in h.size
    ensures b in h.words && b + 4 in h.words && b + 8 in h.words && b + h.size[b] - 4 in h.words
    ensures b % 16 == 0 && 16 <= b <= MAX_BREAK && 32 <= h.size[b] < MAX_BREAK
  {
    assert BlockAt(h.size, h.base, h.brk, b);
    FourWords(h.base, h.brk, b, h.size[b]);
  }

  lemma InsertFreeApart(h: State, b: int)
    requires Apart(h) && b in h.size && Succ(h.size, b) !in h.rank && LeftClear(h, b)
    requires h.size[b] > 0
    requires 0 <= h.head <= MAX_BREAK && 0 <= b <= MAX_BREAK
    ensures Apart(InsertFree(h, b))
  {
  }

  lemma InsertFreeKeeps(h: State, b: int, hole: set<int>, kept: set<int>)
    requires Inv(h, hole) && b in hole
    requires b in h.words && h.words[b] == h.size[b]
    requires b + h.size[b] - 4 in h.words && h.words[b + h.size[b] - 4] == h.size[b]
    requires Succ(h.size, b) !in h.rank
    requires LeftClear(h, b)
    requires kept <= Allocated(h) && b !in kept
    ensures 0 <= h.head <= MAX_BREAK && 0 <= b <= MAX_BREAK
    ensures Inv(InsertFree(h, b), hole - {b})
    ensures Keeps(h, InsertFree(h, b), kept)
  {
    BlockWords(h, b);
    if h.head != 0 {
      BlockWords(h, h.head);
    }
    var h' := InsertFree(h, b);
    assert Linked(h') by {
      FreeBlocksAligned(h);
      InsertFreeLinks(h, b);
    }
    assert Keeps(h, h', kept) by {
      FreeBlocksAligned(h);
      InsertFreePayloads(h, b, kept);
    }
    assert Tagged(h', hole - {b}) by {
      InsertFreeTags(h, b, hole);
    }
    assert Apart(h') by {
      InsertFreeApart(h, b);
    }
  }

  lemma WriteBlockPayloads(h: State, b: int, taken: bool, kept: set<int>)
    requires Separate(h.size) && b in h.size && 32 <= h.size[b] < MAX_BREAK
    requires b in h.words && b + h.size[b] - 4 in h.words
    requires kept <= Allocated(h) && b !in kept
    ensures Keeps(h, WriteBlock(h, b, h.size[b], taken), kept)
  {
    PayloadsApart(h.size, b, kept, b);
    PayloadsApart(h.size, b, kept, b + h.size[b] - 4);
  }

  lemma WriteBlockTags(h: State, b: int, taken: bool, hole: set<int>)
    requires Tiled(h.size, h.base, h.brk) && Tagged(h, hole)
    requires b in h.size && b in hole && 32 <= h.size[b] < MAX_BREAK
    ensures Tagged(WriteBlock(h, b, h.size[b], taken), hole)
  {
    var h' := WriteBlock(h, b, h.size[b], taken);
    assert BlockAt(h.size, h.base, h.brk, b);
    forall x | x in h'.size && x !in hole
      ensures TaggedAt(h', x)
    {
      assert BlockAt(h.size, h.base, h.brk, x) && TaggedAt(h, x);
    }
  }

  lemma WriteBlockKeeps(h: State, b: int, taken: bool, hole: set<int>, kept: set<int>)
    requires Inv(h, hole) && b in hole
    requires kept <= Allocated(h) && b !in kept
    ensures 0 <= h.size[b] < MAX_BREAK
    ensures Inv(WriteBlock(h, b, h.size[b], taken), if taken then hole - {b} else hole)
    ensures Keeps(h, WriteBlock(h, b, h.size[b], taken), kept)
  {
    BlockWords(h, b);
    var h' := WriteBlock(h, b, h.size[b], taken);
    assert Linked(h') by {
      FreeBlocksAligned(h);
      LinkedFrame(h, h');
    }
    WriteBlockTags(h, b, taken, hole);
    WriteBlockPayloads(h, b, taken, kept);
    if taken {
      assert TaggedAt(h', b);
    }
  }

  lemma MergeSeparate(size: map<int, int>, b: int, c: int)
    requires Separate(size) && b in size && c in size && b + size[b] == c && size[b] > 0
    ensures Separate((size - {c})[b := size[b] + size[c]])
  {
  }

  lemma MergeTiles(size: map<int, int>, base: int, brk: int, b: int, c: int)
    requires Tiled(size, base, brk) && b in size && c in size && Succ(size, b) == c
    ensures Tiled((size - {c})[b := size[b] + size[c]], base, brk)
  {
    var size' := (size - {c})[b := size[b] + size[c]];
    assert BlockAt(size, base, brk, b) && BlockAt(size, base, brk, c);
    MergeSeparate(size, b, c);
    Sum16(size[b], size[c]);
    forall x | x in size'
      ensures BlockAt(size', base, brk, x)
    {
      assert BlockAt(size, base, brk, x);
    }
  }

  lemma MergeKeeps(h: State, b: int, c: int, hole: set<int>, kept: set<int>)
    requires Inv(h, hole) && b in hole && c in hole && Succ(h.size, b) == c
    requires kept <= Allocated(h) && b !in kept && c !in kept
    ensures Inv(Merge(h, b, c), hole - {c})
    ensures Keeps(h, Merge(h, b, c), kept)
  {
    var h' := Merge(h, b, c);
    assert b + h.size[b] == c && h.size[b] > 0 by {
      assert BlockAt(h.size, h.base, h.brk, b);
    }
    assert Tiled(h'.size, h'.base, h'.brk) by {
      MergeTiles(h.size, h.base, h.brk, b, c);
    }
    assert Linked(h') by {
      LinkedFrame(h, h');
    }
    assert Tagged(h', hole - {c}) && Apart(h') by {
      MergeTags(h, b, c, hole);
    }
  }

  lemma MergeTags(h: State, b: int, c: int, hole: set<int>)
    requires b in h.size && c in h.size && b != c && b in hole && c in hole && hole !! h.rank.Keys
    requires Tagged(h, hole) && Apart(h)
    ensures Tagged(Merge(h, b, c), hole - {c}) && Apart(Merge(h, b, c))
  {
    var h' := Merge(h, b, c);
    forall x | x in h'.rank
      ensures Succ(h'.size, x) !in h'.rank
    {
      assert Succ(h.size, x) !in h.rank;
    }
    forall x | x in h'.size && x !in hole - {c}
      ensures TaggedAt(h', x)
    {
      assert x != c && x in h.size;
      assert TaggedAt(h, x);
    }
  }

  lemma SplitSeparate(size: map<int, int>, b: int, n: int)
    requires Separate(size) && b in size && 0 < n < size[b]
    ensures b + n !in size
    ensures Separate(size[b := n][b + n := size[b] - n])
  {
  }

  lemma SplitTiles(size: map<int, int>, base: int, brk: int, b: int, n: int)
    requires Tiled(size, base, brk) && b in size
    requires n % 16 == 0 && 32 <= n <= size[b] - 32
    ensures b + n !in size
    ensures Tiled(size[b := n][b + n := size[b] - n], base, brk)
  {
    var size' := size[b := n][b + n := size[b] - n];
    assert BlockAt(size, base, brk, b);
    SplitSeparate(size, b, n);
    Sum16(b, n);
    Sum16(size[b], n);
    forall x | x in size'
      ensures BlockAt(size', base, brk, x)
    {
      if x != b + n {
        assert BlockAt(size, base, brk, x);
      }
    }
  }

  lemma SplitKeeps(h: State, b: int, n: int, hole: set<int>, kept: set<int>)
    requires Inv(h, hole) && b in hole
    requires n % 16 == 0 && 32 <= n <= h.size[b] - 32
    requires kept <= Allocated(h) && b !in kept
    ensures b + n !in h.size
    ensures Inv(Split(h, b, n), hole + {b + n})
    ensures Keeps(h, Split(h, b, n), kept)
  {
    var h' := Split(h, b, n);
    SplitTiles(h.size, h.base, h.brk, b, n);
    LinkedFrame(h, h');
    SplitApart(h, b, n);
    forall x | x in h'.size && x !in hole + {b + n}
      ensures TaggedAt(h', x)
    {
      assert TaggedAt(h, x);
    }
  }

  lemma SplitApart(h: State, b: int, n: int)
    requires b in h.size && b !in h.rank && b + n !in h.size && n > 0
    requires forall x :: x in h.rank ==> x in h.size && Succ(h.size, x) !in h.rank
    ensures forall x :: x in h.rank ==> Succ(Split(h, b, n).size, x) !in h.rank
  {
    var h' := Split(h, b, n);
    forall x | x in h.rank
      ensures Succ(h'.size, x) !in h.rank
    {
      assert Succ(h'.size, x) == Succ(h.size, x);
    }
  }

  ghost predicate SameMetadata(h: State, h': State, x: int)
    requires x in h.size && h.words.Keys <= h'.words.Keys
  {
    && (x in h.words ==> h'.words[x] == h.words[x])
    && (x + h.size[x] - 4 in h.words ==> h'.words[x + h.size[x] - 4] == h.words[x + h.size[x] - 4])
    && (x in h.rank && x + 4 in h.words ==> h'.words[x + 4] == h.words[x + 4])
    && (x in h.rank && x + 8 in h.words ==> h'.words[x + 8] == h.words[x + 8])
  }

  /** The invariant survives any change of memory that leaves tags and links alone:
      stores outside the heap, growth of linear memory, stores into payloads. */
  lemma MetadataFrame(h: State, h': State, hole: set<int>)
    requires Inv(h, hole)
    requires h' == h.(words := h'.words) && h.words.Keys <= h'.words.Keys
    requires forall x {:trigger SameMetadata(h, h', x)} :: x in h.size ==> SameMetadata(h, h', x)
    ensures Inv(h', hole)
  {
    forall y | y in h.rank
      ensures y + 4 in h.words ==> h'.words[y + 4] == h.words[y + 4]
      ensures y + 8 in h.words ==> h'.words[y + 8] == h.words[y + 8]
    {
      assert SameMetadata(h, h', y);
    }
    LinkedFrame(h, h');
    forall x | x in h'.size && x !in hole
      ensures TaggedAt(h', x)
    {
      assert TaggedAt(h, x) && SameMetadata(h, h', x);
    }
  }

  lemma OutsideFrame(h: State, h': State, hole: set<int>, kept: set<int>)
    requires Inv(h, hole) && kept <= Allocated(h)
    requires h' == h.(words := h'.words) && h.words.Keys <= h'.words.Keys
    requires forall a :: a in h.words && h.base <= a < h.brk ==> h'.words[a] == h.words[a]
    ensures Inv(h', hole) && Keeps(h, h', kept)
  {
    forall x | x in h.size
      ensures SameMetadata(h, h', x)
      ensures h.base <= x && x + h.size[x] <= h.brk
    {
      assert BlockAt(h.size, h.base, h.brk, x);
    }
    MetadataFrame(h, h', hole);
  }

  /** Extending the break by one block, still untagged. */
  ghost function Extend(h: State, total: int): State {
    h.(brk := h.brk + total, size := h.size[h.brk := total])
  }

  lemma BlocksInside(size: map<int, int>, base: int, brk: int)
    requires Tiled(size, base, brk)
    ensures forall b :: b in size ==> base <= b < b + size[b] <= brk
  {
    forall b | b in size
      ensures base <= b < b + size[b] <= brk
    {
      assert BlockAt(size, base, brk, b);
    }
  }

  lemma SpanGrows(lo: int, hi: int, lo': int, hi': int)
    requires lo' <= lo && hi <= hi'
    ensures Span(lo, hi) <= Span(lo', hi')
  {
  }

  lemma ExtendTiles(size: map<int, int>, base: int, brk: int, total: int)
    requires Tiled(size, base, brk)
    requires total % 16 == 0 && total >= 32 && brk + total <= MAX_BREAK
    ensures brk !in size
    ensures Tiled(size[brk := total], base, brk + total)
  {
    var size' := size[brk := total];
    BlocksInside(size, base, brk);
    forall x | x in size'
      ensures BlockAt(size', base, brk + total, x)
    {
      if x != brk {
        assert BlockAt(size, base, brk, x);
        ExtendBlock(size, base, brk, total, x);
      } else {
        Sum16(brk, total);
      }
    }
    assert (brk + total) % 16 == 0 by {
      Sum16(brk, total);
    }
  }

  lemma ExtendBlock(size: map<int, int>, base: int, brk: int, total: int, x: int)
    requires x in size && x != brk && BlockAt(size, base, brk, x) && 0 <= total
    ensures BlockAt(size[brk := total], base, brk + total, x)
  {
  }

  lemma ExtendKeeps(h: State, total: int, kept: set<int>)
    requires Inv(h, {}) && kept <= Allocated(h)
    requires total % 16 == 0 && total >= 32 && h.brk + total <= MAX_BREAK
    requires Span(h.base, h.brk + total) <= h.words.Keys
    ensures h.brk !in h.size
    ensures Inv(Extend(h, total), {h.brk})
    ensures Keeps(h, Extend(h, total), kept)
  {
    var h' := Extend(h, total);
    ExtendTiles(h.size, h.base, h.brk, total);
    LinkedFrame(h, h');
    forall x | x in h'.rank
      ensures Succ(h'.size, x) !in h'.rank
    {
      assert Succ(h.size, x) !in h.rank;
    }
    forall x | x in h'.size && x !in {h.brk}
      ensures TaggedAt(h', x)
    {
      assert TaggedAt(h, x);
    }
  }

  // ---- releasing a block: the two coalescing steps ---------------------------

  /** A block about to be retagged joins the hole. */
  lemma OpenBlock(h: State, b: int, hole: set<int>)
    requires Inv(h, hole) && b in Allocated(h)
    ensures Inv(h, hole + {b})
  {
  }

  /** Remove free block `c` from the list and join it to its neighbour: `b` is the lower one. */
  ghost function Absorb(h: State, c: int, b: int, n: int): State
    requires c + 4 in h.words && c + 8 in h.words
    requires b in h.size && n in h.size
  {
    Merge(RemoveFree(h, c), b, n)
  }

  /** Removing a block from the list does not touch its header. */
  lemma RemoveFreeHeader(h: State, b: int)
    requires FreeAligned(h) && b in h.rank && LinkedPart(h, b) && b in h.words
    ensures RemoveFree(h, b).words[b] == h.words[b]
  {
  }

  lemma AbsorbNextKeeps(h: State, b: int, hole: set<int>, kept: set<int>)
    requires Inv(h, hole) && b in hole && Succ(h.size, b) in h.rank
    requires kept <= Allocated(h) && b !in kept
    ensures var n := Succ(h.size, b);
            && n + 4 in h.words && n + 8 in h.words
            && Inv(Absorb(h, n, b, n), hole)
            && Keeps(h, Absorb(h, n, b, n), kept)
            && Allocated(Absorb(h, n, b, n)) == Allocated(h)
            && Succ(Absorb(h, n, b, n).size, b) !in Absorb(h, n, b, n).rank
  {
    var n := Succ(h.size, b);
    RemoveFreeKeeps(h, n, hole, kept);
    var h1 := RemoveFree(h, n);
    MergeKeeps(h1, b, n, hole + {n}, kept);
    assert hole + {n} - {n} == hole;
    assert Succ(h.size, n) !in h.rank;
  }

  lemma AbsorbPrevKeeps(h: State, p: int, b: int, hole: set<int>, kept: set<int>)
    requires Inv(h, hole) && b in hole && p in h.rank && Succ(h.size, p) == b
    requires Succ(h.size, b) !in h.rank
    requires kept <= Allocated(h) && b !in kept
    ensures p + 4 in h.words && p + 8 in h.words
    ensures Inv(Absorb(h, p, p, b), hole - {b} + {p})
    ensures Keeps(h, Absorb(h, p, p, b), kept)
    ensures Allocated(Absorb(h, p, p, b)) == Allocated(h) - {b} + {p}
    ensures Succ(Absorb(h, p, p, b).size, p) !in Absorb(h, p, p, b).rank
    ensures LeftClear(Absorb(h, p, p, b), p)
  {
    RemoveFreeKeeps(h, p, hole, kept);
    var h1 := RemoveFree(h, p);
    MergeKeeps(h1, p, b, hole + {p}, kept);
    assert hole + {p} - {b} == hole - {b} + {p};
    var h' := Absorb(h, p, p, b);
    forall c | c in h'.rank
      ensures Succ(h'.size, c) != p
    {
      assert Succ(h.size, c) !in h.rank;
    }
  }

  /** No free block ends where `b` begins. */
  ghost predicate LeftClear(h: State, b: int)
    requires h.rank.Keys <= h.size.Keys
  {
    forall c {:trigger Succ(h.size, c)} :: c in h.rank ==> Succ(h.size, c) != b
  }

  /** The word just below an inner block is the footer of its predecessor. */
  lemma LowerNeighbour(h: State, b: int, hole: set<int>) returns (p: int)
    requires Inv(h, hole) && b in h.size && h.base < b
    requires forall c {:trigger Succ(h.size, c)} :: c in h.size && Succ(h.size, c) == b ==> c !in hole
    ensures p in h.size && Succ(h.size, p) == b && p !in hole
    ensures b - 4 in h.words && Reads(h.words[b - 4], h.size[p], p in h.rank)
    ensures p in h.words && Reads(h.words[p], h.size[p], p in h.rank)
    ensures h.size[p] >= 32 && p >= h.base
    ensures p !in h.rank ==> LeftClear(h, b)
  {
    p := PredecessorExists(h.size, h.base, h.brk, b);
    assert Succ(h.size, p) == b;
    TaggedReads(h, p, hole);
    NotBelow(h, p, b);
  }

  lemma NotBelow(h: State, p: int, b: int)
    requires Tiled(h.size, h.base, h.brk) && Apart(h) && p in h.size && Succ(h.size, p) == b
    ensures p !in h.rank ==> LeftClear(h, b)
  {
    BlocksInside(h.size, h.base, h.brk);
    forall c | c in h.rank && p !in h.rank
      ensures Succ(h.size, c) != b
    {
      assert c < p ==> c + h.size[c] <= p;
      assert p < c ==> p + h.size[p] <= c;
    }
  }

  lemma TaggedReads(h: State, b: int, hole: set<int>)
    requires Tiled(h.size, h.base, h.brk) && Tagged(h, hole) && b in h.size && b !in hole
    ensures b in h.words && Reads(h.words[b], h.size[b], b in h.rank)
    ensures b + h.size[b] - 4 in h.words && Reads(h.words[b + h.size[b] - 4], h.size[b], b in h.rank)
    ensures h.base <= b && h.size[b] >= 32
  {
    assert TaggedAt(h, b) && BlockAt(h.size, h.base, h.brk, b);
    TagReads(h.size[b], b !in h.rank);
  }

  /** What stands right after a block. */
  lemma UpperNeighbour(h: State, b: int, hole: set<int>)
    requires Tiled(h.size, h.base, h.brk) && Tagged(h, hole) && b in h.size && Succ(h.size, b) !in hole
    ensures var n := Succ(h.size, b);
            if n < h.brk then n in h.size && n in h.words && Reads(h.words[n], h.size[n], n in h.rank)
            else n !in h.size
  {
    var n := Succ(h.size, b);
    assert BlockAt(h.size, h.base, h.brk, b);
    BlocksInside(h.size, h.base, h.brk);
    if n < h.brk {
      TaggedReads(h, n, hole);
    }
  }

  // ---- taking a free block -----------------------------------------------------

  /** A whole free block handed out. */
  lemma TakeWhole(h: State, b: int)
    requires Inv(h, {}) && b in h.rank
    ensures LinkedPart(h, b) && 0 <= h.size[b] < MAX_BREAK
    ensures b in h.words && b + h.size[b] - 4 in h.words
    ensures var h' := WriteBlock(RemoveFree(h, b), b, h.size[b], true);
            Inv(h', {}) && Keeps(h, h', Allocated(h)) && Allocated(h') == Allocated(h) + {b}
            && h'.words.Keys == h.words.Keys
  {
    assert LinkedAt(h, b);
    BlockWords(h, b);
    RemoveFreeKeeps(h, b, {}, Allocated(h));
    var h1 := RemoveFree(h, b);
    WriteBlockKeeps(h1, b, true, {b}, Allocated(h));
    KeepsTrans(h, h1, WriteBlock(h1, b, h.size[b], true), Allocated(h));
    assert {} + {b} == {b} && {b} - {b} == {};
  }

  /** A free block taken off the list and seen as two, neither tagged yet. */
  ghost function Cut(h: State, b: int, n: int): State
    requires b in h.size && LinkedPart(h, b)
  {
    Split(RemoveFree(h, b), b, n)
  }

  lemma CutKeeps(h: State, b: int, n: int)
    requires Inv(h, {}) && b in h.rank && n % 16 == 0 && 32 <= n <= h.size[b] - 32
    ensures LinkedPart(h, b)
    ensures Inv(Cut(h, b, n), {b, b + n}) && Keeps(h, Cut(h, b, n), Allocated(h))
    ensures Allocated(Cut(h, b, n)) == Allocated(h) + {b, b + n} && b + n !in h.size
    ensures Cut(h, b, n).words.Keys == h.words.Keys
  {
    assert LinkedAt(h, b);
    var kept := Allocated(h);
    RemoveFreeKeeps(h, b, {}, kept);
    var h1 := RemoveFree(h, b);
    assert {} + {b} == {b} && {b} + {b + n} == {b, b + n};
    SplitKeeps(h1, b, n, {b}, kept);
    KeepsTrans(h, h1, Split(h1, b, n), kept);
  }

  /** The upper part of a cut block has no free neighbour. */
  lemma CutNeighbours(h: State, b: int, n: int)
    requires Inv(h, {}) && b in h.rank && 32 <= n <= h.size[b] - 32 && LinkedPart(h, b)
    requires Cut(h, b, n).rank.Keys <= Cut(h, b, n).size.Keys
    ensures Succ(Cut(h, b, n).size, b + n) !in Cut(h, b, n).rank
    ensures LeftClear(Cut(h, b, n), b + n)
  {
    var h' := Cut(h, b, n);
    assert Succ(h.size, b) !in h.rank;
    forall c | c in h'.rank
      ensures Succ(h'.size, c) != b + n
    {
      assert BlockAt(h.size, h.base, h.brk, c);
    }
  }

  /** Inserting `b` stays inside memory. */
  ghost predicate InsertReady(h: State, b: int) {
    && b + 4 in h.words && b + 8 in h.words && 0 <= b <= MAX_BREAK && 0 <= h.head <= MAX_BREAK
    && (h.head != 0 ==> h.head + 4 in h.words)
  }

  lemma InsertIsReady(h: State, b: int, hole: set<int>)
    requires Inv(h, hole) && b in h.size
    ensures InsertReady(h, b)
  {
    BlockWords(h, b);
    if h.head != 0 {
      BlockWords(h, h.head);
    }
  }

  lemma KeepsTrans(h: State, h': State, h'': State, kept: set<int>)
    requires Keeps(h, h', kept) && Keeps(h', h'', kept)
    ensures Keeps(h, h'', kept)
  {
  }

  // ---- the map of live allocations -------------------------------------------

  ghost function Payload(h: State, b: int): seq<int>
    requires b in h.size
  {
    if h.size[b] < 20 then [] else Contents(h.words, b + 16, h.size[b] - 20)
  }

  ghost function Pointers(blocks: set<int>): set<int> {
    set b | b in blocks :: b + 16
  }

  lemma PointersAt(blocks: set<int>, p: int)
    ensures p in Pointers(blocks) <==> p - 16 in blocks
  {
    if p - 16 in blocks {
      assert p == (p - 16) + 16;
    }
  }

  /** What the program sees: for every live pointer, the bytes it may use. */
  ghost function Live(h: State): map<int, seq<int>> {
    map p | p in Pointers(Allocated(h)) && p - 16 in h.size :: Payload(h, p - 16)
  }

  lemma LiveAt(h: State, p: int)
    ensures p in Live(h) <==> p - 16 in Allocated(h)
    ensures p in Live(h) ==> Live(h)[p] == Payload(h, p - 16)
  {
    PointersAt(Allocated(h), p);
  }

  lemma PayloadWord(base: int, brk: int, b: int, size: int, a: int)
    requires base <= b && b + size <= brk && b % 16 == 0 && size % 16 == 0
    requires b + 16 <= a < b + size - 4
    ensures b + 16 <= a - a % 4 < b + size - 4 && a - a % 4 in Span(base, brk)
  {
    FourOf16(b);
    FourBelow(b + 16, a);
  }

  lemma FourOf16(b: int)
    requires b % 16 == 0
    ensures (b + 16) % 4 == 0
  {
  }

  /** The word of an address does not start below a word boundary that the address is above. */
  lemma FourBelow(x: int, a: int)
    requires x % 4 == 0 && x <= a
    ensures x <= a - a % 4 <= a && (a - a % 4) % 4 == 0
  {
  }

  /** Blocks whose payload words are untouched keep their contents. */
  lemma PayloadKept(h: State, h': State, hole: set<int>, kept: set<int>, b: int)
    requires Inv(h, hole) && Keeps(h, h', kept) && b in kept
    ensures Payload(h', b) == Payload(h, b)
  {
    assert BlockAt(h.size, h.base, h.brk, b);
    forall a | b + 16 <= a < b + h.size[b] - 4
      ensures ByteAt(h'.words, a) == ByteAt(h.words, a)
    {
      PayloadWord(h.base, h.brk, b, h.size[b], a);
      var q := a - a % 4;
      assert q in h.words && h'.words[q] == h.words[q];
    }
  }

  /** Stores inside one allocated payload keep the heap and every other payload. */
  lemma PayloadWriteKeeps(h: State, h': State, b: int)
    requires Inv(h, {}) && b in Allocated(h)
    requires h' == h.(words := h'.words) && h'.words.Keys == h.words.Keys
    requires forall a :: a in h.words && !(b + 16 <= a < b + h.size[b] - 4) ==> h'.words[a] == h.words[a]
    ensures Inv(h', {}) && Keeps(h, h', Allocated(h) - {b})
  {
    forall x | x in h.size
      ensures SameMetadata(h, h', x)
    {
      assert BlockAt(h.size, h.base, h.brk, x);
      assert BlockAt(h.size, h.base, h.brk, b);
    }
    MetadataFrame(h, h', {});
  }

  /** Live pointers do not overlap, and none is null. */
  lemma LiveDisjoint(h: State, p: int, q: int)
    requires Tiled(h.size, h.base, h.brk) && p in Live(h) && q in Live(h) && p < q
    ensures 0 < p && p + |Live(h)[p]| + 20 <= q && p % 16 == 0
  {
    LiveAt(h, p);
    LiveAt(h, q);
    BlocksApart(h.size, h.base, h.brk, p - 16, q - 16);
    Sum16(p - 16, 16);
  }

  lemma BlocksApart(size: map<int, int>, base: int, brk: int, b: int, c: int)
    requires Tiled(size, base, brk) && b in size && c in size && b < c
    ensures 16 <= b && b % 16 == 0 && 32 <= size[b] && b + size[b] <= c
  {
    assert BlockAt(size, base, brk, b);
  }

  /** The transition from `h` to `h'` on live allocations: `gone` are given back and
      `come` handed out, and every other allocation keeps its bytes. */
  lemma LiveStep(h: State, h': State, gone: set<int>, come: set<int>)
    requires Inv(h, {}) && Keeps(h, h', Allocated(h) - gone)
    requires gone <= Allocated(h)
    requires Allocated(h') == Allocated(h) - gone + come && come !! Allocated(h) - gone
    ensures Live(h') - Pointers(come) == Live(h) - Pointers(gone)
  {
    var l, r := Live(h') - Pointers(come), Live(h) - Pointers(gone);
    forall p
      ensures p in l <==> p in r
      ensures p in l && p in r ==> l[p] == r[p]
    {
      LiveAt(h, p);
      LiveAt(h', p);
      PointersAt(come, p);
      PointersAt(gone, p);
      if p - 16 in Allocated(h) - gone {
        PayloadKept(h, h', {}, Allocated(h) - gone, p - 16);
      }
    }
    assert l.Keys == r.Keys;
  }

  // ---- what the invariant amounts to ---------------------------------------

  /** Walking block by block from the base reaches the block that ends at `b`. */
  lemma PredecessorExists(size: map<int, int>, base: int, brk: int, b: int) returns (p: int)
    requires Tiled(size, base, brk)
    requires base < b && (b in size || b == brk)
    ensures p in size && p + size[p] == b
  {
    if b in size {
      assert BlockAt(size, base, brk, b);
    }
    p := base;
    while p + size[p] != b
      invariant p in size && p < b
      decreases b - p
    {
      assert BlockAt(size, base, brk, p);
      p := p + size[p];
    }
  }

  /** Every address of the heap lies in exactly one block: the blocks tile
      [base, brk) with no gap and no overlap. */
  lemma {:induction false} TilingIsExact(size: map<int, int>, base: int, brk: int, a: int)
    requires Tiled(size, base, brk) && base <= a < brk
    ensures exists b :: b in size && b <= a < b + size[b]
    ensures forall b, c :: b in size && c in size && b <= a < b + size[b] && c <= a < c + size[c] ==> b == c
  {
    var p := base;
    while p + size[p] <= a
      invariant p in size && p <= a
      decreases a - p
    {
      assert BlockAt(size, base, brk, p);
      p := p + size[p];
    }
    assert BlockAt(size, base, brk, p);
  }

  /** The free list read off memory by following next links from `b`. */
  ghost function ListFrom(h: State, b: int): seq<int>
    requires Linked(h) && (b != 0 ==> b in h.rank)
    decreases if b != 0 then h.rank[b] + 1 else 0
  {
    if b == 0 then []
    else
      assert LinkedAt(h, b);
      [b] + ListFrom(h, Next(h.words, b))
  }

  lemma {:induction false} ListCoversLowerRanks(h: State, b: int)
    requires Linked(h) && FreeAligned(h) && b in h.rank
    ensures forall x :: x in ListFrom(h, b) <==> x in h.rank && h.rank[x] <= h.rank[b]
    ensures forall i, j :: 0 <= i < j < |ListFrom(h, b)| ==> ListFrom(h, b)[i] != ListFrom(h, b)[j]
    decreases h.rank[b]
  {
    assert LinkedAt(h, b);
    var n := Next(h.words, b);
    var tail := ListFrom(h, n);
    assert ListFrom(h, b) == [b] + tail;
    if n != 0 {
      ListCoversLowerRanks(h, n);
    }
    assert b !in tail;
  }

  /** Consecutive elements point at each other. */
  ghost predicate Chained(words: map<int, Word>, list: seq<int>) {
    && (forall i :: 0 <= i < |list| ==> list[i] + 4 in words && list[i] + 8 in words)
    && (forall i, j :: 0 <= i < |list| && 0 <= j < |list| && j == i + 1 ==>
          Next(words, list[i]) == list[j] && Prev(words, list[j]) == list[i])
  }

  ghost predicate WellLinked(words: map<int, Word>, head: int, list: seq<int>) {
    && Chained(words, list)
    && (head == 0 <==> list == [])
    && (list != [] ==> head == list[0] && Prev(words, list[0]) == 0 && Next(words, list[|list| - 1]) == 0)
  }

  lemma ChainedCons(words: map<int, Word>, b: int, list: seq<int>)
    requires Chained(words, list) && b + 4 in words && b + 8 in words
    requires list != [] ==> Next(words, b) == list[0] && Prev(words, list[0]) == b
    ensures Chained(words, [b] + list)
  {
    var all := [b] + list;
    forall i, j | 0 <= i < |all| && 0 <= j < |all| && j == i + 1
      ensures Next(words, all[i]) == all[j] && Prev(words, all[j]) == all[i]
    {
      assert all[j] == list[i];
      if i > 0 {
        assert all[i] == list[i - 1];
      }
    }
  }

  lemma {:induction false} ListIsLinked(h: State, b: int)
    requires Linked(h) && b in h.rank && b != 0
    ensures ListFrom(h, b) != [] && ListFrom(h, b)[0] == b
    ensures Chained(h.words, ListFrom(h, b))
    ensures Next(h.words, ListFrom(h, b)[|ListFrom(h, b)| - 1]) == 0
    decreases h.rank[b]
  {
    assert LinkedAt(h, b);
    var n := Next(h.words, b);
    var tail := ListFrom(h, n);
    assert ListFrom(h, b) == [b] + tail;
    if n != 0 {
      ListIsLinked(h, n);
    }
    ChainedCons(h.words, b, tail);
  }

  /** The words of memory hold an acyclic, doubly linked list that contains exactly
      the free blocks, each once. */
  lemma FreeListIsExact(h: State) returns (list: seq<int>)
    requires Inv(h, {})
    ensures WellLinked(h.words, h.head, list)
    ensures forall i, j :: 0 <= i < j < |list| ==> list[i] != list[j]
    ensures forall x :: x in list <==> x in h.rank
  {
    FreeBlocksAligned(h);
    list := ListFrom(h, h.head);
    if h.head != 0 {
      assert LinkedAt(h, h.head);
      ListCoversLowerRanks(h, h.head);
      ListIsLinked(h, h.head);
    }
  }
}
