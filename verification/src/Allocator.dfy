/** malloc, free, calloc, realloc and aligned allocation of src/aux/libc/allocator.c,
    as methods of an object that owns linear memory and the allocator's globals. */
module Allocator {
  import opened Bits
  import opened BlockSizes
  import opened LinearMemory
  import opened Heap
  import opened HeapSteps

  const EINVAL: int := 22
  const ENOMEM: int := 12

  class Allocator {
    // linear memory
    var pages: nat
    var words: map<int, Word>
    // the allocator's globals
    var initialized: bool
    var errnoAddress: int
    var heapBase: int
    var programBreak: int
    var freeHead: int
    var growCalls: int
    // the abstract heap
    ghost var size: map<int, int>
    ghost var rank: map<int, nat>
    ghost var clock: nat

    ghost function H(): State
      reads this
    {
      State(words, heapBase, programBreak, freeHead, size, rank, clock)
    }

    ghost predicate MemoryOk()
      reads this
    {
      pages <= 65536 && words.Keys == Span(0, pages * PAGE)
    }

    /** Everything except the tags of the blocks in `hole` is in order. */
    ghost predicate Ready(hole: set<int>)
      reads this
    {
      && MemoryOk()
      && initialized
      && Inv(H(), hole)
      && programBreak <= pages * PAGE
      && 0 <= errnoAddress && errnoAddress % 4 == 0 && errnoAddress + 4 <= heapBase
    }

    ghost predicate Valid()
      reads this
    {
      && MemoryOk()
      && (if initialized then Ready({})
          else size == map[] && rank == map[] && errnoAddress == heapBase == programBreak == freeHead == 0)
    }

    /** The errno word, if there is one, holds `value`. */
    ghost predicate ErrnoIs(value: int)
      reads this
    {
      errnoAddress != 0 ==> errnoAddress in words && words[errnoAddress] == value
    }

    /** The live allocations and their bytes. */
    ghost function Allocations(): map<int, seq<int>>
      reads this
    {
      Live(H())
    }

    constructor (initialPages: nat)
      requires initialPages <= 65536
      ensures Valid() && !initialized && Allocations() == map[]
    {
      pages := initialPages;
      words := map a | 0 <= a < initialPages * PAGE && a % 4 == 0 :: 0;
      initialized, errnoAddress, heapBase, programBreak, freeHead, growCalls := false, 0, 0, 0, 0, 0;
      size, rank, clock := map[], map[], 0;
      new;
      assert words.Keys == Span(0, pages * PAGE);
    }

    method RemoveFree(block: int)
      requires LinkedPart(H(), block)
      modifies this`words, this`freeHead, this`rank
      ensures H() == Heap.RemoveFree(old(H()), block)
    {
      var prev: int := words[block + 4];
      var next: int := words[block + 8];
      if prev != 0 {
        words := Put(words, prev + 8, next);
      } else {
        freeHead := next;
      }
      if next != 0 {
        words := Put(words, next + 4, prev);
      }
      rank := rank - {block};
    }

    method InsertFree(block: int)
      requires Heap.InsertReady(H(), block)
      modifies this`words, this`freeHead, this`rank, this`clock
      ensures H() == Heap.InsertFree(old(H()), block)
    {
      words := Put(words, block + 4, 0);
      words := Put(words, block + 8, freeHead);
      if freeHead != 0 {
        words := Put(words, freeHead + 4, block);
      }
      freeHead := block;
      rank, clock := rank[block := clock], clock + 1;
    }

    method WriteBlock(block: int, total: int, taken: bool)
      requires 0 <= total < MAX_BREAK
      requires block in words && block + total - 4 in words
      modifies this`words
      ensures H() == Heap.WriteBlock(old(H()), block, total, taken)
    {
      var tag := Tag(total, taken);
      words := Put(words, block, tag);
      words := Put(words, block + total - 4, tag);
    }

    /** First third of `release_block`: read the size and take in the following block
        when it is free. */
    method CoalesceNext(block: int, ghost hole: set<int>, ghost kept: set<int>) returns (total: int)
      requires Inv(H(), hole) && block in Allocated(H()) && block !in hole
      requires Succ(size, block) !in hole && HoleBelow(H(), hole, block)
      requires kept == Allocated(H()) - {block}
      modifies this`words, this`freeHead, this`rank, this`size
      ensures Inv(H(), hole + {block}) && block in size && total == size[block] && Succ(size, block) !in rank
      ensures HoleBelow(H(), hole, block)
      ensures Keeps(old(H()), H(), kept) && words.Keys == old(words.Keys)
      ensures Allocated(H()) == old(Allocated(H()))
      ensures BlocksOf(H()) == AbsorbUpper(old(BlocksOf(H())), block)
    {
      ghost var h := H();
      OpenForRelease(h, block, hole);
      NextCase(h, block, hole + {block}, kept);
      total := TagSize(words[block]);
      var next := block + total;
      if next < programBreak {
        if words[next] % 2 == 0 {
          RemoveFree(next);
          total := total + TagSize(words[next]);
          size := (size - {next})[block := total];
          assert H() == Absorb(h, next, block, next);
          HoleStaysBelow(h, H(), block, hole, kept);
        }
      }
    }

    /** Second third of `release_block`: join the preceding block when it is free. */
    method CoalescePrevious(block: int, total: int, ghost hole: set<int>, ghost kept: set<int>)
      returns (first: int, grown: int)
      requires Inv(H(), hole + {block}) && block in size && total == size[block] && block !in hole
      requires HoleBelow(H(), hole, block)
      requires Succ(size, block) !in rank
      requires kept <= Allocated(H()) && block !in kept
      modifies this`words, this`freeHead, this`rank, this`size
      ensures Inv(H(), hole + {first}) && first in size && grown == size[first] && first !in hole
      ensures Succ(size, first) !in rank && LeftClear(H(), first)
      ensures Keeps(old(H()), H(), kept) && words.Keys == old(words.Keys)
      ensures Allocated(H()) == old(Allocated(H())) - {block} + {first}
      ensures first !in kept
      ensures JoinsBelow(old(BlocksOf(H())), block, first)
      ensures BlocksOf(H()) == AbsorbLower(old(BlocksOf(H())), block, first)
    {
      ghost var h := H();
      first, grown := block, total;
      if LeftClear(h, block) {
        ClearIsLowest(h, block);
      }
      if block > heapBase {
        ghost var p := PreviousCase(h, block, hole, kept);
        var prevSize := TagSize(words[block - 4]);
        if prevSize >= 32 {
          var prev := block - prevSize;
          if prev >= heapBase {
            if words[prev] % 2 == 0 {
              RemoveFree(prev);
              first, grown := prev, grown + prevSize;
              size := (size - {block})[prev := grown];
              assert H() == Absorb(h, prev, prev, block);
            }
          }
        }
      } else {
        LowestIsClear(h, block, hole + {block});
      }
    }

    /** The end of `release_block`: tag the grown block free and put it in the list. */
    method TagAndInsert(block: int, total: int, ghost hole: set<int>, ghost kept: set<int>)
      requires Inv(H(), hole + {block}) && block in size && total == size[block] && block !in hole
      requires Succ(size, block) !in rank && LeftClear(H(), block)
      requires kept <= Allocated(H()) && block !in kept
      modifies this`words, this`freeHead, this`rank, this`clock
      ensures Inv(H(), hole)
      ensures Keeps(old(H()), H(), kept) && words.Keys == old(words.Keys)
      ensures Allocated(H()) == old(Allocated(H())) - {block}
      ensures BlocksOf(H()) == Pushed(old(BlocksOf(H())), block)
    {
      ghost var h := H();
      WriteBlockKeeps(h, block, false, hole + {block}, kept);
      BlockWords(h, block);
      WriteBlock(block, total, false);
      ghost var h' := H();
      InsertFreeKeeps(h', block, hole + {block}, kept);
      InsertIsReady(h', block, hole + {block});
      InsertFree(block);
      KeepsTrans(h, h', H(), kept);
      assert hole + {block} - {block} == hole;
    }

    /** `release_block`: give an allocated block back, joining it with free neighbours.
        `hole` may hold blocks that are not tagged yet, as long as they do not touch it. */
    method ReleaseBlock(start: int, ghost hole: set<int>) returns (ghost lo: int)
      requires Inv(H(), hole) && start in Allocated(H()) && start !in hole
      requires Succ(size, start) !in hole
      requires HoleBelow(H(), hole, start)
      modifies this`words, this`freeHead, this`rank, this`clock, this`size
      ensures Inv(H(), hole) && words.Keys == old(words.Keys)
      ensures Allocated(H()) == old(Allocated(H())) - {start}
      ensures Keeps(old(H()), H(), old(Allocated(H())) - {start})
      ensures Joins(old(BlocksOf(H())), start, lo, BlocksOf(H()))
    {
      ghost var h := H();
      ghost var kept := Allocated(h) - {start};
      var block, total := Coalesce(start, hole, kept);
      ghost var h1 := H();
      TagAndInsert(block, total, hole, kept);
      KeepsTrans(h, h1, H(), kept);
      ReleaseIs(h, hole, start, block, BlocksOf(h1), BlocksOf(H()));
      lo := block;
    }

    /** The first two thirds of `release_block`. */
    method Coalesce(start: int, ghost hole: set<int>, ghost kept: set<int>) returns (block: int, total: int)
      requires Inv(H(), hole) && start in Allocated(H()) && start !in hole
      requires Succ(size, start) !in hole && HoleBelow(H(), hole, start)
      requires kept == Allocated(H()) - {start}
      modifies this`words, this`freeHead, this`rank, this`size
      ensures Inv(H(), hole + {block}) && block in size && total == size[block] && block !in hole
      ensures Succ(size, block) !in rank && LeftClear(H(), block)
      ensures Keeps(old(H()), H(), kept) && words.Keys == old(words.Keys) && block !in kept
      ensures Allocated(H()) == old(Allocated(H())) - {start} + {block}
      ensures JoinsBelow(AbsorbUpper(old(BlocksOf(H())), start), start, block)
      ensures BlocksOf(H()) == AbsorbLower(AbsorbUpper(old(BlocksOf(H())), start), start, block)
    {
      ghost var h := H();
      total := CoalesceNext(start, hole, kept);
      ghost var h1 := H();
      block, total := CoalescePrevious(start, total, hole, kept);
      KeepsTrans(h, h1, H(), kept);
    }

    /** The split branch of `malloc`, up to writing the tags of the part handed out. */
    method CutFree(block: int, total: int, remaining: int, ghost kept: set<int>)
      requires Inv(H(), {}) && block in rank && total % 16 == 0
      requires 32 <= total && 32 <= remaining && total + remaining == size[block]
      requires kept == Allocated(H())
      modifies this`words, this`freeHead, this`rank, this`size
      ensures Inv(H(), {block + total}) && words.Keys == old(words.Keys)
      ensures Allocated(H()) == kept + {block, block + total} && block !in kept && block + total !in kept
      ensures size[block] == total && size[block + total] == remaining
      ensures Succ(size, block + total) !in rank && LeftClear(H(), block + total)
      ensures Keeps(old(H()), H(), kept)
      ensures BlocksOf(H()) == CutTop(old(BlocksOf(H())), block, total)
    {
      ghost var h := H();
      CutKeeps(h, block, total);
      CutNeighbours(h, block, total);
      CutIsCutTop(h, block, total);
      RemoveFree(block);
      size := size[block := total][block + total := remaining];
      ghost var h1 := H();
      assert h1 == Cut(h, block, total);
      LowerTagKeeps(h1, block, total, kept);
      WriteBlock(block, total, true);
      KeepsTrans(h, h1, H(), kept);
    }

    /** The split branch of `malloc`: hand out the lower part of a free block. */
    method TakeSplit(block: int, total: int, remaining: int)
      requires Inv(H(), {}) && block in rank && total % 16 == 0
      requires 32 <= total && 32 <= remaining && total + remaining == size[block]
      modifies this`words, this`freeHead, this`rank, this`clock, this`size
      ensures Inv(H(), {}) && words.Keys == old(words.Keys)
      ensures Allocated(H()) == old(Allocated(H())) + {block} && size[block] == total
      ensures Keeps(old(H()), H(), old(Allocated(H())))
      ensures Takes(old(BlocksOf(H())), block, total, BlocksOf(H()))
    {
      ghost var kept := Allocated(H());
      ghost var h := H();
      CutFree(block, total, remaining, kept);
      ghost var h1 := H();
      assert {block + total} == {} + {block + total};
      TagAndInsert(block + total, remaining, {}, kept + {block});
      TakeSteps(BlocksOf(h), block, total);
      SplitDone(h, h1, H(), block, kept);
    }

    /** The other branch of `malloc`: hand out a free block whole. */
    method TakeWhole(block: int, total: int)
      requires Inv(H(), {}) && block in rank && total == size[block]
      modifies this`words, this`freeHead, this`rank
      ensures Inv(H(), {}) && words.Keys == old(words.Keys)
      ensures Allocated(H()) == old(Allocated(H())) + {block}
      ensures Keeps(old(H()), H(), old(Allocated(H())))
      ensures BlocksOf(H()) == old(BlocksOf(H())).(rank := old(rank) - {block})
    {
      Heap.TakeWhole(H(), block);
      RemoveFree(block);
      WriteBlock(block, total, true);
    }

    method SetErrno(value: Word)
      requires Valid()
      modifies this`words
      ensures Valid() && words.Keys == old(words.Keys)
      ensures ErrnoIs(value)
      ensures Keeps(old(H()), H(), Allocated(H()))
    {
      if errnoAddress == 0 {
        return;
      }
      ghost var h := H();
      SpanAt(0, pages * PAGE, 0, errnoAddress);
      words := Put(words, errnoAddress, value);
      OutsideFrame(h, H(), {}, Allocated(h));
    }

    /** `memory.grow(0, 1)`: one more page of zeros, or refusal, which may come at any time. */
    method GrowPage() returns (granted: bool)
      requires Valid()
      modifies this`words, this`pages
      ensures Valid() && pages == old(pages) + (if granted then 1 else 0) <= 65536
      ensures Keeps(old(H()), H(), Allocated(H()))
      ensures forall a :: a in words && a !in old(words) ==> words[a] == 0
    {
      granted := *;
      if pages == 65536 || !granted {
        return false;
      }
      GrowthIsOutside(H(), pages, initialized);
      words, pages := words + Zeros(pages * PAGE, (pages + 1) * PAGE), pages + 1;
    }

    /** `ensure_capacity`. */
    method EnsureCapacity(end: int) returns (ok: bool)
      requires Valid()
      modifies this`words, this`pages, this`growCalls
      ensures Valid() && (if ok then end <= pages * PAGE else ErrnoIs(ENOMEM))
      ensures old(pages) <= pages && growCalls == old(growCalls) + pages - old(pages)
      ensures old(pages) < pages ==> (pages - 1) * PAGE < end
      ensures Keeps(old(H()), H(), Allocated(H()))
    {
      ghost var h := H();
      while pages * PAGE < end
        invariant Valid() && Keeps(h, H(), Allocated(h))
        invariant old(pages) <= pages && growCalls == old(growCalls) + pages - old(pages)
        invariant old(pages) < pages ==> (pages - 1) * PAGE < end
        decreases 65536 - pages
      {
        var granted := GrowOrFail();
        if !granted {
          return false;
        }
      }
      return true;
    }

    method GrowOrFail() returns (granted: bool)
      requires Valid()
      modifies this`words, this`pages, this`growCalls
      ensures Valid() && (!granted ==> ErrnoIs(ENOMEM))
      ensures pages == old(pages) + (if granted then 1 else 0) <= 65536
      ensures growCalls == old(growCalls) + pages - old(pages)
      ensures Keeps(old(H()), H(), Allocated(H()))
    {
      ghost var h := H();
      granted := GrowPage();
      if !granted {
        ghost var h1 := H();
        SetErrno(ENOMEM);
        KeepsTrans(h, h1, H(), Allocated(h));
        return;
      }
      growCalls := growCalls + 1;
    }

    /** `waste_allocator_init`: lay out the errno word and an empty heap above `base`. */
    method Init(base: int) returns (ok: bool)
      requires Valid() && 0 <= base <= I32_MAX
      modifies this
      ensures Valid()
      ensures ok ==> initialized && Allocations() == map[] && heapBase == programBreak
      ensures ok ==> base <= errnoAddress && errnoAddress + 4 <= heapBase <= base + 22
      ensures !ok ==> initialized == old(initialized) && Allocations() == old(Allocations())
    {
      var err, first := Layout(base);
      if first < base {
        return false;
      }
      ok := Prepare(first);
      if !ok {
        return;
      }
      Install(err, first);
    }

    /** Memory up to `end` for a heap; what is allocated stays. */
    method Prepare(end: int) returns (ok: bool)
      requires Valid()
      modifies this`words, this`pages, this`growCalls
      ensures Valid() && Allocations() == old(Allocations()) && (ok ==> end <= pages * PAGE)
    {
      ghost var h := H();
      ok := EnsureCapacity(end);
      SameAllocations(h, H(), initialized);
    }

    /** The address computation of `waste_allocator_init`. */
    method Layout(base: int) returns (err: int, first: int)
      requires 0 <= base <= I32_MAX
      ensures first >= base ==>
                && base <= err <= base + 3 && err % 4 == 0 && err + 4 <= first <= err + 19
                && 16 <= first <= MAX_BREAK && first % 16 == 0
      ensures first < base <==> base > I32_MAX - 19
    {
      InitLayout(base);
      err := ErrnoSlot(base);
      first := FirstBlock(base);
    }

    /** The assignments of `waste_allocator_init` once memory is there. */
    method Install(err: int, first: int)
      requires MemoryOk() && first <= pages * PAGE && 16 <= first <= MAX_BREAK && first % 16 == 0
      requires 0 <= err && err % 4 == 0 && err + 4 <= first
      modifies this
      ensures Valid() && initialized && size == map[] && rank == map[]
      ensures errnoAddress == err && heapBase == programBreak == first
      ensures words[errnoAddress] == 0
    {
      errnoAddress, heapBase, programBreak, freeHead, growCalls := err, first, first, 0, 0;
      size, rank, clock := map[], map[], 0;
      SpanAt(0, pages * PAGE, 0, errnoAddress);
      words := Put(words, errnoAddress, 0);
      initialized := true;
      EmptyHeap(words, first);
    }

    /** `sbrk`: move the break, or fail and leave it. */
    method Sbrk(increment: int) returns (previous: int)
      requires Valid()
      modifies this`words, this`pages, this`growCalls, this`programBreak
      ensures previous == -1 ==> Valid() && programBreak == old(programBreak) && ErrnoIs(ENOMEM)
      ensures previous != -1 ==>
                && initialized && previous == old(programBreak) && programBreak == previous + increment
                && heapBase <= programBreak <= MAX_BREAK && programBreak <= pages * PAGE
                && MemoryOk() && Inv(H().(brk := previous), {})
                && errnoAddress % 4 == 0 && 0 <= errnoAddress && errnoAddress + 4 <= heapBase
      ensures Keeps(old(H()), H(), Allocated(H()))
    {
      if !initialized {
        SetErrno(EINVAL);
        return -1;
      }
      var next := programBreak + increment;
      if next < heapBase {
        SetErrno(ENOMEM);
        return -1;
      }
      if next > 0x7fff_ffff {
        SetErrno(ENOMEM);
        return -1;
      }
      var ok := EnsureCapacity(next);
      if !ok {
        return -1;
      }
      previous := programBreak;
      programBreak := next;
      assert H().(brk := previous).brk == previous;
    }

    /** The search loop of `malloc`: the first block of the free list that is large enough. */
    method FindFit(total: int) returns (block: int)
      requires Inv(H(), {})
      ensures block == 0 ==> forall b :: !Fits(BlocksOf(H()), b, total)
      ensures block != 0 ==> FirstFit(BlocksOf(H()), block, total)
    {
      block := freeHead;
      while block != 0
        invariant block != 0 ==> block in rank
        invariant forall b :: b in rank && (block == 0 || rank[b] > rank[block]) ==> size[b] < total
        decreases if block != 0 then rank[block] + 1 else 0
      {
        FreeBlockTag(H(), block);
        FreeBlockNext(H(), block);
        var blockSize := TagSize(words[block]);
        if blockSize >= total {
          return;
        }
        block := words[block + 8];
      }
    }

    /** `align16(program_break)`: the break is always aligned already. */
    method AlignBreak() returns (aligned: int)
      requires Inv(H(), {})
      ensures aligned == programBreak
    {
      aligned := Align16(programBreak);
    }

    /** The end of `malloc`: no free block fits, so extend the heap by one block. */
    method ExtendHeap(total: int) returns (p: int)
      requires Ready({}) && total % 16 == 0 && 32 <= total <= LARGEST
      modifies this`words, this`pages, this`growCalls, this`programBreak, this`size
      ensures Ready({})
      ensures p == 0 ==> BlocksOf(H()) == old(BlocksOf(H())) && Keeps(old(H()), H(), Allocated(H())) && ErrnoIs(ENOMEM)
      ensures p != 0 ==>
                && p == old(programBreak) + 16 && programBreak == old(programBreak) + total
                && size == old(size)[p - 16 := total] && p - 16 !in old(size)
                && Keeps(old(H()), H(), old(Allocated(H())))
    {
      if programBreak + 15 + total > 0x7fff_ffff {
        SetErrno(ENOMEM);
        return 0;
      }
      var alignedBreak := AlignBreak();
      ghost var h := H();
      var oldBreak := Sbrk(alignedBreak - programBreak + total);
      if oldBreak == -1 {
        return 0;
      }
      ghost var h1 := H().(brk := oldBreak);
      TagNewBlock(alignedBreak, total, Allocated(h));
      KeepsTrans(h, h1, H(), Allocated(h));
      return alignedBreak + 16;
    }

    /** Tag the block between the old break `block` and the new one. */
    method TagNewBlock(block: int, total: int, ghost kept: set<int>)
      requires total % 16 == 0 && 32 <= total && block + total == programBreak <= MAX_BREAK
      requires MemoryOk() && Inv(H().(brk := block), {}) && programBreak <= pages * PAGE
      requires kept <= Allocated(H())
      modifies this`words, this`size
      ensures Inv(H(), {}) && words.Keys == old(words.Keys)
      ensures size == old(size)[block := total] && block !in old(size)
      ensures Keeps(old(H().(brk := block)), H(), kept)
    {
      NewBlockTagged(H().(brk := block), total, pages * PAGE, kept);
      size := size[block := total];
      WriteBlock(block, total, true);
    }

    /** Hand out a free block that fits, splitting it when at least 32 bytes remain. */
    method TakeFit(block: int, total: int)
      requires Inv(H(), {}) && block in rank && total % 16 == 0 && 32 <= total <= size[block]
      modifies this`words, this`freeHead, this`rank, this`clock, this`size
      ensures Inv(H(), {}) && words.Keys == old(words.Keys)
      ensures Allocated(H()) == old(Allocated(H())) + {block} && total <= size[block] <= total + 16
      ensures Keeps(old(H()), H(), old(Allocated(H())))
      ensures Takes(old(BlocksOf(H())), block, total, BlocksOf(H()))
    {
      FreeBlockTag(H(), block);
      var blockSize := TagSize(words[block]);
      var remaining := blockSize - total;
      if remaining >= 32 {
        TakeSplit(block, total, remaining);
      } else {
        BlockIs(H(), block, {});
        RestIsSmall(blockSize, total);
        TakeWholeStep(BlocksOf(H()), block, total);
        TakeWhole(block, blockSize);
      }
    }

    /** The body of `malloc`, in terms of blocks. */
    method MallocBlock(total: int, ghost requested: nat) returns (p: int)
      requires Ready({}) && total == Total(requested) <= LARGEST
      modifies this`words, this`pages, this`growCalls, this`programBreak,
               this`freeHead, this`rank, this`clock, this`size
      ensures Ready({})
      ensures p == 0 ==>
                H() == old(H()).(words := words) && Keeps(old(H()), H(), Allocated(H())) && ErrnoIs(ENOMEM)
      ensures p != 0 ==> Granted(old(H()), H(), p, requested)
      ensures Serves(old(BlocksOf(H())), total, p, BlocksOf(H()))
    {
      TotalFits(requested);
      var block := FindFit(total);
      if block != 0 {
        p := MallocFit(block, total, requested);
      } else {
        p := MallocEnd(total, requested);
      }
    }

    method MallocFit(block: int, total: int, ghost requested: nat) returns (p: int)
      requires Ready({}) && FirstFit(BlocksOf(H()), block, total) && total == Total(requested)
      modifies this`words, this`freeHead, this`rank, this`clock, this`size
      ensures Ready({}) && p == block + 16 && Granted(old(H()), H(), p, requested)
      ensures Takes(old(BlocksOf(H())), block, total, BlocksOf(H()))
    {
      TotalFits(requested);
      BlockWords(H(), block);
      TakeFit(block, total);
      p := block + 16;
    }

    method MallocEnd(total: int, ghost requested: nat) returns (p: int)
      requires Ready({}) && total == Total(requested) <= LARGEST
      requires forall b :: !Fits(BlocksOf(H()), b, total)
      modifies this`words, this`pages, this`growCalls, this`programBreak, this`size
      ensures Ready({}) && Serves(old(BlocksOf(H())), total, p, BlocksOf(H()))
      ensures p == 0 ==>
                H() == old(H()).(words := words) && Keeps(old(H()), H(), Allocated(H())) && ErrnoIs(ENOMEM)
      ensures p != 0 ==> Granted(old(H()), H(), p, requested)
    {
      TotalFits(requested);
      p := ExtendHeap(total);
    }

    /** `malloc`, in terms of blocks. */
    method MallocCore(requested: nat) returns (p: int)
      requires Valid() && requested <= U32_MAX
      modifies this`words, this`pages, this`growCalls, this`programBreak,
               this`freeHead, this`rank, this`clock, this`size
      ensures Valid()
      ensures p == 0 ==>
                H() == old(H()).(words := words) && Keeps(old(H()), H(), Allocated(H())) && ErrnoIs(ENOMEM)
      ensures p != 0 ==> initialized && Granted(old(H()), H(), p, requested)
      ensures if initialized then Mallocs(old(BlocksOf(H())), requested, p, BlocksOf(H())) else p == 0
    {
      if !initialized {
        SetErrno(EINVAL);
        return 0;
      }
      var total := Total(requested);
      if total > LARGEST {
        SetErrno(ENOMEM);
        return 0;
      }
      p := MallocBlock(total, requested);
    }

    /** `malloc`: first fit in list order, splitting when at least 32 bytes remain;
        the heap is extended only when no free block fits. */
    method Malloc(requested: nat) returns (p: int)
      requires Valid() && requested <= U32_MAX
      modifies this`words, this`pages, this`growCalls, this`programBreak,
               this`freeHead, this`rank, this`clock, this`size
      ensures Valid()
      ensures p == 0 ==> Allocations() == old(Allocations()) && BlocksOf(H()) == old(BlocksOf(H())) && ErrnoIs(ENOMEM)
      ensures p != 0 ==> p !in old(Allocations()) && Allocations() - {p} == old(Allocations())
      ensures p != 0 ==> p in Allocations() && requested <= |Allocations()[p]| < requested + 32
      ensures if initialized then Mallocs(old(BlocksOf(H())), requested, p, BlocksOf(H())) else p == 0
    {
      ghost var h := H();
      p := MallocCore(requested);
      if p == 0 {
        SameAllocations(h, H(), initialized);
      } else {
        GrantedLive(h, H(), p, requested);
      }
    }

    /** `free`: null and pointers outside the heap are tolerated, and so is a block that is
        already free; an interior pointer is the caller's mistake. */
    method Free(ptr: int)
      requires Valid() && 0 <= ptr <= U32_MAX
      requires ptr == 0 || ptr - 16 in size || !(heapBase <= (ptr - 16) % 0x1_0000_0000 < programBreak)
      modifies this`words, this`freeHead, this`rank, this`clock, this`size
      ensures Valid()
      ensures Allocations() == old(Allocations()) - {ptr}
      ensures if ptr - 16 in old(Allocated(H())) then Releases(old(BlocksOf(H())), ptr - 16, BlocksOf(H()))
              else BlocksOf(H()) == old(BlocksOf(H())) && (ptr != 0 ==> ErrnoIs(EINVAL))
    {
      ghost var h := H();
      var unsigned := (ptr - 16) % 0x1_0000_0000;
      if ptr == 0 || unsigned < heapBase || unsigned >= programBreak {
        if ptr != 0 {
          SetErrno(EINVAL);
        }
        SameAllocations(h, H(), initialized);
        FreeOutside(h, ptr, initialized);
        return;
      }
      FreeBlock(ptr - 16);
      FreeLive(h, H(), ptr - 16);
    }

    /** `free` as a well-behaved program calls it. */
    method Release(ptr: int)
      requires Valid() && (ptr == 0 || ptr in Allocations())
      modifies this`words, this`freeHead, this`rank, this`clock, this`size
      ensures Valid()
      ensures Allocations() == old(Allocations()) - {ptr}
    {
      if ptr != 0 {
        LivePointer(H(), ptr, initialized);
      }
      Free(ptr);
    }

    /** `free` on a pointer inside the heap. */
    method FreeBlock(block: int)
      requires Ready({}) && block in size
      modifies this`words, this`freeHead, this`rank, this`clock, this`size
      ensures Ready({})
      ensures Allocated(H()) == old(Allocated(H())) - {block}
      ensures Keeps(old(H()), H(), old(Allocated(H())) - {block})
      ensures if block in old(Allocated(H())) then Releases(old(BlocksOf(H())), block, BlocksOf(H()))
              else BlocksOf(H()) == old(BlocksOf(H())) && ErrnoIs(EINVAL)
    {
      AllocatedFlag(H(), block);
      if words[block] % 2 == 0 {
        SetErrno(EINVAL);
        return;
      }
      ghost var lo := ReleaseBlock(block, {});
    }

    /** `memset(p, 0, n)`. */
    method Memset(p: int, n: nat)
      requires p % 4 == 0 && forall a :: p <= a < p + n ==> a - a % 4 in words
      modifies this`words
      ensures words.Keys == old(words.Keys)
      ensures Zeroed(Contents(words, p, n), n)
      ensures forall a :: a in words && !(p <= a < p + n) ==> words[a] == old(words)[a]
    {
      var i := 0;
      while i < n
        invariant 0 <= i <= n && words.Keys == old(words.Keys)
        invariant forall a {:trigger ByteAt(words, a)} :: p <= a < p + i ==> ByteAt(words, a) == 0
        invariant forall a :: a in words && !(p <= a < p + i) ==> words[a] == old(words)[a]
      {
        PutByteIs(words, p + i, 0);
        WordBelow(p, i);
        words := PutByte(words, p + i, 0);
        i := i + 1;
      }
    }

    /** `memcpy(to, from, n)` on disjoint ranges. */
    method Memcpy(to: int, from: int, n: nat)
      requires to % 4 == 0 && (to + n <= from || from + n <= to)
      requires forall a :: to <= a < to + n ==> a - a % 4 in words
      requires forall a :: from <= a < from + n ==> a - a % 4 in words
      modifies this`words
      ensures words.Keys == old(words.Keys)
      ensures Contents(words, to, n) == Contents(old(words), from, n)
      ensures forall a :: a in words && !(to <= a < to + n) ==> words[a] == old(words)[a]
    {
      ghost var was := words;
      var i := 0;
      while i < n
        invariant 0 <= i <= n && words.Keys == was.Keys
        invariant forall a {:trigger ByteAt(words, a)} :: ByteAt(words, a) ==
                    if to <= a < to + i then ByteAt(was, a - to + from) else ByteAt(was, a)
        invariant forall a :: a in words && !(to <= a < to + i) ==> words[a] == was[a]
      {
        var source := from + i;
        var v := ByteOf(words[source - source % 4], source % 4);
        assert v == ByteAt(words, source);
        PutByteIs(words, to + i, v);
        WordBelow(to, i);
        words := PutByte(words, to + i, v);
        i := i + 1;
      }
    }

    /** Zero the first `n` bytes of an allocated payload. */
    method ZeroPayload(p: int, n: nat)
      requires Ready({}) && p - 16 in Allocated(H()) && n <= size[p - 16] - 20
      modifies this`words
      ensures Ready({}) && Keeps(old(H()), H(), Allocated(H()) - {p - 16})
      ensures Zeroed(Payload(H(), p - 16), n)
    {
      ghost var h := H();
      PayloadInMemory(h, p - 16);
      Memset(p, n);
      PayloadWriteKeeps(h, H(), p - 16);
      PayloadStart(H(), p - 16, n);
    }

    method CopyBytes(to: int, from: int, n: nat)
      requires Inv(H(), {}) && to - 16 in size && from - 16 in size && to != from
      requires n <= size[to - 16] - 20 && n <= size[from - 16] - 20
      modifies this`words
      ensures words.Keys == old(words.Keys)
      ensures Contents(words, to, n) == Contents(old(words), from, n)
      ensures forall a :: a in words && !(to <= a < to + size[to - 16] - 20) ==> words[a] == old(words)[a]
    {
      PayloadInMemory(H(), to - 16);
      PayloadInMemory(H(), from - 16);
      Memcpy(to, from, n);
    }

    /** Copy between allocated payloads as much as `requested` and the old capacity allow. */
    method CopyPayload(to: int, from: int, oldCapacity: nat, requested: nat)
      requires Ready({}) && to - 16 in Allocated(H()) && from - 16 in Allocated(H()) && to != from
      requires requested <= size[to - 16] - 20 && oldCapacity == size[from - 16] - 20
      modifies this`words
      ensures Ready({}) && Keeps(old(H()), H(), Allocated(H()) - {to - 16})
      ensures StartsAlike(Payload(H(), to - 16), old(Payload(H(), from - 16)), requested)
    {
      ghost var h := H();
      var n := if oldCapacity < requested then oldCapacity else requested;
      CopyBytes(to, from, n);
      PayloadWriteKeeps(h, H(), to - 16);
      PayloadStart(h, from - 16, n);
      PayloadStart(H(), to - 16, n);
    }

    /** `calloc`. */
    method Calloc(count: nat, each: nat) returns (p: int)
      requires Valid() && count <= U32_MAX && each <= U32_MAX
      modifies this`words, this`pages, this`growCalls, this`programBreak,
               this`freeHead, this`rank, this`clock, this`size
      ensures Valid()
      ensures p == 0 ==> Allocations() == old(Allocations()) && ErrnoIs(ENOMEM)
      ensures p != 0 ==> p !in old(Allocations()) && Allocations() - {p} == old(Allocations())
      ensures p != 0 ==>
                && p in Allocations() && Zeroed(Allocations()[p], Product(count, each))
                && Product(count, each) <= |Allocations()[p]| < Product(count, each) + 32
      ensures !initialized || Product(count, each) > U32_MAX ==> p == 0 && BlocksOf(H()) == old(BlocksOf(H()))
      ensures initialized && Product(count, each) <= U32_MAX ==>
                Mallocs(old(BlocksOf(H())), Product(count, each), p, BlocksOf(H()))
    {
      ghost var h := H();
      var bytes := count * each;
      if bytes > 0xffff_ffff {
        SetErrno(ENOMEM);
        SameAllocations(h, H(), initialized);
        return 0;
      }
      p := MallocCore(bytes);
      if p != 0 {
        ghost var h1 := H();
        ZeroPayload(p, bytes);
        GrantedThenFilled(h, h1, H(), p, bytes);
      } else {
        SameAllocations(h, H(), initialized);
      }
    }

    /** The middle of `realloc`: a fresh block that starts with the old bytes. */
    method CopyOut(ptr: int, requested: nat) returns (r: int)
      requires Ready({}) && ptr - 16 in Allocated(H()) && 0 < requested <= U32_MAX
      modifies this`words, this`pages, this`growCalls, this`programBreak,
               this`freeHead, this`rank, this`clock, this`size
      ensures Ready({})
      ensures r == 0 ==>
                H() == old(H()).(words := words) && Keeps(old(H()), H(), Allocated(H())) && ErrnoIs(ENOMEM)
      ensures r != 0 ==> Granted(old(H()), H(), r, requested)
      ensures r != 0 ==> StartsAlike(Payload(H(), r - 16), old(Payload(H(), ptr - 16)), requested)
      ensures Mallocs(old(BlocksOf(H())), requested, r, BlocksOf(H()))
    {
      ghost var h := H();
      AllocatedTag(h, ptr - 16);
      var oldCapacity := TagSize(words[ptr - 16]) - 20;
      r := MallocCore(requested);
      if r != 0 {
        CopyInto(r, ptr, oldCapacity, requested, h);
      }
    }

    /** Copy the old bytes to a block that was just granted. */
    method CopyInto(r: int, ptr: int, oldCapacity: nat, requested: nat, ghost h: State)
      requires Inv(h, {}) && ptr - 16 in Allocated(h) && oldCapacity == h.size[ptr - 16] - 20
      requires Ready({}) && Granted(h, H(), r, requested)
      modifies this`words
      ensures Ready({}) && Granted(h, H(), r, requested)
      ensures StartsAlike(Payload(H(), r - 16), Payload(h, ptr - 16), requested)
    {
      ghost var h1 := H();
      CopyPayload(r, ptr, oldCapacity, requested);
      CopySteps(h, h1, H(), ptr - 16, r - 16, requested);
    }

    /** The end of `realloc`, in terms of blocks: a fresh block, then copy, then free. */
    method MoveBlock(ptr: int, requested: nat) returns (r: int)
      requires Ready({}) && ptr - 16 in Allocated(H()) && 0 < requested <= U32_MAX
      modifies this`words, this`pages, this`growCalls, this`programBreak,
               this`freeHead, this`rank, this`clock, this`size
      ensures Ready({})
      ensures r == 0 ==>
                H() == old(H()).(words := words) && Keeps(old(H()), H(), Allocated(H())) && ErrnoIs(ENOMEM)
      ensures r != 0 ==> Moved(old(H()), H(), ptr - 16, r - 16, requested)
      ensures Reallocs(old(BlocksOf(H())), ptr, requested, r, BlocksOf(H()))
    {
      ghost var h := H();
      r := CopyOut(ptr, requested);
      if r != 0 {
        ghost var h1 := H();
        FreeBlock(ptr - 16);
        MoveSteps(h, h1, H(), ptr - 16, r - 16, requested);
      }
    }

    /** `realloc`. */
    method Realloc(ptr: int, requested: nat) returns (r: int)
      requires Valid() && requested <= U32_MAX && (ptr == 0 || ptr in Allocations())
      modifies this`words, this`pages, this`growCalls, this`programBreak,
               this`freeHead, this`rank, this`clock, this`size
      ensures Valid()
      ensures r == 0 && (ptr == 0 || requested != 0) ==> Allocations() == old(Allocations()) && ErrnoIs(ENOMEM)
      ensures ptr != 0 && requested == 0 ==> r == 0 && Allocations() == old(Allocations()) - {ptr}
      ensures r != 0 ==> r !in old(Allocations()) && Allocations() - {r} == old(Allocations()) - {ptr}
      ensures r != 0 ==> r in Allocations() && requested <= |Allocations()[r]| < requested + 32
      ensures ptr == 0 ==>
                if initialized then Mallocs(old(BlocksOf(H())), requested, r, BlocksOf(H())) else r == 0
      ensures ptr != 0 && requested == 0 ==> Releases(old(BlocksOf(H())), ptr - 16, BlocksOf(H()))
      ensures ptr != 0 && requested != 0 ==> Reallocs(old(BlocksOf(H())), ptr, requested, r, BlocksOf(H()))
      ensures r != 0 && ptr != 0 ==> StartsAlike(Allocations()[r], old(Allocations())[ptr], requested)
    {
      ghost var h := H();
      if ptr == 0 {
        r := Malloc(requested);
        NullIsNotLive(h, initialized);
        return;
      }
      LivePointer(h, ptr, initialized);
      if requested == 0 {
        Free(ptr);
        return 0;
      }
      r := MoveBlock(ptr, requested);
      if r == 0 {
        SameAllocations(h, H(), initialized);
      } else {
        MovedLive(h, H(), ptr, r, requested);
      }
    }

    /** The tail of an over-sized block, cut off and given back. */
    method CarveTail(aligned: int, total: int, tail: int, ghost hole: set<int>, ghost kept: set<int>)
      requires Inv(H(), hole + {aligned}) && aligned in size && aligned !in hole
      requires size[aligned] == total + tail && total % 16 == 0 && 32 <= total && (tail == 0 || 32 <= tail)
      requires kept == Allocated(H()) - {aligned} && forall c :: c in hole ==> c < aligned
      modifies this`words, this`freeHead, this`rank, this`clock, this`size
      ensures Inv(H(), hole) && words.Keys == old(words.Keys)
      ensures aligned in size && size[aligned] == total && Allocated(H()) == old(Allocated(H()))
      ensures Keeps(old(H()), H(), kept)
      ensures Carves(old(BlocksOf(H())), aligned, 0, total, aligned, BlocksOf(H()))
    {
      if tail == 0 {
        TailTagged(H(), aligned, hole, kept);
        TrimNothing(BlocksOf(H()), aligned);
        WriteBlock(aligned, total, true);
      } else {
        ghost var h := H();
        BlockWhole(h, aligned, hole + {aligned});
        CutTail(aligned, total, tail, hole, kept);
        ghost var h1 := H();
        ghost var lo := ReleaseBlock(aligned + total, hole);
        TailDone(h, h1, H(), aligned, total, lo, kept);
      }
    }

    /** Cut the tail off and tag both parts as handed out. */
    method CutTail(aligned: int, total: int, tail: int, ghost hole: set<int>, ghost kept: set<int>)
      requires Inv(H(), hole + {aligned}) && aligned in size && aligned !in hole
      requires size[aligned] == total + tail && total % 16 == 0 && 32 <= total && 32 <= tail
      requires kept == Allocated(H()) - {aligned} && forall c :: c in hole ==> c < aligned
      modifies this`words, this`size
      ensures Inv(H(), hole) && words.Keys == old(words.Keys) && Keeps(old(H()), H(), kept)
      ensures Allocated(H()) == old(Allocated(H())) + {aligned + total} && aligned + total !in kept
      ensures aligned in size && size[aligned] == total && aligned + total in size
      ensures Succ(size, aligned + total) !in hole && HoleBelow(H(), hole, aligned + total)
      ensures BlocksOf(H()) == Sliced(old(BlocksOf(H())), aligned, total)
    {
      ghost var h := H();
      TailSplit(h, aligned, total, hole, kept);
      SplitIsSliced(h, aligned, total);
      size := size[aligned := total][aligned + total := tail];
      ghost var h1 := H();
      assert h1 == Split(h, aligned, total);
      TagBoth(aligned, total, tail, hole, kept);
      KeepsTrans(h, h1, H(), kept);
    }

    /** Tag a block as handed out. */
    method TagOne(block: int, total: int, ghost hole: set<int>, ghost kept: set<int>)
      requires Inv(H(), hole + {block}) && block !in hole && size[block] == total
      requires kept <= Allocated(H()) && block !in kept
      modifies this`words
      ensures Inv(H(), hole) && words.Keys == old(words.Keys)
      ensures Keeps(old(H()), H(), kept)
    {
      TailTagged(H(), block, hole, kept);
      WriteBlock(block, total, true);
    }

    /** Tag two neighbouring blocks as handed out. */
    method TagBoth(aligned: int, total: int, tail: int, ghost hole: set<int>, ghost kept: set<int>)
      requires Inv(H(), (hole + {aligned + total}) + {aligned}) && aligned !in hole && aligned + total !in hole
      requires size[aligned] == total && size[aligned + total] == tail && 0 < total
      requires kept <= Allocated(H()) && aligned !in kept && aligned + total !in kept
      modifies this`words
      ensures Inv(H(), hole) && words.Keys == old(words.Keys)
      ensures Keeps(old(H()), H(), kept)
    {
      ghost var h := H();
      TagOne(aligned, total, hole + {aligned + total}, kept);
      ghost var h1 := H();
      TagOne(aligned + total, tail, hole, kept);
      KeepsTrans(h, h1, H(), kept);
    }

    /** The part of a block below the aligned address, tagged and given back. */
    method CarvePrefix(block: int, prefix: int) returns (ghost lo: int)
      requires Inv(H(), {block}) && size[block] == prefix
      modifies this`words, this`freeHead, this`rank, this`clock, this`size
      ensures Inv(H(), {}) && words.Keys == old(words.Keys)
      ensures Allocated(H()) == old(Allocated(H())) - {block}
      ensures Keeps(old(H()), H(), old(Allocated(H())) - {block})
      ensures Joins(old(BlocksOf(H())), block, lo, BlocksOf(H()))
    {
      ghost var h := H();
      ghost var kept := Allocated(h) - {block};
      assert {block} == {} + {block};
      TagOne(block, prefix, {}, kept);
      ghost var h1 := H();
      lo := ReleaseBlock(block, {});
      KeepsTrans(h, h1, H(), kept);
    }

    /** Keep `total` bytes of a block from `prefix` on, and give the rest back on both sides. */
    method Carve(block: int, prefix: int, total: int, tail: int) returns (ghost lo: int)
      requires Inv(H(), {}) && block in Allocated(H()) && size[block] == prefix + total + tail
      requires prefix % 16 == 0 && total % 16 == 0 && 32 <= total
      requires (prefix == 0 || 32 <= prefix) && (tail == 0 || 32 <= tail)
      modifies this`words, this`freeHead, this`rank, this`clock, this`size
      ensures Inv(H(), {}) && words.Keys == old(words.Keys)
      ensures Allocated(H()) == old(Allocated(H())) - {block} + {block + prefix}
      ensures block + prefix in size && size[block + prefix] == total
      ensures Keeps(old(H()), H(), old(Allocated(H())) - {block})
      ensures Carves(old(BlocksOf(H())), block, prefix, total, lo, BlocksOf(H()))
    {
      ghost var h := H();
      lo := block;
      OpenBlock(h, block, {});
      if prefix == 0 {
        CarveTail(block, total, tail, {}, Allocated(h) - {block});
      } else {
        assert {} + {block} == {block};
        ghost var mid;
        lo, mid := CarveBoth(block, prefix, total, tail);
        BlockWhole(h, block, {block});
        CarveSteps(BlocksOf(h), block, prefix, total, mid, lo, BlocksOf(H()));
      }
    }

    method CarveBoth(block: int, prefix: int, total: int, tail: int) returns (ghost lo: int, ghost mid: Blocks)
      requires Inv(H(), {block}) && size[block] == prefix + total + tail
      requires prefix % 16 == 0 && total % 16 == 0 && 32 <= total && 32 <= prefix && (tail == 0 || 32 <= tail)
      modifies this`words, this`freeHead, this`rank, this`clock, this`size
      ensures Inv(H(), {}) && words.Keys == old(words.Keys)
      ensures Allocated(H()) == old(Allocated(H())) - {block} + {block + prefix}
      ensures block + prefix in size && size[block + prefix] == total
      ensures Keeps(old(H()), H(), old(Allocated(H())) - {block})
      ensures Carves(Sliced(old(BlocksOf(H())), block, prefix), block + prefix, 0, total, block + prefix, mid)
      ensures Joins(mid, block, lo, BlocksOf(H()))
    {
      ghost var h := H();
      CarveUpper(block, prefix, total, tail);
      mid := BlocksOf(H());
      lo := CarveLower(block, prefix, h);
    }

    /** What lies above the prefix is settled since `h`; give the prefix back. */
    method CarveLower(block: int, prefix: int, ghost h: State) returns (ghost lo: int)
      requires Inv(H(), {block}) && size[block] == prefix && block in Allocated(h)
      requires block + prefix !in Allocated(h) && block + prefix in size
      requires Allocated(H()) == Allocated(h) + {block + prefix} && Keeps(h, H(), Allocated(h) - {block})
      modifies this`words, this`freeHead, this`rank, this`clock, this`size
      ensures Inv(H(), {}) && words.Keys == old(words.Keys)
      ensures Allocated(H()) == Allocated(h) - {block} + {block + prefix} && Keeps(h, H(), Allocated(h) - {block})
      ensures block + prefix in size && size[block + prefix] == old(size[block + prefix])
      ensures Joins(old(BlocksOf(H())), block, lo, BlocksOf(H()))
    {
      ghost var h1 := H();
      lo := CarvePrefix(block, prefix);
      BothDone(h, h1, H(), block, block + prefix);
    }

    /** Everything above the prefix settled, the prefix itself still untagged. */
    method CarveUpper(block: int, prefix: int, total: int, tail: int)
      requires Inv(H(), {block}) && size[block] == prefix + total + tail
      requires prefix % 16 == 0 && total % 16 == 0 && 32 <= total && 32 <= prefix && (tail == 0 || 32 <= tail)
      modifies this`words, this`freeHead, this`rank, this`clock, this`size
      ensures Inv(H(), {block}) && words.Keys == old(words.Keys) && size[block] == prefix
      ensures Allocated(H()) == old(Allocated(H())) + {block + prefix} && block + prefix !in old(size)
      ensures block + prefix in size && size[block + prefix] == total
      ensures Keeps(old(H()), H(), old(Allocated(H())) - {block})
      ensures Carves(Sliced(old(BlocksOf(H())), block, prefix), block + prefix, 0, total, block + prefix, BlocksOf(H()))
    {
      ghost var h := H();
      ghost var kept := Allocated(h) - {block};
      PrefixSplit(h, block, prefix, kept);
      SplitIsSliced(h, block, prefix);
      size := size[block := prefix][block + prefix := total + tail];
      ghost var h1 := H();
      assert h1 == Split(h, block, prefix);
      CarveTail(block + prefix, total, tail, {block}, kept + {block});
      assert Keeps(h, H(), kept) by {
        KeepsLess(h1, H(), kept, kept + {block});
        KeepsTrans(h, h1, H(), kept);
      }
    }

    /** How `allocate_aligned` divides what lies above the prefix. */
    method Parts(originalSize: int, prefix: int, alignment: nat, bytes: nat) returns (total: int, tail: int)
      requires originalSize % 16 == 0 && alignment % 16 == 0 && prefix % 16 == 0
      requires originalSize - 20 >= bytes + alignment + 32 && 0 <= prefix <= alignment + 16
      ensures prefix + total + tail == originalSize && (tail == 0 || 32 <= tail)
      ensures total % 16 == 0 && total >= 32 && Holds(total, bytes) && total == Kept(originalSize - prefix, bytes)
    {
      TotalFits(bytes);
      CarveFits(bytes, alignment, prefix, originalSize);
      total := Total(bytes);
      tail := originalSize - prefix - total;
      if tail < 32 {
        RestIsSmall(total + tail, total);
        total, tail := total + tail, 0;
      }
    }

    /** The address computation of `allocate_aligned`. */
    method AlignedGap(raw: int, alignment: nat) returns (prefix: int)
      requires IsPowerOfTwo(alignment) && alignment > 16 && raw % 16 == 0 && raw >= 0
      ensures alignment % 16 == 0 && prefix % 16 == 0
      ensures Gap(raw, alignment, prefix) && prefix <= alignment + 16
    {
      PrefixIs(raw, alignment);
      var pointer := Clear(raw + alignment - 1, alignment - 1);
      prefix := pointer - raw;
      if prefix != 0 && prefix < 32 {
        prefix := prefix + alignment;
      }
    }

    /** `allocate_aligned` above 16 bytes: over-allocate, then carve out the aligned part. */
    method AllocateAbove16(alignment: nat, bytes: nat) returns (p: int)
      requires Valid() && IsPowerOfTwo(alignment) && 16 < alignment <= U32_MAX && bytes <= U32_MAX
      modifies this`words, this`pages, this`growCalls, this`programBreak,
               this`freeHead, this`rank, this`clock, this`size
      ensures Valid()
      ensures p == 0 ==>
                H() == old(H()).(words := words) && Keeps(old(H()), H(), Allocated(H())) && ErrnoIs(ENOMEM)
      ensures p != 0 ==> initialized && Granted(old(H()), H(), p, bytes) && AlignedTo(p, alignment)
      ensures initialized ==> Aligns(old(BlocksOf(H())), alignment, bytes, p, BlocksOf(H()))
    {
      if bytes + alignment + 32 > LARGEST - 35 {
        SetErrno(ENOMEM);
        return 0;
      }
      ghost var raw, mid, prefix, n, lo;
      p, raw, mid, prefix, n, lo := OverAllocate(alignment, bytes);
    }

    method OverAllocate(alignment: nat, bytes: nat)
      returns (p: int, ghost raw: int, ghost mid: Blocks, ghost gap: int, ghost kept: int, ghost lo: int)
      requires Valid() && IsPowerOfTwo(alignment) && 16 < alignment && bytes + alignment + 32 <= LARGEST - 35
      modifies this`words, this`pages, this`growCalls, this`programBreak,
               this`freeHead, this`rank, this`clock, this`size
      ensures Valid()
      ensures p == 0 ==>
                H() == old(H()).(words := words) && Keeps(old(H()), H(), Allocated(H())) && ErrnoIs(ENOMEM)
      ensures p != 0 ==> initialized && Granted(old(H()), H(), p, bytes) && AlignedTo(p, alignment)
      ensures initialized ==>
                AlignsVia(old(BlocksOf(H())), alignment, bytes, raw, mid, gap, kept, lo, p, BlocksOf(H()))
    {
      ghost var h := H();
      p := MallocCore(bytes + alignment + 32);
      raw, mid, gap, kept, lo := p, BlocksOf(H()), 0, 0, 0;
      if p != 0 {
        p, gap, kept, lo := MoveUp(p, alignment, bytes, h);
        assert AlignsVia(old(BlocksOf(H())), alignment, bytes, raw, mid, gap, kept, lo, p, BlocksOf(H()));
      }
    }

    /** Keep what starts at the first suitable address of a block just granted. */
    method MoveUp(raw: int, alignment: nat, bytes: nat, ghost h: State)
      returns (p: int, ghost gap: int, ghost kept: int, ghost lo: int)
      requires Ready({}) && Granted(h, H(), raw, bytes + alignment + 32)
      requires IsPowerOfTwo(alignment) && 16 < alignment
      modifies this`words, this`freeHead, this`rank, this`clock, this`size
      ensures Ready({}) && p != 0 && Granted(h, H(), p, bytes) && AlignedTo(p, alignment)
      ensures Shifts(old(BlocksOf(H())), alignment, bytes, raw, gap, kept, lo, p, BlocksOf(H()))
    {
      var prefix, total, tail := Divide(raw, alignment, bytes);
      lo := KeepAligned(raw, prefix, total, tail, bytes, h, bytes + alignment + 32);
      p, gap, kept := raw + prefix, prefix, total;
      ShiftsVia(old(BlocksOf(H())), alignment, bytes, raw, gap, kept, lo, BlocksOf(H()));
    }

    /** The gap below the first suitable address of a block, what is kept, and the tail. */
    method Divide(raw: int, alignment: nat, bytes: nat) returns (prefix: int, total: int, tail: int)
      requires Inv(H(), {}) && raw - 16 in Allocated(H()) && IsPowerOfTwo(alignment) && 16 < alignment
      requires size[raw - 16] - 20 >= bytes + alignment + 32
      ensures Gap(raw, alignment, prefix) && prefix % 16 == 0 && prefix + total + tail == size[raw - 16]
      ensures total % 16 == 0 && 32 <= total && (tail == 0 || 32 <= tail) && Holds(total, bytes)
      ensures total == Kept(size[raw - 16] - prefix, bytes)
      ensures 0 <= prefix
    {
      AllocatedTag(H(), raw - 16);
      prefix := AlignedGap(raw, alignment);
      total, tail := Parts(TagSize(words[raw - 16]), prefix, alignment, bytes);
    }

    method KeepAligned(raw: int, prefix: int, total: int, tail: int, ghost bytes: nat, ghost h: State,
                       ghost reserve: int)
      returns (ghost lo: int)
      requires Ready({}) && Granted(h, H(), raw, reserve) && size[raw - 16] == prefix + total + tail
      requires prefix % 16 == 0 && (prefix == 0 || 32 <= prefix) && total % 16 == 0 && (tail == 0 || 32 <= tail)
      requires 32 <= total && Holds(total, bytes)
      modifies this`words, this`freeHead, this`rank, this`clock, this`size
      ensures Ready({}) && Granted(h, H(), raw + prefix, bytes)
      ensures Carves(old(BlocksOf(H())), raw - 16, prefix, total, lo, BlocksOf(H()))
    {
      ghost var h1 := H();
      lo := Carve(raw - 16, prefix, total, tail);
      GrantedThenCarved(h, h1, H(), raw - 16, prefix, reserve, bytes);
    }

    /** `allocate_aligned`. */
    method AllocateAligned(alignment: nat, bytes: nat) returns (p: int)
      requires Valid() && IsPowerOfTwo(alignment) && alignment <= U32_MAX && bytes <= U32_MAX
      modifies this`words, this`pages, this`growCalls, this`programBreak,
               this`freeHead, this`rank, this`clock, this`size
      ensures Valid()
      ensures p == 0 ==> Allocations() == old(Allocations()) && BlocksOf(H()) == old(BlocksOf(H())) && ErrnoIs(ENOMEM)
      ensures p != 0 ==> p !in old(Allocations()) && Allocations() - {p} == old(Allocations())
      ensures p != 0 ==> p in Allocations() && bytes <= |Allocations()[p]| < bytes + 32 && AlignedTo(p, alignment)
      ensures initialized ==> Aligns(old(BlocksOf(H())), alignment, bytes, p, BlocksOf(H()))
      ensures !initialized ==> p == 0
    {
      ghost var h := H();
      if alignment <= 16 {
        p := MallocCore(bytes);
        if p != 0 {
          SmallAlignment(H(), p, alignment);
        }
      } else {
        p := AllocateAbove16(alignment, bytes);
      }
      if p == 0 {
        SameAllocations(h, H(), initialized);
      } else {
        GrantedLive(h, H(), p, bytes);
      }
    }

    /** `aligned_alloc`: the alignment must be a power of two that divides the size. */
    method AlignedAlloc(alignment: nat, bytes: nat) returns (p: int)
      requires Valid() && alignment <= U32_MAX && bytes <= U32_MAX
      modifies this`words, this`pages, this`growCalls, this`programBreak,
               this`freeHead, this`rank, this`clock, this`size
      ensures Valid()
      ensures !initialized || !IsPowerOfTwo(alignment) || bytes % alignment != 0 ==>
                p == 0 && BlocksOf(H()) == old(BlocksOf(H()))
      ensures initialized && IsPowerOfTwo(alignment) && bytes % alignment == 0 ==>
                Aligns(old(BlocksOf(H())), alignment, bytes, p, BlocksOf(H()))
      ensures p == 0 ==>
                && Allocations() == old(Allocations())
                && ErrnoIs(if IsPowerOfTwo(alignment) && bytes % alignment == 0 then ENOMEM else EINVAL)
      ensures p != 0 ==> p !in old(Allocations()) && Allocations() - {p} == old(Allocations())
      ensures p != 0 ==> p in Allocations() && bytes <= |Allocations()[p]| < bytes + 32 && p % alignment == 0
    {
      ghost var h := H();
      if alignment > 0 {
        PowerOfTwoTest(alignment);
      }
      if alignment == 0 || And(alignment, alignment - 1) != 0 || bytes % alignment != 0 {
        SetErrno(EINVAL);
        SameAllocations(h, H(), initialized);
        return 0;
      }
      p := AllocateAligned(alignment, bytes);
      if p != 0 {
        AlignedIs(p, alignment);
      }
    }

    /** `posix_memalign`: the error is returned, and errno is left as it was. `given` says
        whether there is a place to store the pointer; `p` is what is stored there, or 0 if
        nothing is. */
    method PosixMemalign(given: bool, alignment: nat, bytes: nat) returns (error: int, p: int)
      requires Valid() && alignment <= U32_MAX && bytes <= U32_MAX
      modifies this`words, this`pages, this`growCalls, this`programBreak,
               this`freeHead, this`rank, this`clock, this`size
      ensures Valid()
      ensures error == EINVAL <==> !given || alignment < 4 || !IsPowerOfTwo(alignment)
      ensures error == 0 || error == EINVAL || error == ENOMEM
      ensures error != 0 ==> p == 0 && Allocations() == old(Allocations())
      ensures error == 0 ==> p != 0 && p !in old(Allocations()) && Allocations() - {p} == old(Allocations())
      ensures error == 0 ==> p in Allocations() && bytes <= |Allocations()[p]| < bytes + 32 && p % alignment == 0
      ensures error == EINVAL || !initialized ==> BlocksOf(H()) == old(BlocksOf(H()))
      ensures error != EINVAL && initialized ==> Aligns(old(BlocksOf(H())), alignment, bytes, p, BlocksOf(H()))
      ensures initialized && errnoAddress != 0 ==> words[errnoAddress] == old(words[errnoAddress])
    {
      if alignment > 0 {
        PowerOfTwoTest(alignment);
      }
      if !given || alignment < 4 || And(alignment, alignment - 1) != 0 {
        return EINVAL, 0;
      }
      p := AllocateQuietly(alignment, bytes);
      if p == 0 {
        return ENOMEM, 0;
      }
      AlignedIs(p, alignment);
      error := 0;
    }

    /** `allocate_aligned` with errno put back. */
    method AllocateQuietly(alignment: nat, bytes: nat) returns (p: int)
      requires Valid() && IsPowerOfTwo(alignment) && alignment <= U32_MAX && bytes <= U32_MAX
      modifies this`words, this`pages, this`growCalls, this`programBreak,
               this`freeHead, this`rank, this`clock, this`size
      ensures Valid()
      ensures p == 0 ==> Allocations() == old(Allocations()) && BlocksOf(H()) == old(BlocksOf(H()))
      ensures p != 0 ==> p !in old(Allocations()) && Allocations() - {p} == old(Allocations())
      ensures p != 0 ==> p in Allocations() && bytes <= |Allocations()[p]| < bytes + 32 && AlignedTo(p, alignment)
      ensures if initialized then Aligns(old(BlocksOf(H())), alignment, bytes, p, BlocksOf(H())) else p == 0
      ensures initialized && errnoAddress != 0 ==> words[errnoAddress] == old(words[errnoAddress])
    {
      var saved := if initialized && errnoAddress != 0 then words[errnoAddress] else 0;
      p := AllocateAligned(alignment, bytes);
      ghost var h := H();
      SetErrno(saved);
      SameAllocations(h, H(), initialized);
    }

    /** The program stores a byte into memory it owns. */
    method Store(p: int, i: nat, v: Byte)
      requires Valid() && p in Allocations() && i < |Allocations()[p]|
      modifies this`words
      ensures Valid()
      ensures p in old(Allocations()) && i < |old(Allocations())[p]|
      ensures Allocations() == old(Allocations())[p := old(Allocations())[p][i := v]]
    {
      LivePointer(H(), p, initialized);
      StoreReady(p, i, v);
    }

    method StoreReady(p: int, i: nat, v: Byte)
      requires Ready({}) && p in Allocations() && i < |Allocations()[p]|
      modifies this`words
      ensures Ready({})
      ensures p in old(Allocations()) && i < |old(Allocations())[p]|
      ensures Allocations() == old(Allocations())[p := old(Allocations())[p][i := v]]
    {
      StoreLive(H(), p, i, v);
      words := PutByte(words, p + i, v);
    }
  }
}
