/** The operations on a process's address space (src/engine/process.c, src/engine/store.c):
    reserving and allocating regions, mapping, unmapping, recording file mappings, forking. */
module Capsules {
  import opened Spans
  import opened FileMappings
  import opened AddressSpace

  /** The reference counts of file objects, shared by all processes. */
  class Files {
    var refs: map<int, int>

    constructor (refs: map<int, int>)
      ensures this.refs == refs
    {
      this.refs := refs;
    }
  }

  const NO_MEMORY: Memory := Memory([], 0, 0, 0)

  /** The bounds a length must meet, and the pages it takes. */
  ghost predicate LengthOk(length: int) {
    0 < length <= U64_MAX - (PAGE - 1)
  }

  lemma PagesForCover(length: int)
    requires LengthOk(length)
    ensures 0 < PagesFor(length) && length <= Address(PagesFor(length)) < length + PAGE
    ensures Address(PagesFor(length)) <= U64_MAX
  {
  }

  /** `native_process_capsule_page_range`. */
  method PageRange(length: int) returns (ok: bool, count: int)
    requires 0 <= length
    ensures ok <==> LengthOk(length)
    ensures ok ==> count == PagesFor(length) && 0 < count <= U64_MAX
  {
    if length == 0 || length > U64_MAX - (PAGE - 1) {
      return false, 0;
    }
    PagesForCover(length);
    return true, (length + PAGE - 1) / PAGE;
  }

  /** The startup bytes of a process without an image. */
  const NO_STARTUP: Span<bool> := Span(0, 0, true)

  /** A page that holds startup bytes. */
  ghost predicate StartupPage(startup: Span<bool>, page: int) {
    startup.length > 0 && Meets(startup, Address(page), Address(page + 1))
  }

  /** Every page that holds startup bytes lies in a startup region. */
  ghost predicate StartupReserved(rs: seq<Region>, startup: Span<bool>) {
    forall page :: StartupPage(startup, page) ==> Covers(rs, page, Startup)
  }

  /** With an image, startup regions have no other pages. */
  ghost predicate StartupTight(rs: seq<Region>, startup: Span<bool>) {
    startup.length > 0 ==> forall page :: Covers(rs, page, Startup) ==> StartupPage(startup, page)
  }

  class Capsule {
    var regions: seq<Region>
    var mappings: seq<FileMapping>
    var memory: Memory
    var virtualLimit: nat
    var startup: Span<bool>
    const files: Files

    ghost predicate Valid()
      reads this, files
    {
      && Sound(regions, mappings, files.refs)
      && memory.limit <= U64_MAX && virtualLimit <= U64_MAX
      && memory.capacity <= U64_MAX && Pages(memory) <= U64_MAX
      && 0 <= startup.start && 0 <= startup.length && End(startup) <= U64_MAX
      && StartupReserved(regions, startup)
    }

    function Limit(): int
      reads this
    {
      if virtualLimit != 0 then virtualLimit else MEM32_MAX_PAGES
    }

    constructor (files: Files, memory: Memory)
      requires memory.limit <= U64_MAX && memory.capacity <= U64_MAX && Pages(memory) <= U64_MAX
      requires forall file :: file in files.refs ==> 0 <= files.refs[file]
      ensures Valid() && regions == [] && mappings == [] && this.files == files && this.memory == memory
    {
      regions, mappings, virtualLimit, startup := [], [], 0, NO_STARTUP;
      this.files, this.memory := files, memory;
      new;
      NoStartup(regions);
    }

    /** `native_process_capsule_reserve_region`; `grows` says whether the list can grow. */
    method Reserve(first: int, count: int, kind: Kind, grows: bool) returns (r: int)
      requires Tidy(regions) && Bounded(regions) && 0 <= first && 0 <= count
      modifies this`regions
      ensures Tidy(regions) && Bounded(regions) && (old(Valid()) ==> Valid())
      ensures r == if count == 0 || first > U64_MAX - count || !Unreserved(old(regions), first, count) then EINVAL
                   else if grows then 0 else ENOMEM
      ensures regions == if r == 0 then old(regions) + [Span(first, count, kind)] else old(regions)
    {
      if count == 0 || first > U64_MAX - count {
        return EINVAL;
      }
      var k := FindRegion(regions, first, count);
      if k != -1 {
        return EINVAL;
      }
      if !grows {
        return ENOMEM;
      }
      TidyAppend(regions, Span(first, count, kind));
      if Valid() {
        BackedAppend(regions, mappings, Span(first, count, kind));
        ReservedAppend(regions, startup, Span(first, count, kind));
      }
      regions := regions + [Span(first, count, kind)];
      r := 0;
    }

    /** `native_process_capsule_allocate_region`: the lowest, or the highest, free range
        below the limit; it fails exactly when there is none or the list cannot grow. */
    method Allocate(count: int, kind: Kind, topDown: bool, grows: bool) returns (r: int, first: int)
      requires Valid() && 0 <= count
      modifies this`regions
      ensures Valid()
      ensures r == 0 <==>
              0 < count && grows && exists c :: 0 <= c && c + count <= Limit() && Unreserved(old(regions), c, count)
      ensures r != 0 ==> regions == old(regions) && r == if count == 0 then EINVAL else ENOMEM
      ensures r == 0 ==>
                && 0 <= first && first + count <= Limit() && Unreserved(old(regions), first, count)
                && regions == old(regions) + [Span(first, count, kind)]
                && (topDown ==> forall c :: first < c && c + count <= Limit() ==> !Unreserved(old(regions), c, count))
                && (!topDown ==> forall c :: 0 <= c < first ==> !Unreserved(old(regions), c, count))
    {
      if count == 0 {
        return EINVAL, 0;
      }
      NoMemory(regions, count);
      if topDown {
        first := SearchDown(regions, NO_MEMORY, 0, Limit(), count);
      } else {
        first := SearchUp(regions, NO_MEMORY, Limit(), count);
      }
      if first == -1 {
        return ENOMEM, first;
      }
      r := Reserve(first, count, kind, grows);
    }

    lemma NoMemory(rs: seq<Region>, count: int)
      ensures forall c :: Vacant(rs, NO_MEMORY, c, count) <==> Unreserved(rs, c, count)
    {
    }

    /** `native_store_allocate_library_region`: the highest free range below the guard and
        stack pages. */
    method AllocateLibrary(count: int, grows: bool) returns (r: int, first: int)
      requires Valid() && 0 <= count
      modifies this`regions
      ensures Valid()
      ensures old(LibrariesBelow(regions, Limit())) ==> LibrariesBelow(regions, Limit())
      ensures r == 0 <==>
              && 0 < count && grows
              && exists c :: 0 <= c && c + count <= Limit() - GUARDED_PAGES && Unreserved(old(regions), c, count)
      ensures r != 0 ==> regions == old(regions) && r == if count == 0 then EINVAL else ENOMEM
      ensures r == 0 ==>
                && 0 <= first && first + count <= Limit() - GUARDED_PAGES && Unreserved(old(regions), first, count)
                && regions == old(regions) + [Span(first, count, Library)]
                && forall c :: first < c && c + count <= Limit() - GUARDED_PAGES ==> !Unreserved(old(regions), c, count)
    {
      if count == 0 {
        return EINVAL, 0;
      }
      if Limit() <= GUARDED_PAGES || count > Limit() - GUARDED_PAGES {
        return ENOMEM, 0;
      }
      NoMemory(regions, count);
      first := SearchDown(regions, NO_MEMORY, 0, Limit() - GUARDED_PAGES, count);
      if first == -1 {
        return ENOMEM, first;
      }
      r := Reserve(first, count, Library, grows);
    }

    // ---- mapping -------------------------------------------------------------------

    /** The range a mapping goes to: the one asked for, or the one the search finds. */
    method Place(address: int, count: int) returns (r: int, first: int)
      requires Valid() && 0 <= address && 0 < count
      ensures r == 0 ==> 0 <= first && first + count <= U64_MAX && Unreserved(regions, first, count)
      ensures r == 0 && address != 0 ==> Address(first) == address
      ensures address != 0 ==>
                r == if !Aligned(address) || PageOf(address) > memory.limit then EINVAL
                     else if PageOf(address) + count > memory.limit then ENOMEM
                     else if !Unreserved(regions, PageOf(address), count) then EEXIST
                     else 0
      ensures address == 0 ==>
                && r == (if exists c :: Candidate(regions, memory, c, count) then 0 else ENOMEM)
                && (r == 0 ==> Chosen(regions, memory, first, count))
    {
      first := 0;
      if address != 0 {
        if !Aligned(address) || PageOf(address) > memory.limit {
          return EINVAL, first;
        }
        first := PageOf(address);
        if count > memory.limit - first {
          return ENOMEM, first;
        }
        var k := FindRegion(regions, first, count);
        return if k != -1 then EEXIST else 0, first;
      }
      first := Search(regions, memory, count);
      r := if first == -1 then ENOMEM else 0;
    }

    /** Grow the page table over the range, if it does not reach that far. */
    method Extend(first: int, count: int, grows: bool) returns (ok: bool)
      requires Valid() && 0 <= first && 0 <= count
      modifies this`memory
      ensures Valid()
      ensures ok <==> Fits(old(memory), first, count) || (first + count <= memory.capacity && grows)
      ensures ok ==> Fits(memory, first, count)
      ensures memory == if ok && !Fits(old(memory), first, count) then Grown(old(memory), first + count)
                        else old(memory)
    {
      if Fits(memory, first, count) {
        return true;
      }
      if first + count > memory.capacity || !grows {
        return false;
      }
      memory := Grown(memory, first + count);
      ok := true;
    }

    /** `native_process_capsule_mmap_range`; the flags say whether the page table and the
        region list can grow and whether the page map accepts the protection. A failure
        leaves the regions, the file mappings and the mapped pages as they were. */
    method Mmap(address: int, length: int, noReplace: bool, tableGrows: bool, listGrows: bool, accepted: bool)
      returns (r: int, out: int)
      requires Valid() && 0 <= address && 0 <= length
      modifies this`regions, this`memory
      ensures Valid()
      ensures old(LibrariesBelow(regions, Limit())) ==> LibrariesBelow(regions, Limit())
      ensures memory == old(memory).(mapped := memory.mapped)
      ensures !LengthOk(length) ==> r == EINVAL
      ensures r != 0 ==>
                && regions == old(regions)
                && forall page :: PageMapped(memory, page) == old(PageMapped(memory, page))
      ensures r == 0 ==>
                && Aligned(out) && (address != 0 ==> out == address)
                && var first, count := PageOf(out), PagesFor(length);
                   && regions == old(regions) + [Span(first, count, Mapping)]
                   && old(Vacant(regions, memory, first, count))
                   && (address == 0 ==> old(Chosen(regions, memory, first, count)))
                   && forall page ::
                        PageMapped(memory, page) == (first <= page < first + count || old(PageMapped(memory, page)))
      ensures address == 0 && r == 0 ==>
                (out + Address(PagesFor(length)) <= 0x8000_0000 <==>
                 old(SignedFit(regions, memory, PagesFor(length))))
      ensures address == 0 && LengthOk(length) && tableGrows && listGrows && accepted
              && old(memory.limit <= memory.capacity) ==>
                (r == 0 <==> exists c :: old(Candidate(regions, memory, c, PagesFor(length))))
    {
      out := 0;
      var ok, count := PageRange(length);
      if !ok {
        return EINVAL, out;
      }
      var first;
      r, first := Place(address, count);
      if r != 0 {
        return;
      }
      AddressAligned(first);
      if address == 0 {
        ChosenSigned(regions, memory, first, count);
      }
      r := MapPages(first, count, noReplace && address != 0, tableGrows, listGrows, accepted);
      out := Address(first);
    }

    method MapPages(first: int, count: int, noReplace: bool, tableGrows: bool, listGrows: bool, accepted: bool)
      returns (r: int)
      requires Valid() && 0 <= first && 0 < count && first + count <= U64_MAX
      requires Unreserved(regions, first, count)
      modifies this`regions, this`memory
      ensures Valid()
      ensures r != 0 ==>
                && regions == old(regions)
                && forall page :: PageMapped(memory, page) == old(PageMapped(memory, page))
      ensures r == 0 ==>
                && regions == old(regions) + [Span(first, count, Mapping)] && old(Unmapped(memory, first, count))
                && forall page ::
                     PageMapped(memory, page) == (first <= page < first + count || old(PageMapped(memory, page)))
      ensures old(LibrariesBelow(regions, Limit())) ==> LibrariesBelow(regions, Limit())
      ensures memory == old(memory).(mapped := memory.mapped)
      ensures r == 0 <==>
              && (Fits(old(memory), first, count) || (first + count <= old(memory).capacity && tableGrows))
              && listGrows && accepted && old(Unmapped(memory, first, count))
    {
      var ok := Extend(first, count, tableGrows);
      if !ok {
        return ENOMEM;
      }
      assert forall page :: PageMapped(memory, page) == old(PageMapped(memory, page));
      assert Unmapped(memory, first, count) == old(Unmapped(memory, first, count));
      r := MapRange(first, count, noReplace, listGrows, accepted);
    }

    /** Reserve the range and map its pages, or neither. */
    method MapRange(first: int, count: int, noReplace: bool, listGrows: bool, accepted: bool) returns (r: int)
      requires Valid() && 0 <= first && 0 < count && first + count <= U64_MAX && Fits(memory, first, count)
      requires Unreserved(regions, first, count)
      modifies this`regions, this`memory
      ensures Valid()
      ensures r == if !listGrows then ENOMEM
                   else if Unmapped(old(memory), first, count) then if accepted then 0 else EINVAL
                   else if noReplace then EEXIST else EINVAL
      ensures r != 0 ==> regions == old(regions) && memory == old(memory)
      ensures r == 0 ==>
                && regions == old(regions) + [Span(first, count, Mapping)]
                && memory == WithPages(old(memory), first, count, true)
    {
      r := Reserve(first, count, Mapping, listGrows);
      if r != 0 {
        return ENOMEM;
      }
      var taken := AnyMapped(memory, first, count);
      if noReplace && taken {
        RemoveLast(first, count);
        return EEXIST;
      }
      if taken || !accepted {
        RemoveLast(first, count);
        return EINVAL;
      }
      memory := WithPages(memory, first, count, true);
    }

    /** `native_process_capsule_remove_last_mapping_region`. */
    method RemoveLast(first: int, count: int)
      modifies this`regions
      ensures regions == if old(regions) != [] && old(regions)[|old(regions)| - 1] == Span(first, count, Mapping)
                         then old(regions)[..|old(regions)| - 1] else old(regions)
    {
      if |regions| == 0 {
        return;
      }
      var region := regions[|regions| - 1];
      if region.tag == Mapping && region.start == first && region.length == count {
        regions := regions[..|regions| - 1];
      }
    }

    // ---- file mappings -------------------------------------------------------------

    /** `native_process_capsule_record_file_mapping`; the caller hands over a reference of its
        own. The record fits in exactly when its bytes lie on pages of mapping regions that
        no file is mapped to yet. */
    method Record(m: FileMapping, grows: bool) returns (r: int)
      requires Valid()
      requires m.file in files.refs && Records(mappings, m.file) < files.refs[m.file]
      modifies this`mappings
      ensures r == if !FileMappings.Proper(m) then EINVAL else if grows then 0 else ENOMEM
      ensures mappings == if r == 0 then old(mappings) + [m] else old(mappings)
      ensures Valid() <==> r != 0 || (Open(old(mappings), m) && OnMapping(regions, m))
    {
      if m.length <= 0 || m.address < 0 || m.offset < 0 || m.address % PAGE != 0
         || m.address > U64_MAX - m.length || m.offset > U64_MAX - m.length {
        return EINVAL;
      }
      if !grows {
        return ENOMEM;
      }
      RecordKeeps(regions, mappings, files.refs, m);
      ghost var sound := Sound(regions, mappings + [m], files.refs);
      mappings := mappings + [m];
      r := 0;
      assert Valid() <==> sound;
    }

    /** `native_process_capsule_forget_file_mapping`. */
    method Forget(address: int, length: int, built: bool) returns (r: int)
      requires Valid() && 0 <= address && 0 <= length
      modifies this`mappings, files`refs
      ensures Valid()
      ensures SameOthers(old(mappings), old(files.refs), mappings, files.refs)
      ensures r != 0 ==> mappings == old(mappings) && files.refs == old(files.refs)
      ensures r == if length == 0 || !Aligned(address) || !Aligned(length) || address > U64_MAX - length then EINVAL
                   else if built then 0 else ENOMEM
      ensures r == 0 ==> mappings == Release(old(mappings), address, address + length)
    {
      if length == 0 || !Aligned(address) || !Aligned(length) || address > U64_MAX - length {
        return EINVAL;
      }
      if !built {
        return ENOMEM;
      }
      var _, records, retained := BuildRelease(mappings, files.refs, address, length);
      ForgetSound(regions, mappings, address, length);
      var refs := ReleaseAll(mappings, retained);
      mappings, files.refs := records, refs;
      r := 0;
    }

    /** The part of `native_process_capsule_clone` that copies the address space: the child
        has the same regions and mappings, every record of it has a reference of its own, and
        it has no image, hence no startup bytes. */
    method Fork() returns (child: Capsule)
      requires Valid()
      modifies files`refs
      ensures Valid() && child.Valid() && fresh(child) && child.files == files
      ensures child.regions == regions && child.mappings == mappings && child.memory == memory
      ensures child.virtualLimit == virtualLimit && child.startup == NO_STARTUP
      ensures files.refs.Keys == old(files.refs.Keys)
      ensures forall file :: file in files.refs ==> files.refs[file] == old(files.refs[file]) + Records(mappings, file)
    {
      var refs := RetainAll(mappings, files.refs);
      files.refs := refs;
      child := new Capsule.Copy(this);
    }

    constructor Copy(parent: Capsule)
      requires parent.Valid()
      ensures Valid() && files == parent.files && regions == parent.regions && mappings == parent.mappings
      ensures memory == parent.memory
      ensures virtualLimit == parent.virtualLimit && startup == NO_STARTUP
    {
      regions, mappings, virtualLimit := parent.regions, parent.mappings, parent.virtualLimit;
      startup, files, memory := NO_STARTUP, parent.files, parent.memory;
      new;
      NoStartup(regions);
    }

    /** The part of `native_process_capsule_destroy` that gives up the address space. */
    method Destroy()
      requires Valid()
      modifies this`regions, this`mappings, this`memory, this`virtualLimit, this`startup, files`refs
      ensures Valid() && regions == [] && mappings == [] && memory == NO_MEMORY && startup == NO_STARTUP
      ensures virtualLimit == 0
      ensures files.refs.Keys == old(files.refs.Keys)
      ensures forall file :: file in files.refs ==>
                files.refs[file] == old(files.refs[file]) - old(Records(mappings, file))
    {
      var refs := ReleaseAll(mappings, files.refs);
      NothingIsSound(mappings, files.refs, refs);
      NoStartup([]);
      Clear(refs);
    }

    method Clear(refs: map<int, int>)
      requires Sound([], [], refs) && StartupReserved([], NO_STARTUP)
      modifies this`regions, this`mappings, this`memory, this`virtualLimit, this`startup, files`refs
      ensures Valid() && regions == [] && mappings == [] && memory == NO_MEMORY && startup == NO_STARTUP
      ensures virtualLimit == 0 && files.refs == refs
    {
      files.refs, mappings, regions, startup := refs, [], [], NO_STARTUP;
      memory, virtualLimit := NO_MEMORY, 0;
    }

    // ---- exec ----------------------------------------------------------------------

    /** Reserve the next region of a plan; `room` is how many regions the list can hold. */
    method ReserveNext(first: int, count: int, kind: Kind, room: nat, ghost plan: seq<Region>) returns (r: int)
      requires Stacked(plan) && |regions| < |plan| && regions == plan[..|regions|]
      requires plan[|regions|] == Span(first, count, kind)
      modifies this`regions
      ensures r == if |old(regions)| < room then 0 else ENOMEM
      ensures |regions| == |old(regions)| + (if r == 0 then 1 else 0) && regions == plan[..|regions|]
    {
      StackedTidy(plan, |regions|);
      r := Reserve(first, count, kind, |regions| < room);
    }

    /** The part of `native_store_commit_process_image` that lays out the address space:
        the regions of the image, then those of the libraries `ls` that are loaded. The old
        regions are dropped first, so a commit that fails leaves the old image without them;
        file mappings are kept either way, so the new address space is sound exactly if there
        were none and the startup bytes, if any, lie in a memory. No library can reach into
        the guard and stack pages. */
    method Exec(i: Image, ls: seq<LoadedLibrary>, room: nat) returns (r: int)
      requires Valid() && Sized(i) && AllSmall(ls)
      modifies this`regions, this`memory, this`virtualLimit, this`startup
      ensures regions == Committed(i, ls, room).regions && r == if Committed(i, ls, room).ok then 0 else ENOMEM
      ensures r == 0 ==>
                && memory == i.memory && startup == Span(i.start, i.size, true)
                && virtualLimit == PageLimit(i) && StartupTight(regions, startup)
                && (Valid() <==> mappings == [] && (i.memory.linear > 0 || i.size == 0))
                && LibrariesBelow(regions, Limit())
      ensures r != 0 ==> memory == old(memory) && startup == old(startup)
    {
      regions, virtualLimit := [], PageLimit(i);
      if i.memory.linear > 0 {
        r := LayOut(i, room);
        if r != 0 {
          return ENOMEM;
        }
        r := ReserveLibraries(i, ls, room);
        if r != 0 {
          return;
        }
      }
      memory, startup := i.memory, Span(i.start, i.size, true);
      CommitSound(i, ls, room, mappings);
      r := 0;
    }

    /** The loop over the loaded libraries. */
    method ReserveLibraries(ghost i: Image, ls: seq<LoadedLibrary>, room: nat) returns (r: int)
      requires Fitting(i) && regions == ImageRegions(i) && AllSmall(ls)
      modifies this`regions
      ensures regions == WithLibraries(old(regions), ls, room).regions
      ensures r == if WithLibraries(old(regions), ls, room).ok then 0 else ENOMEM
    {
      ImageTidy(i);
      var k := 0;
      while k < |ls|
        invariant 0 <= k <= |ls| && Tidy(regions) && Bounded(regions)
        invariant WithLibraries(regions, ls[k..], room) == WithLibraries(old(regions), ls, room)
      {
        assert ls[k..][0] == ls[k] && ls[k..][1..] == ls[k + 1..];
        if ls[k].size > 0 {
          r := ReserveLibrary(ls[k], room);
          if r != 0 {
            return ENOMEM;
          }
        }
        k := k + 1;
      }
      r := 0;
    }

    method ReserveLibrary(l: LoadedLibrary, room: nat) returns (r: int)
      requires Tidy(regions) && Bounded(regions) && l.base <= U32_MAX && 0 < l.size <= U32_MAX
      modifies this`regions
      ensures Tidy(regions) && Bounded(regions)
      ensures r == 0 <==>
              Unreserved(old(regions), LibraryRegion(l).start, LibraryRegion(l).length) && |old(regions)| < room
      ensures regions == if r == 0 then old(regions) + [LibraryRegion(l)] else old(regions)
    {
      LibraryPages(l);
      var first, last := PageOf(l.base), PagesFor(l.base + l.size);
      r := Reserve(first, last - first, Library, |regions| < room);
    }

    method LayOut(i: Image, room: nat) returns (r: int)
      requires i.memory.linear > 0 && regions == []
      modifies this`regions
      ensures r == if Fitting(i) && |ImageRegions(i)| <= room then 0 else ENOMEM
      ensures regions == if !Fitting(i) then [] else if r == 0 then ImageRegions(i) else ImageRegions(i)[..room]
    {
      var first, last, stack := StartupFirst(i), StartupLast(i), PageLimit(i) - GUARDED_PAGES;
      if first > i.memory.linear || last < first || last > i.memory.linear || last >= stack {
        return ENOMEM;
      }
      ImageStacked(i);
      r := ReserveBottom(first, last, room, ImageRegions(i));
      if r == 0 {
        r := ReserveTop(last, stack, room, ImageRegions(i));
      }
    }

    method ReserveBottom(first: int, last: int, room: nat, ghost plan: seq<Region>) returns (r: int)
      requires Stacked(plan) && regions == [] && 0 <= first <= last && Bottom(first, last) <= plan
      modifies this`regions
      ensures r == if |Bottom(first, last)| <= room then 0 else ENOMEM
      ensures regions == if r == 0 then Bottom(first, last) else plan[..room]
    {
      r := 0;
      if first > 0 {
        r := ReserveNext(0, first, Module, room, plan);
      }
      if r == 0 && last > first {
        r := ReserveNext(first, last - first, Startup, room, plan);
      }
    }

    method ReserveTop(last: int, stack: int, room: nat, ghost plan: seq<Region>) returns (r: int)
      requires Stacked(plan) && |regions| + 3 == |plan| && regions == plan[..|regions|] && |regions| <= room
      requires plan[|regions|..] == [Span(last, 1, Brk), Span(stack, 1, Guard), Span(stack + 1, 16, Stack)]
      modifies this`regions
      ensures r == if |plan| <= room then 0 else ENOMEM
      ensures regions == if r == 0 then plan else plan[..room]
    {
      r := ReserveNext(last, 1, Brk, room, plan);
      if r == 0 {
        r := ReserveNext(stack, 1, Guard, room, plan);
      }
      if r == 0 {
        r := ReserveNext(stack + 1, 16, Stack, room, plan);
      }
    }

    // ---- unmapping -----------------------------------------------------------------

    /** The range is refused for the sake of the startup block. */
    ghost predicate OnStartup(address: int, length: int)
      reads this
    {
      || FirstMetIs(regions, PageOf(address), PagesFor(length), Startup)
      || OnImage(address, length)
    }

    /** There is an image, and its startup bytes meet the bytes asked for, or an end of the two
        does not fit in 64 bits. */
    ghost predicate OnImage(address: int, length: int)
      reads this
    {
      && startup.length != 0
      && (address + length > U64_MAX || End(startup) > U64_MAX || Meets(startup, address, address + length))
    }

    /** Nothing but the startup block stands against unmapping the range. */
    ghost predicate Unmappable(address: int, length: int)
      reads this
    {
      && Aligned(address) && LengthOk(length) && Address(PageOf(address) + PagesFor(length)) <= U64_MAX
      && Fits(memory, PageOf(address), PagesFor(length))
    }

    method StartupFirstMet(first: int, count: int) returns (meets: bool)
      requires 0 <= first && 0 < count && first + count <= U64_MAX
      ensures meets <==> FirstMetIs(regions, first, count, Startup)
    {
      var k := FindRegion(regions, first, count);
      meets := k != -1 && regions[k].tag == Startup;
    }

    /** The check for the startup block: its region, if that is the first the range meets,
        and its bytes. */
    method MeetsStartup(address: int, length: int, first: int, count: int) returns (meets: bool)
      requires Valid() && 0 <= address && 0 < length && 0 <= first && 0 < count && first + count <= U64_MAX
      requires first == PageOf(address) && count == PagesFor(length)
      ensures meets <==> OnStartup(address, length)
    {
      meets := StartupFirstMet(first, count);
      if meets {
        return;
      }
      if startup.length != 0 {
        var end, startupEnd := address + length, startup.start + startup.length;
        if end > U64_MAX || startupEnd > U64_MAX {
          return true;
        }
        if address < startupEnd && startup.start < end {
          return true;
        }
      }
      return false;
    }

    /** `native_process_capsule_munmap_range`; the flags say whether the replacement lists
        can be built and whether the page map accepts the change. Success removes exactly the
        pages of the range from mapping regions, keeps every other region, and keeps the
        translation of every other address; each file's count changes by the change in its
        number of records. A failure changes nothing. A range that meets a startup region,
        `s` being the first such, is let through exactly if a region listed before `s` meets
        it too and the image, if there is one, has no startup bytes in it; for whole pages,
        and startup regions as `exec` makes them, exactly if a region listed before `s` meets
        it and there is no image. */
    method Munmap(address: int, length: int, built: bool, accepted: bool) returns (r: int)
      requires Valid() && 0 <= address <= U64_MAX && 0 <= length
      modifies this`regions, this`mappings, this`memory, files`refs
      ensures Valid()
      ensures old(LibrariesBelow(regions, Limit())) ==> LibrariesBelow(regions, Limit())
      ensures SameOthers(old(mappings), old(files.refs), mappings, files.refs)
      ensures r != 0 ==>
                && regions == old(regions) && mappings == old(mappings) && memory == old(memory)
                && files.refs == old(files.refs)
      ensures r == 0 <==> old(Unmappable(address, length)) && !old(OnStartup(address, length)) && built && accepted
      ensures r != 0 ==>
                r == if Aligned(address) && LengthOk(length) && !old(OnStartup(address, length)) && !built then ENOMEM
                     else EINVAL
      ensures forall s :: FirstStartup(old(regions), PageOf(address), PagesFor(length), s) ==>
                (r == 0 <==>
                 && old(Unmappable(address, length)) && built && accepted
                 && MetBefore(old(regions), PageOf(address), PagesFor(length), s) && !old(OnImage(address, length)))
      ensures Aligned(length) && StartupTight(old(regions), startup) ==>
                forall s :: FirstStartup(old(regions), PageOf(address), PagesFor(length), s) ==>
                  (r == 0 <==>
                   && old(Unmappable(address, length)) && built && accepted
                   && MetBefore(old(regions), PageOf(address), PagesFor(length), s) && startup.length == 0)
      ensures r == 0 ==>
                Unmaps(old(regions), old(mappings), old(memory), PageOf(address), PagesFor(length), regions, mappings,
                       memory)
    {
      StartupCheckIsFirst(regions, PageOf(address), PagesFor(length));
      WholePagesMeet(regions, startup, address, length);
      var ok, count := PageRange(length);
      if !Aligned(address) || !ok {
        return EINVAL;
      }
      PagesForCover(length);
      var first := PageOf(address);
      var meets := MeetsStartup(address, length, first, count);
      if meets {
        return EINVAL;
      }
      if !built {
        return ENOMEM;
      }
      r := UnmapRange(first, count, accepted);
    }

    /** Build the replacements, unmap the pages, and only then install them. */
    method UnmapRange(first: int, count: int, accepted: bool) returns (r: int)
      requires Valid() && 0 <= first && 0 < count
      modifies this`regions, this`mappings, this`memory, files`refs
      ensures Valid()
      ensures old(LibrariesBelow(regions, Limit())) ==> LibrariesBelow(regions, Limit())
      ensures SameOthers(old(mappings), old(files.refs), mappings, files.refs)
      ensures r == if Address(first + count) <= U64_MAX && Fits(old(memory), first, count) && accepted then 0
                   else EINVAL
      ensures r != 0 ==>
                && regions == old(regions) && mappings == old(mappings) && memory == old(memory)
                && files.refs == old(files.refs)
      ensures r == 0 ==> Unmaps(old(regions), old(mappings), old(memory), first, count, regions, mappings, memory)
    {
      var replacement := BuildRegions(regions, first, count);
      var ok, records, refs := BuildRecords(first, count);
      if !ok {
        return EINVAL;
      }
      if !Fits(memory, first, count) || !accepted {
        Discard(records, refs);
        return EINVAL;
      }
      Commit(replacement, records, refs, first, count);
      r := 0;
    }

    /** `native_process_capsule_build_file_mapping_release` for whole pages. */
    method BuildRecords(first: int, count: int) returns (ok: bool, records: seq<FileMapping>, refs: map<int, int>)
      requires Valid() && 0 <= first && 0 < count
      ensures ok <==> Address(first + count) <= U64_MAX
      ensures ok ==> records == Release(mappings, Address(first), Address(first + count))
      ensures forall i :: 0 <= i < |records| ==> records[i].file in files.refs
      ensures refs.Keys == files.refs.Keys
      ensures forall file :: file in files.refs ==> refs[file] == files.refs[file] + Records(records, file)
    {
      AddressSum(first, count);
      AddressAligned(first);
      AddressAligned(count);
      ok, records, refs := BuildRelease(mappings, files.refs, Address(first), Address(count));
    }

    /** `native_process_capsule_discard_file_mapping_release`. */
    method Discard(records: seq<FileMapping>, retained: map<int, int>)
      requires forall i :: 0 <= i < |records| ==> records[i].file in files.refs
      requires retained.Keys == files.refs.Keys
      requires forall file :: file in files.refs ==> retained[file] == files.refs[file] + Records(records, file)
      modifies files`refs
      ensures files.refs == old(files.refs)
    {
      var dropped := ReleaseAll(records, retained);
      SameCounts(files.refs, retained, dropped, records);
      files.refs := dropped;
    }

    /** `native_process_capsule_commit_file_mapping_release`, after the pages are unmapped. */
    method Commit(replacement: seq<Region>, records: seq<FileMapping>, retained: map<int, int>, first: int, count: int)
      requires Valid() && 0 <= first && 0 < count && Fits(memory, first, count)
      requires replacement == Cut(regions, first, first + count, Mapped)
      requires records == Release(mappings, Address(first), Address(first + count))
      requires forall i :: 0 <= i < |records| ==> records[i].file in files.refs
      requires retained.Keys == files.refs.Keys
      requires forall file :: file in files.refs ==> retained[file] == files.refs[file] + Records(records, file)
      modifies this`regions, this`mappings, this`memory, files`refs
      ensures Valid()
      ensures old(LibrariesBelow(regions, Limit())) ==> LibrariesBelow(regions, Limit())
      ensures SameOthers(old(mappings), old(files.refs), mappings, files.refs)
      ensures Unmaps(old(regions), old(mappings), old(memory), first, count, regions, mappings, memory)
    {
      AddressAligned(first + count);
      AddressSum(first, count);
      AddressAligned(count);
      RegionsStaySound(regions, first, count);
      MappingsStaySound(mappings, Address(first), Address(first + count));
      ReleaseBacked(regions, mappings, first, count);
      LibrariesStay(regions, first, count, Limit());
      ReservedStays(regions, startup, first, count);
      memory := WithPages(memory, first, count, false);
      var refs := ReleaseAll(mappings, retained);
      regions, mappings, files.refs := replacement, records, refs;
    }
  }

  lemma SameCounts(refs: map<int, int>, retained: map<int, int>, dropped: map<int, int>, ms: seq<FileMapping>)
    requires refs.Keys == retained.Keys == dropped.Keys
    requires forall file :: file in refs ==> retained[file] == refs[file] + Records(ms, file)
    requires forall file :: file in retained ==> dropped[file] == retained[file] - Records(ms, file)
    ensures dropped == refs
  {
    forall file | file in refs
      ensures file in dropped && dropped[file] == refs[file]
    {
      assert file in refs.Keys;
    }
  }

  /** What unmapping the pages [first, first + count) does to an address space. */
  ghost predicate Unmaps(rs: seq<Region>, ms: seq<FileMapping>, m: Memory, first: int, count: int,
                         rs': seq<Region>, ms': seq<FileMapping>, m': Memory) {
    && rs' == Cut(rs, first, first + count, Mapped)
    && ms' == Release(ms, Address(first), Address(first + count))
    && Fits(m, first, count) && m' == WithPages(m, first, count, false)
  }

  /** Unmapping is exact: it takes the pages of the range from mapping regions and nothing
      else from any region, and every address outside keeps its translation. */
  lemma UnmapsExactly(rs: seq<Region>, ms: seq<FileMapping>, m: Memory, first: int, count: int,
                      rs': seq<Region>, ms': seq<FileMapping>, m': Memory)
    requires Tidy(rs) && Tidy(Views(ms)) && 0 <= first && 0 < count
    requires Unmaps(rs, ms, m, first, count, rs', ms', m')
    ensures forall page, kind :: Covers(rs', page, kind) <==>
              Covers(rs, page, kind) && !(kind == Mapping && first <= page < first + count)
    ensures Rest(rs', Mapped) == Rest(rs, Mapped)
    ensures forall a, target :: Translates(ms', a, target) <==>
              Translates(ms, a, target) && !(Address(first) <= a < Address(first + count))
    ensures forall page :: PageMapped(m', page) <==> PageMapped(m, page) && !(first <= page < first + count)
  {
    UnmapsRegions(rs, first, count);
    CutKeepsRest(rs, first, first + count, Mapped);
    UnmapsMappings(ms, first, count);
  }

  lemma UnmapsRegions(rs: seq<Region>, first: int, count: int)
    requires Tidy(rs) && 0 < count
    ensures var rs' := Cut(rs, first, first + count, Mapped);
            forall page, kind :: Covers(rs', page, kind) <==>
              Covers(rs, page, kind) && !(kind == Mapping && first <= page < first + count)
  {
    var rs' := Cut(rs, first, first + count, Mapped);
    forall page, kind
      ensures Covers(rs', page, kind) <==> Covers(rs, page, kind) && !(kind == Mapping && first <= page < first + count)
    {
      CutCovers(rs, first, first + count, Mapped, page, kind);
    }
  }

  lemma UnmapsMappings(ms: seq<FileMapping>, first: int, count: int)
    requires Tidy(Views(ms)) && 0 < count
    ensures var ms' := Release(ms, Address(first), Address(first + count));
            forall a, target :: Translates(ms', a, target) <==>
              Translates(ms, a, target) && !(Address(first) <= a < Address(first + count))
  {
    AddressSum(first, count);
    var lo, hi := Address(first), Address(first + count);
    var ms' := Release(ms, lo, hi);
    forall i | 0 <= i < |ms|
      ensures ms[i].length > 0
    {
      assert Views(ms)[i].length > 0;
    }
    forall a, target
      ensures Translates(ms', a, target) <==> Translates(ms, a, target) && !(lo <= a < hi)
    {
      ReleaseTranslates(ms, lo, hi, a, target);
    }
  }

  // ---- recording -------------------------------------------------------------------

  /** No byte of `m` is file-mapped yet. */
  ghost predicate Open(ms: seq<FileMapping>, m: FileMapping) {
    forall i :: 0 <= i < |ms| ==> !Meets(Views(ms)[i], m.address, m.address + m.length)
  }

  ghost predicate OnMapping(rs: seq<Region>, m: FileMapping) {
    forall a :: In(View(m), a) ==> Covers(rs, PageOf(a), Mapping)
  }

  lemma RecordKeeps(rs: seq<Region>, ms: seq<FileMapping>, refs: map<int, int>, m: FileMapping)
    requires Sound(rs, ms, refs) && FileMappings.Proper(m) && m.file in refs && Records(ms, m.file) < refs[m.file]
    ensures Sound(rs, ms + [m], refs) <==> Open(ms, m) && OnMapping(rs, m)
  {
    RecordSound(rs, ms, m);
    RecordHeld(ms, refs, m);
  }

  lemma RecordSound(rs: seq<Region>, ms: seq<FileMapping>, m: FileMapping)
    requires Tidy(Views(ms)) && AllProper(ms) && FileMappings.Proper(m) && Backed(rs, ms)
    ensures Tidy(Views(ms + [m])) && Backed(rs, ms + [m]) <==> Open(ms, m) && OnMapping(rs, m)
    ensures AllProper(ms + [m])
  {
    assert Views(ms + [m]) == Views(ms) + [View(m)];
    RecordTidy(Views(ms), View(m));
    RecordBacked(rs, ms, m);
  }

  lemma RecordTidy(ss: seq<Span<Target>>, s: Span<Target>)
    requires Tidy(ss) && s.length > 0
    ensures Tidy(ss + [s]) <==> forall i :: 0 <= i < |ss| ==> !Meets(ss[i], s.start, End(s))
  {
    if Tidy(ss + [s]) {
      forall i | 0 <= i < |ss|
        ensures !Meets(ss[i], s.start, End(s))
      {
        assert (ss + [s])[i] == ss[i] && (ss + [s])[|ss|] == s;
        assert Apart((ss + [s])[i], (ss + [s])[|ss|]);
      }
    } else if forall i :: 0 <= i < |ss| ==> !Meets(ss[i], s.start, End(s)) {
      TidyAppend(ss, s);
    }
  }

  lemma RecordBacked(rs: seq<Region>, ms: seq<FileMapping>, m: FileMapping)
    requires Backed(rs, ms)
    ensures Backed(rs, ms + [m]) <==> OnMapping(rs, m)
  {
    assert Views(ms + [m]) == Views(ms) + [View(m)];
    forall a, target
      ensures Translates(ms + [m], a, target) <==>
                Translates(ms, a, target) || (In(View(m), a) && View(m).tag == target)
    {
      CoversOne(Views(ms), View(m), a, target);
    }
    if Backed(rs, ms + [m]) {
      forall a | In(View(m), a)
        ensures Covers(rs, PageOf(a), Mapping)
      {
        assert Translates(ms + [m], a, View(m).tag);
      }
    }
  }

  lemma RecordHeld(ms: seq<FileMapping>, refs: map<int, int>, m: FileMapping)
    requires Held(ms, refs) && m.file in refs && Records(ms, m.file) < refs[m.file]
    ensures Held(ms + [m], refs)
  {
    forall file | file in refs
      ensures Records(ms + [m], file) <= refs[file]
    {
      RecordsAppend(ms, [m], file);
      RecordsOne(m, file);
    }
  }

  /** A range that was unreserved when it was mapped is open to a record. */
  lemma FreshRangeIsOpen(rs: seq<Region>, ms: seq<FileMapping>, m: FileMapping, first: int, count: int)
    requires Backed(rs, ms) && AllProper(ms) && Unreserved(rs, first, count) && 0 < count
    requires m.address == Address(first) && 0 < m.length <= Address(count)
    ensures Open(ms, m)
    ensures OnMapping(rs + [Span(first, count, Mapping)], m)
  {
    AddressSum(first, count);
    forall i | 0 <= i < |ms|
      ensures !Meets(Views(ms)[i], m.address, m.address + m.length)
    {
      if Meets(View(ms[i]), m.address, m.address + m.length) {
        assert FileMappings.Proper(ms[i]);
        MeetIsReserved(rs, ms, i, first, count);
      }
    }
    forall a | In(View(m), a)
      ensures Covers(rs + [Span(first, count, Mapping)], PageOf(a), Mapping)
    {
      PageOfRange(a, first, count);
      CoversOne(rs, Span(first, count, Mapping), PageOf(a), Mapping);
    }
  }

  lemma MeetIsReserved(rs: seq<Region>, ms: seq<FileMapping>, i: int, first: int, count: int)
    requires Backed(rs, ms) && 0 <= i < |ms| && ms[i].length > 0 && 0 < count
    requires Meets(View(ms[i]), Address(first), Address(first + count))
    ensures !Unreserved(rs, first, count)
  {
    AddressSum(first, count);
    var a := if ms[i].address > Address(first) then ms[i].address else Address(first);
    assert In(Views(ms)[i], a);
    assert Translates(ms, a, View(ms[i]).tag);
    PageOfRange(a, first, count);
    var j :| 0 <= j < |rs| && In(rs[j], PageOf(a)) && rs[j].tag == Mapping;
    assert Meets(rs[j], first, first + count);
  }

  lemma AlignedSum(a: int, b: int)
    requires Aligned(a) && Aligned(b)
    ensures Aligned(a + b)
  {
  }

  lemma ForgetSound(rs: seq<Region>, ms: seq<FileMapping>, address: int, length: int)
    requires Tidy(Views(ms)) && AllProper(ms) && Backed(rs, ms) && Aligned(address) && Aligned(length) && 0 < length
    ensures var ms' := Release(ms, address, address + length);
            Tidy(Views(ms')) && AllProper(ms') && Backed(rs, ms')
  {
    AlignedSum(address, length);
    MappingsStaySound(ms, address, address + length);
    ForgetBacked(rs, ms, address, address + length);
  }

  lemma ForgetBacked(rs: seq<Region>, ms: seq<FileMapping>, lo: int, hi: int)
    requires Tidy(Views(ms)) && Backed(rs, ms) && lo < hi
    ensures Backed(rs, Release(ms, lo, hi))
  {
    ReleaseIsCut(ms, lo, hi);
    var ms' := Release(ms, lo, hi);
    forall a, target | Translates(ms', a, target)
      ensures Covers(rs, PageOf(a), Mapping)
    {
      CutCovers(Views(ms), lo, hi, Any, a, target);
      assert Translates(ms, a, target);
    }
  }

  // ---- the startup block -----------------------------------------------------------

  lemma NothingIsSound(ms: seq<FileMapping>, refs: map<int, int>, refs': map<int, int>)
    requires Held(ms, refs) && refs'.Keys == refs.Keys
    requires forall file :: file in refs ==> refs'[file] == refs[file] - Records(ms, file)
    ensures Sound([], [], refs')
  {
    assert forall file :: file in refs' ==> file in refs && Records([], file) == 0 <= refs'[file];
  }

  lemma NoStartup(rs: seq<Region>)
    ensures StartupReserved(rs, NO_STARTUP) && StartupTight(rs, NO_STARTUP)
  {
  }

  lemma ReservedAppend(rs: seq<Region>, startup: Span<bool>, r: Region)
    requires StartupReserved(rs, startup)
    ensures StartupReserved(rs + [r], startup)
    ensures StartupTight(rs, startup) && r.tag != Startup ==> StartupTight(rs + [r], startup)
  {
    forall page
      ensures Covers(rs + [r], page, Startup) <==> Covers(rs, page, Startup) || (In(r, page) && r.tag == Startup)
    {
      CoversOne(rs, r, page, Startup);
    }
  }

  lemma ReservedStays(rs: seq<Region>, startup: Span<bool>, first: int, count: int)
    requires Tidy(rs) && 0 < count && StartupReserved(rs, startup)
    ensures StartupReserved(Cut(rs, first, first + count, Mapped), startup)
    ensures StartupTight(rs, startup) ==> StartupTight(Cut(rs, first, first + count, Mapped), startup)
  {
    forall page
      ensures Covers(Cut(rs, first, first + count, Mapped), page, Startup) <==> Covers(rs, page, Startup)
    {
      CutCovers(rs, first, first + count, Mapped, page, Startup);
    }
  }

  ghost predicate FirstMetIs(rs: seq<Region>, first: int, count: int, kind: Kind) {
    exists k :: FirstMet(rs, first, count, k) && rs[k].tag == kind
  }

  /** The first startup region that the range meets. */
  ghost predicate FirstStartup(rs: seq<Region>, first: int, count: int, s: int) {
    && 0 <= s < |rs| && rs[s].tag == Startup && Meets(rs[s], first, first + count)
    && forall k :: 0 <= k < s && rs[k].tag == Startup ==> !Meets(rs[k], first, first + count)
  }

  /** The range meets a region listed before `s`. */
  ghost predicate MetBefore(rs: seq<Region>, first: int, count: int, s: int) {
    exists k :: 0 <= k < s && k < |rs| && Meets(rs[k], first, first + count)
  }

  /** Unmapping looks at the first region its range meets only, so a range that meets a
      startup region is refused for it exactly when it meets no region listed before. */
  lemma StartupCheckIsFirst(rs: seq<Region>, first: int, count: int)
    ensures forall s :: FirstStartup(rs, first, count, s) ==>
              (FirstMetIs(rs, first, count, Startup) <==> !MetBefore(rs, first, count, s))
  {
    forall s | FirstStartup(rs, first, count, s)
      ensures FirstMetIs(rs, first, count, Startup) <==> !MetBefore(rs, first, count, s)
    {
      if !MetBefore(rs, first, count, s) {
        assert FirstMet(rs, first, count, s);
      }
    }
  }

  /** Whole pages that meet a startup region of an image meet its startup bytes. */
  lemma WholePagesMeet(rs: seq<Region>, startup: Span<bool>, address: int, length: int)
    requires Tidy(rs)
    ensures StartupTight(rs, startup) && startup.length > 0
            && Aligned(address) && LengthOk(length) && Aligned(length) ==>
              forall s :: FirstStartup(rs, PageOf(address), PagesFor(length), s) ==>
                Meets(startup, address, address + length)
  {
    if StartupTight(rs, startup) && startup.length > 0 && Aligned(address) && LengthOk(length) && Aligned(length) {
      var first, count := PageOf(address), PagesFor(length);
      WholePages(address, length);
      forall s | FirstStartup(rs, first, count, s)
        ensures Meets(startup, address, address + length)
      {
        var page := if first < rs[s].start then rs[s].start else first;
        assert In(rs[s], page) && Covers(rs, page, Startup) && StartupPage(startup, page);
        AddressBetween(first, page, count);
      }
    }
  }

  lemma AddressBetween(first: int, page: int, count: int)
    requires first <= page < first + count
    ensures Address(first) <= Address(page) && Address(page + 1) <= Address(first + count)
  {
  }

  lemma WholePages(address: int, length: int)
    requires Aligned(address) && Aligned(length) && LengthOk(length)
    ensures address == Address(PageOf(address)) && length == Address(PagesFor(length))
    ensures address + length == Address(PageOf(address) + PagesFor(length))
  {
  }

  // ---- what exec lays out ------------------------------------------------------------

  const MEM64_MAX_PAGES: int := 0x1_0000_0000_0000
  const U32_MAX: int := 0xffff_ffff

  /** What exec puts in place: the memory of the new engine, the startup block in it, and
      whether it is a 64-bit memory. */
  datatype Image = Image(memory: Memory, start: nat, size: nat, wide: bool)

  predicate Sized(i: Image) {
    && i.start <= U32_MAX && i.size <= U32_MAX
    && i.memory.limit <= U64_MAX && i.memory.capacity <= U64_MAX && Pages(i.memory) <= U64_MAX
  }

  function PageLimit(i: Image): int {
    if i.wide then MEM64_MAX_PAGES else MEM32_MAX_PAGES
  }

  function StartupFirst(i: Image): int {
    if i.size > 0 then PageOf(i.start) else i.memory.linear
  }

  function StartupLast(i: Image): int {
    if i.size > 0 then PagesFor(i.start + i.size) else i.memory.linear
  }

  /** The startup block lies in the linear memory, below the guard and stack pages. */
  predicate Fitting(i: Image) {
    StartupFirst(i) <= StartupLast(i) <= i.memory.linear && StartupLast(i) < PageLimit(i) - GUARDED_PAGES
  }

  /** Module, startup, break, guard and stack, bottom up. */
  function ImageRegions(i: Image): seq<Region> {
    var first, last, stack := StartupFirst(i), StartupLast(i), PageLimit(i) - GUARDED_PAGES;
    if i.memory.linear == 0 then []
    else Bottom(first, last) + [Span(last, 1, Brk), Span(stack, 1, Guard), Span(stack + 1, 16, Stack)]
  }

  function Bottom(first: int, last: int): seq<Region> {
    (if first > 0 then [Span(0, first, Module)] else [])
    + (if last > first then [Span(first, last - first, Startup)] else [])
  }

  /** Non-empty regions, one above the other. */
  ghost predicate Stacked(rs: seq<Region>) {
    && (forall i :: 0 <= i < |rs| ==> 0 <= rs[i].start && 0 < rs[i].length && End(rs[i]) <= U64_MAX)
    && (forall i, j :: 0 <= i < j < |rs| ==> End(rs[i]) <= rs[j].start)
  }

  lemma StackedTidy(rs: seq<Region>, n: nat)
    requires Stacked(rs) && n < |rs|
    ensures Tidy(rs[..n]) && Bounded(rs[..n]) && Unreserved(rs[..n], rs[n].start, rs[n].length)
  {
  }

  lemma ImageStacked(i: Image)
    requires Fitting(i)
    ensures Stacked(ImageRegions(i))
  {
  }

  /** The layout of an image in pages, from the top: sixteen pages of stack end at the limit of
      the address space, below them a guard page; the break is the first page that holds no
      byte of the startup block, and the module has the pages below that block. Without one,
      the break follows the linear extent. */
  lemma ImageLayout(i: Image, page: int)
    requires Fitting(i) && i.memory.linear > 0
    ensures
      var rs, limit, end := ImageRegions(i), if i.wide then 0x1_0000_0000_0000 else 0x1_0000, i.start + i.size;
      && (Covers(rs, page, Stack) <==> limit - 16 <= page < limit)
      && (Covers(rs, page, Guard) <==> page == limit - 17)
      && (Covers(rs, page, Brk) <==>
            if i.size == 0 then page == i.memory.linear else Address(page) - 0x1_0000 < end <= Address(page))
      && (Covers(rs, page, Module) <==>
            0 <= page && if i.size == 0 then page < i.memory.linear else Address(page) + 0x1_0000 <= i.start)
  {
    var rs := ImageRegions(i);
    var n := |Bottom(StartupFirst(i), StartupLast(i))|;
    assert rs[n].tag == Brk && rs[n + 1].tag == Guard && rs[n + 2].tag == Stack;
    assert StartupFirst(i) > 0 ==> rs[0].tag == Module;
    assert forall k :: 0 <= k < n ==> rs[k].tag == Module || rs[k].tag == Startup;
    assert Covers(rs, page, Brk) <==> In(rs[n], page);
    assert Covers(rs, page, Guard) <==> In(rs[n + 1], page);
    assert Covers(rs, page, Stack) <==> In(rs[n + 2], page);
    assert Covers(rs, page, Module) <==> StartupFirst(i) > 0 && In(rs[0], page);
  }

  /** An image fits if its startup block ends in the linear extent and leaves a page below the
      guard page; without a block, if the extent does. */
  lemma FittingIs(i: Image)
    ensures
      var limit := if i.wide then 0x1_0000_0000_0000 else 0x1_0000;
      Fitting(i) <==>
      if i.size == 0 then i.memory.linear <= limit - 18
      else i.start + i.size <= Address(i.memory.linear) && i.start + i.size <= Address(limit - 18)
  {
    if i.size > 0 {
      StartupPages(i.start, i.size, PageOf(i.start));
    }
  }

  /** A library that is loaded: where its memory is, in 32 bits. */
  datatype LoadedLibrary = LoadedLibrary(base: nat, size: nat)

  predicate AllSmall(ls: seq<LoadedLibrary>) {
    forall k :: 0 <= k < |ls| ==> ls[k].base <= U32_MAX && ls[k].size <= U32_MAX
  }

  function LibraryRegion(l: LoadedLibrary): Region {
    Span(PageOf(l.base), PagesFor(l.base + l.size) - PageOf(l.base), Library)
  }

  lemma LibraryPages(l: LoadedLibrary)
    requires l.base <= U32_MAX && 0 < l.size <= U32_MAX
    ensures 0 <= PageOf(l.base) < PagesFor(l.base + l.size) <= 0x2_0000 && PageOf(l.base) < 0x1_0000
  {
  }

  /** Its region is the pages that hold its bytes. */
  lemma LibraryRegionIs(l: LoadedLibrary, page: int)
    requires 0 < l.size
    ensures In(LibraryRegion(l), page) <==> Address(page) < l.base + l.size && l.base < Address(page) + 0x1_0000
  {
  }

  /** Regions laid out, and whether there was room for all of them. */
  datatype Plan = Plan(regions: seq<Region>, ok: bool)

  /** The libraries one after the other, up to the first that meets a region or finds no room. */
  function WithLibraries(rs: seq<Region>, ls: seq<LoadedLibrary>, room: nat): Plan
    decreases |ls|
  {
    if ls == [] then Plan(rs, true)
    else if ls[0].size == 0 then WithLibraries(rs, ls[1..], room)
    else
      var r := LibraryRegion(ls[0]);
      if Unreserved(rs, r.start, r.length) && |rs| < room then WithLibraries(rs + [r], ls[1..], room)
      else Plan(rs, false)
  }

  function Committed(i: Image, ls: seq<LoadedLibrary>, room: nat): Plan {
    if i.memory.linear == 0 then Plan([], true)
    else if !Fitting(i) then Plan([], false)
    else if |ImageRegions(i)| > room then Plan(ImageRegions(i)[..room], false)
    else WithLibraries(ImageRegions(i), ls, room)
  }

  /** `rs'` has the regions of `rs` and libraries, which end below the guard page `stack`. */
  ghost predicate MoreLibraries(rs: seq<Region>, rs': seq<Region>, stack: int) {
    && rs <= rs' && Tidy(rs') && Bounded(rs')
    && forall k :: |rs| <= k < |rs'| ==> rs'[k].tag == Library && End(rs'[k]) <= stack
  }

  /** A library that meets neither the guard nor the stack pages lies below them. */
  lemma LibraryBelow(rs: seq<Region>, l: LoadedLibrary, stack: int)
    requires l.base <= U32_MAX && 0 < l.size <= U32_MAX && 0x1_0000 <= stack + GUARDED_PAGES
    requires Span(stack, 1, Guard) in rs && Span(stack + 1, 16, Stack) in rs
    requires Unreserved(rs, LibraryRegion(l).start, LibraryRegion(l).length)
    ensures End(LibraryRegion(l)) <= stack
  {
    LibraryPages(l);
    var r := LibraryRegion(l);
    assert !Meets(Span(stack, 1, Guard), r.start, r.start + r.length);
    assert !Meets(Span(stack + 1, 16, Stack), r.start, r.start + r.length);
  }

  lemma {:induction false} LibrariesFit(image: seq<Region>, rs: seq<Region>, ls: seq<LoadedLibrary>, room: nat,
                                        stack: int)
    requires MoreLibraries(image, rs, stack) && AllSmall(ls) && 0x1_0000 <= stack + GUARDED_PAGES
    requires Span(stack, 1, Guard) in image && Span(stack + 1, 16, Stack) in image
    ensures MoreLibraries(image, WithLibraries(rs, ls, room).regions, stack)
    decreases |ls|
  {
    if ls != [] {
      var r := LibraryRegion(ls[0]);
      if ls[0].size == 0 {
        LibrariesFit(image, rs, ls[1..], room, stack);
      } else if Unreserved(rs, r.start, r.length) && |rs| < room {
        LibraryPages(ls[0]);
        LibraryBelow(rs, ls[0], stack);
        TidyAppend(rs, r);
        LibrariesFit(image, rs + [r], ls[1..], room, stack);
      }
    }
  }

  lemma ImageTidy(i: Image)
    requires Fitting(i)
    ensures Tidy(ImageRegions(i)) && Bounded(ImageRegions(i))
  {
    ImageStacked(i);
  }

  /** Libraries leave the startup block and the backing of file mappings as they were. */
  lemma LibrariesApart(rs: seq<Region>, rs': seq<Region>, stack: int, page: int, kind: Kind)
    requires MoreLibraries(rs, rs', stack) && kind != Library
    ensures Covers(rs', page, kind) <==> Covers(rs, page, kind)
  {
    if k :| 0 <= k < |rs| && In(rs[k], page) && rs[k].tag == kind {
      assert rs'[k] == rs[k];
    }
  }

  lemma CommitSound(i: Image, ls: seq<LoadedLibrary>, room: nat, ms: seq<FileMapping>)
    requires Committed(i, ls, room).ok && AllSmall(ls) && AllProper(ms)
    ensures var rs, startup := Committed(i, ls, room).regions, Span(i.start, i.size, true);
            && StartupTight(rs, startup) && (StartupReserved(rs, startup) <==> i.memory.linear > 0 || i.size == 0)
            && Tidy(rs) && Bounded(rs) && (Backed(rs, ms) <==> ms == []) && LibrariesBelow(rs, PageLimit(i))
  {
    var image, rs, stack := ImageRegions(i), Committed(i, ls, room).regions, PageLimit(i) - GUARDED_PAGES;
    ImageSound(i, ms);
    if i.memory.linear > 0 {
      assert image[|image| - 2] == Span(stack, 1, Guard) && image[|image| - 1] == Span(stack + 1, 16, Stack);
      LibrariesFit(image, image, ls, room, stack);
      forall page, kind | kind != Library
        ensures Covers(rs, page, kind) <==> Covers(image, page, kind)
      {
        LibrariesApart(image, rs, stack, page, kind);
      }
    }
  }

  /** What exec lays out is sound, its startup regions are exactly the startup pages, and no
      mapping region is left to back an old file mapping. */
  lemma ImageSound(i: Image, ms: seq<FileMapping>)
    requires (i.memory.linear == 0 || Fitting(i)) && AllProper(ms)
    ensures StartupTight(ImageRegions(i), Span(i.start, i.size, true))
    ensures StartupReserved(ImageRegions(i), Span(i.start, i.size, true)) <==> i.memory.linear > 0 || i.size == 0
    ensures Tidy(ImageRegions(i)) && Bounded(ImageRegions(i))
    ensures Backed(ImageRegions(i), ms) <==> ms == []
  {
    ImageStartup(i);
    ImageBacks(i, ms);
    if i.memory.linear > 0 {
      ImageStacked(i);
    }
  }

  lemma ImageStartup(i: Image)
    requires i.memory.linear == 0 || Fitting(i)
    ensures StartupTight(ImageRegions(i), Span(i.start, i.size, true))
    ensures StartupReserved(ImageRegions(i), Span(i.start, i.size, true)) <==> i.memory.linear > 0 || i.size == 0
  {
    var rs, startup := ImageRegions(i), Span(i.start, i.size, true);
    forall page
      ensures Covers(rs, page, Startup) <==>
              i.memory.linear > 0 && StartupFirst(i) <= page < StartupLast(i) && i.size > 0
      ensures i.size > 0 ==> (StartupPage(startup, page) <==> StartupFirst(i) <= page < StartupLast(i))
    {
      ImageCovers(i, page);
      if i.size > 0 {
        StartupPages(i.start, i.size, page);
      }
    }
    if i.size > 0 {
      StartupPages(i.start, i.size, PageOf(i.start));
    }
  }

  lemma ImageCovers(i: Image, page: int)
    ensures Covers(ImageRegions(i), page, Startup) <==> i.memory.linear > 0 && StartupFirst(i) <= page < StartupLast(i)
  {
    var rs := ImageRegions(i);
    if i.memory.linear > 0 && StartupFirst(i) <= page < StartupLast(i) {
      var k := if StartupFirst(i) > 0 then 1 else 0;
      assert In(rs[k], page) && rs[k].tag == Startup;
    }
  }

  lemma StartupPages(start: int, size: int, page: int)
    requires 0 <= start && 0 < size
    ensures StartupPage(Span(start, size, true), page) <==> PageOf(start) <= page < PagesFor(start + size)
    ensures PageOf(start) < PagesFor(start + size)
  {
  }

  lemma ImageBacks(i: Image, ms: seq<FileMapping>)
    requires AllProper(ms)
    ensures Backed(ImageRegions(i), ms) <==> ms == []
  {
    var rs := ImageRegions(i);
    assert forall k :: 0 <= k < |rs| ==> rs[k].tag != Mapping;
    if ms != [] {
      assert FileMappings.Proper(ms[0]) && In(Views(ms)[0], ms[0].address);
      assert Translates(ms, ms[0].address, View(ms[0]).tag);
    }
  }

  /** What exec makes of an image of two pages with its startup block in the second. */
  const LAYOUT: seq<Region> :=
    [Span(0, 1, Module), Span(1, 1, Startup), Span(2, 1, Brk), Span(65519, 1, Guard), Span(65520, 16, Stack)]

  function TwoPages(offset: int, length: int): Image
    requires 0 <= offset && 0 <= length
  {
    Image(Memory([true, true], 2, MEM32_MAX_PAGES, MEM32_MAX_PAGES), PAGE + offset, length, false)
  }

  lemma TwoPagesLayout(offset: int, length: int)
    requires 0 <= offset < PAGE && 0 < length && offset + length <= PAGE
    ensures Fitting(TwoPages(offset, length)) && ImageRegions(TwoPages(offset, length)) == LAYOUT
  {
    var i := TwoPages(offset, length);
    assert StartupFirst(i) == 1 && StartupLast(i) == 2;
  }

  lemma LayoutPages(length: int)
    requires PAGE < length <= 2 * PAGE
    ensures PageOf(0) == 0 && PagesFor(length) == 2 && LengthOk(length) && Aligned(0) && Address(2) <= U64_MAX
  {
  }

  lemma LayoutMet()
    ensures FirstStartup(LAYOUT, 0, 2, 1) && MetBefore(LAYOUT, 0, 2, 1) && !FirstMetIs(LAYOUT, 0, 2, Startup)
    ensures Cut(LAYOUT, 0, 2, Mapped) == LAYOUT
  {
    assert Meets(LAYOUT[0], 0, 2);
    CutOther(LAYOUT, 0, 2, Mapped);
  }

  /** Unmapping up to the second page of this layout: only the startup bytes can refuse it. */
  method UnmapLayout(c: Capsule, length: int) returns (r: int)
    requires c.Valid() && c.regions == LAYOUT && c.memory.mapped == [true, true] && PAGE < length <= 2 * PAGE
    modifies c`regions, c`mappings, c`memory, c.files`refs
    ensures c.Valid() && c.regions == LAYOUT
    ensures r == if old(c.OnImage(0, length)) then EINVAL else 0
    ensures c.memory.mapped == if r == 0 then [false, false] else [true, true]
  {
    LayoutPages(length);
    LayoutStands(c, length);
    ghost var ms, m := c.mappings, c.memory;
    r := c.Munmap(0, length, true, true);
    if r == 0 {
      LayoutUnmapped(ms, m, c.regions, c.mappings, c.memory);
    }
  }

  lemma LayoutStands(c: Capsule, length: int)
    requires c.regions == LAYOUT && c.memory.mapped == [true, true] && PAGE < length <= 2 * PAGE
    ensures c.Unmappable(0, length) && (c.OnStartup(0, length) <==> c.OnImage(0, length))
  {
    assert c.Unmappable(0, length) by {
      LayoutPages(length);
    }
    assert !FirstMetIs(c.regions, PageOf(0), PagesFor(length), Startup) by {
      LayoutPages(length);
      LayoutMet();
    }
  }

  lemma LayoutUnmapped(ms: seq<FileMapping>, m: Memory, rs': seq<Region>, ms': seq<FileMapping>, m': Memory)
    requires m.mapped == [true, true] && Unmaps(LAYOUT, ms, m, 0, 2, rs', ms', m')
    ensures rs' == LAYOUT && m'.mapped == [false, false]
  {
    LayoutMet();
  }

  method ExecTwoPages(offset: int, length: int, refs: map<int, int>) returns (c: Capsule)
    requires 0 <= offset < PAGE && 0 < length && offset + length <= PAGE
    requires forall file :: file in refs ==> 0 <= refs[file]
    ensures c.Valid() && fresh(c) && fresh(c.files) && c.files.refs == refs && c.mappings == []
    ensures c.regions == LAYOUT && c.startup == Span(PAGE + offset, length, true)
    ensures c.memory == TwoPages(offset, length).memory
  {
    var files := new Files(refs);
    c := new Capsule(files, NO_MEMORY);
    TwoPagesLayout(offset, length);
    var r := c.Exec(TwoPages(offset, length), [], 5);
  }

  /** The protection of the startup block does not survive a fork: over the same regions, the
      call that the parent refuses unmaps the startup page in the child. */
  method ForkLosesStartup(offset: int, length: int) returns (parent: Capsule, child: Capsule, refused: int, r: int)
    requires 0 <= offset < PAGE && 0 < length && offset + length <= PAGE
    ensures child.regions == parent.regions == LAYOUT
    ensures refused == EINVAL && PageMapped(parent.memory, 1)
    ensures r == 0 && !PageMapped(child.memory, 1)
  {
    parent := ExecTwoPages(offset, length, map[]);
    assert parent.OnImage(0, 2 * PAGE);
    refused := UnmapLayout(parent, 2 * PAGE);
    child, r := ForkAndUnmap(parent);
  }

  method ForkAndUnmap(parent: Capsule) returns (child: Capsule, r: int)
    requires parent.Valid() && parent.regions == LAYOUT && parent.memory.mapped == [true, true]
    modifies parent.files`refs
    ensures fresh(child) && child.regions == LAYOUT && r == 0 && child.memory.mapped == [false, false]
  {
    child := parent.Fork();
    assert !child.OnImage(0, 2 * PAGE);
    r := UnmapLayout(child, 2 * PAGE);
  }

  /** A direct caller that does not ask for whole pages needs no fork: the pages are rounded up
      and the bytes are not, so a range that ends on the startup page below the startup bytes
      takes the page all the same. The munmap of the guest rounds its length first. */
  method RoundingLosesStartup(offset: int, length: int, end: int) returns (c: Capsule, r: int)
    requires 0 < end <= offset < PAGE && 0 < length && offset + length <= PAGE
    ensures c.regions == LAYOUT && c.startup == Span(PAGE + offset, length, true)
    ensures r == 0 && !PageMapped(c.memory, 1)
  {
    c := ExecTwoPages(offset, length, map[]);
    r := UnmapLayout(c, PAGE + end);
  }

  /** An exec that fails: the image reaches into the stack pages. The process goes on with its
      old image, whose regions are gone. */
  method FailedExecDropsRegions(offset: int, length: int) returns (c: Capsule, r: int)
    requires 0 <= offset < PAGE && 0 < length && offset + length <= PAGE
    ensures r == ENOMEM && c.regions == [] && c.startup == Span(PAGE + offset, length, true)
    ensures PageMapped(c.memory, 1) && !c.Valid()
  {
    c := ExecTwoPages(offset, length, map[]);
    var memory := Memory(seq(65536, _ => true), 65536, MEM32_MAX_PAGES, MEM32_MAX_PAGES);
    r := c.Exec(Image(memory, Address(65535), PAGE, false), [], 5);
    StartupPages(PAGE + offset, length, PageOf(PAGE + offset));
    assert StartupPage(c.startup, PageOf(PAGE + offset));
  }

  lemma PageThreeFree()
    ensures PagesFor(PAGE) == 1 && Candidate(LAYOUT, TwoPages(0, PAGE).memory, 3, PagesFor(PAGE))
  {
  }

  /** Map one page of a file. */
  method MapOnePage(c: Capsule, file: int) returns (m: FileMapping)
    requires c.Valid() && c.regions == LAYOUT && c.memory == TwoPages(0, PAGE).memory && c.mappings == []
    requires file in c.files.refs && c.files.refs[file] > 0
    modifies c`regions, c`memory, c`mappings
    ensures c.Valid() && c.mappings == [m] && m.shared && m.file == file
    ensures PageMapped(c.memory, PageOf(m.address)) && PageOf(m.address) > 2 && Unreserved(LAYOUT, PageOf(m.address), 1)
  {
    PageThreeFree();
    var r, out := c.Mmap(0, PAGE, false, true, true, true);
    m := FileMapping(out, PAGE, 0, file, true, true);
    OnePage(LAYOUT, PageOf(out), m);
    r := c.Record(m, true);
  }

  lemma OnePage(rs: seq<Region>, page: int, m: FileMapping)
    requires rs == LAYOUT && Unreserved(rs, page, 1) && 0 <= page && m.address == Address(page) && m.length == PAGE
    ensures page > 2 && OnMapping(rs + [Span(page, 1, Mapping)], m)
  {
    assert page > 2 by {
      assert !Meets(rs[0], page, page + 1) && !Meets(rs[1], page, page + 1) && !Meets(rs[2], page, page + 1);
    }
    forall a | In(View(m), a)
      ensures Covers(rs + [Span(page, 1, Mapping)], PageOf(a), Mapping)
    {
      PageOfRange(a, page, 1);
      assert In((rs + [Span(page, 1, Mapping)])[|rs|], PageOf(a));
    }
  }

  /** An exec that succeeds keeps the file mappings of the old image: here of a page that the
      new one neither reserves nor maps. */
  method ExecKeepsMapping(file: int) returns (c: Capsule, r: int, m: FileMapping)
    ensures r == 0 && c.mappings == [m] && m.file == file && c.regions == LAYOUT && !c.Valid()
    ensures Unreserved(c.regions, PageOf(m.address), 1) && !PageMapped(c.memory, PageOf(m.address))
  {
    c := ExecTwoPages(0, PAGE, map[file := 1]);
    m := MapOnePage(c, file);
    TwoPagesLayout(0, PAGE);
    r := c.Exec(TwoPages(0, PAGE), [], 5);
  }

  lemma LibrariesStay(rs: seq<Region>, first: int, count: int, limit: int)
    ensures LibrariesBelow(rs, limit) ==> LibrariesBelow(Cut(rs, first, first + count, Mapped), limit)
  {
    CutFrom(rs, first, first + count, Mapped);
  }

  lemma RegionsStaySound(rs: seq<Region>, first: int, count: int)
    requires Tidy(rs) && Bounded(rs) && 0 < count
    ensures Tidy(Cut(rs, first, first + count, Mapped)) && Bounded(Cut(rs, first, first + count, Mapped))
  {
    CutTidy(rs, first, first + count, Mapped);
    CutFrom(rs, first, first + count, Mapped);
  }

  lemma MappingsStaySound(ms: seq<FileMapping>, lo: int, hi: int)
    requires Tidy(Views(ms)) && AllProper(ms) && lo < hi && Aligned(hi)
    ensures Tidy(Views(Release(ms, lo, hi))) && AllProper(Release(ms, lo, hi))
  {
    CutTidy(Views(ms), lo, hi, Any);
    ReleaseIsCut(ms, lo, hi);
    ReleaseProper(ms, lo, hi);
  }
}
