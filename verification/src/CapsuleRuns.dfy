/** Whole runs of several address spaces over the same files: what holds however processes
    reserve, map, unmap and fork. */
module CapsuleRuns {
  import opened Spans
  import opened FileMappings
  import opened AddressSpace
  import opened Capsules

  // ---- records of all processes ----------------------------------------------------

  /** How many records of all processes name `file`. */
  ghost function TotalRecords(lists: seq<seq<FileMapping>>, file: int): nat {
    if lists == [] then 0 else TotalRecords(lists[..|lists| - 1], file) + Records(lists[|lists| - 1], file)
  }

  lemma {:induction false} TotalUpdate(lists: seq<seq<FileMapping>>, k: nat, ms: seq<FileMapping>, file: int)
    requires k < |lists|
    ensures TotalRecords(lists[k := ms], file) ==
            TotalRecords(lists, file) - Records(lists[k], file) + Records(ms, file)
  {
    var n := |lists| - 1;
    if k == n {
      assert lists[k := ms][..n] == lists[..n];
    } else {
      assert lists[k := ms][..n] == lists[..n][k := ms];
      TotalUpdate(lists[..n], k, ms, file);
    }
  }

  lemma {:induction false} TotalAtLeast(lists: seq<seq<FileMapping>>, k: nat, file: int)
    requires k < |lists|
    ensures Records(lists[k], file) <= TotalRecords(lists, file)
  {
    if k < |lists| - 1 {
      TotalAtLeast(lists[..|lists| - 1], k, file);
    }
  }

  /** Every file counts at least the records of all processes. */
  ghost predicate AllHeld(lists: seq<seq<FileMapping>>, refs: map<int, int>) {
    forall file :: file in refs ==> TotalRecords(lists, file) <= refs[file]
  }

  /** The references that no record holds are the same before and after. */
  ghost predicate SameSpare(lists: seq<seq<FileMapping>>, refs: map<int, int>,
                            lists': seq<seq<FileMapping>>, refs': map<int, int>) {
    && refs'.Keys == refs.Keys
    && forall file :: file in refs ==>
         refs'[file] - TotalRecords(lists', file) == refs[file] - TotalRecords(lists, file)
  }

  lemma SameSpareTrans(a: seq<seq<FileMapping>>, p: map<int, int>, b: seq<seq<FileMapping>>, q: map<int, int>,
                       c: seq<seq<FileMapping>>, r: map<int, int>)
    requires SameSpare(a, p, b, q) && SameSpare(b, q, c, r)
    ensures SameSpare(a, p, c, r)
  {
    forall file | file in p
      ensures r[file] - TotalRecords(c, file) == p[file] - TotalRecords(a, file)
    {
      assert file in q;
    }
  }

  /** One process changes its records and the counts alike: the others still hold theirs. */
  lemma ChangeHeld(lists: seq<seq<FileMapping>>, refs: map<int, int>, k: nat, ms: seq<FileMapping>,
                   refs': map<int, int>)
    requires k < |lists| && AllHeld(lists, refs) && SameOthers(lists[k], refs, ms, refs')
    ensures AllHeld(lists[k := ms], refs') && SameSpare(lists, refs, lists[k := ms], refs')
  {
    forall file | file in refs'
      ensures file in refs
      ensures refs'[file] - TotalRecords(lists[k := ms], file) == refs[file] - TotalRecords(lists, file)
    {
      assert file in refs;
      TotalUpdate(lists, k, ms, file);
    }
  }

  lemma ForkHeld(lists: seq<seq<FileMapping>>, refs: map<int, int>, k: nat, refs': map<int, int>)
    requires k < |lists| && AllHeld(lists, refs) && refs'.Keys == refs.Keys
    requires forall file :: file in refs ==> refs'[file] == refs[file] + Records(lists[k], file)
    ensures AllHeld(lists + [lists[k]], refs') && SameSpare(lists, refs, lists + [lists[k]], refs')
  {
    assert (lists + [lists[k]])[..|lists|] == lists;
    forall file | file in refs'
      ensures file in refs
      ensures refs'[file] - TotalRecords(lists + [lists[k]], file) == refs[file] - TotalRecords(lists, file)
    {
      assert file in refs;
    }
  }

  // ---- families of processes -------------------------------------------------------

  ghost function Lists(cs: seq<Capsule>): seq<seq<FileMapping>>
    reads set c | c in cs
  {
    seq(|cs|, i requires 0 <= i < |cs| reads set c | c in cs => cs[i].mappings)
  }

  /** Address spaces over the same files. */
  ghost predicate Family(files: Files, cs: seq<Capsule>)
    reads files, set c | c in cs
  {
    && (forall i, j :: 0 <= i < j < |cs| ==> cs[i] != cs[j])
    && (forall i :: 0 <= i < |cs| ==> cs[i].files == files && cs[i].Valid())
    && (forall i :: 0 <= i < |cs| ==> LibrariesBelow(cs[i].regions, cs[i].Limit()))
    && AllHeld(Lists(cs), files.refs)
  }

  /** What a valid address space is apart from its references. */
  ghost predicate Laid(c: Capsule)
    reads c
  {
    && Tidy(c.regions) && Bounded(c.regions) && Tidy(Views(c.mappings)) && AllProper(c.mappings)
    && Backed(c.regions, c.mappings)
    && c.memory.limit <= U64_MAX && c.virtualLimit <= U64_MAX && c.memory.capacity <= U64_MAX
    && Pages(c.memory) <= U64_MAX
    && 0 <= c.startup.start && 0 <= c.startup.length && End(c.startup) <= U64_MAX
    && StartupReserved(c.regions, c.startup) && LibrariesBelow(c.regions, c.Limit())
  }

  ghost predicate Known(ms: seq<FileMapping>, refs: map<int, int>) {
    forall i :: 0 <= i < |ms| ==> ms[i].file in refs
  }

  /** The counts hold the records of all, so they hold those of each. */
  lemma EachHeld(files: Files, cs: seq<Capsule>)
    requires forall i, j :: 0 <= i < j < |cs| ==> cs[i] != cs[j]
    requires forall i :: 0 <= i < |cs| ==> cs[i].files == files && Laid(cs[i]) && Known(cs[i].mappings, files.refs)
    requires AllHeld(Lists(cs), files.refs)
    ensures Family(files, cs)
  {
    forall i | 0 <= i < |cs|
      ensures cs[i].Valid()
    {
      forall file | file in files.refs
        ensures Records(cs[i].mappings, file) <= files.refs[file]
      {
        TotalAtLeast(Lists(cs), i, file);
        assert Lists(cs)[i] == cs[i].mappings;
      }
    }
  }

  /** Every address space but that of process `k` is laid out over files that are known. */
  ghost predicate OthersLaid(files: Files, cs: seq<Capsule>, k: nat, refs: map<int, int>)
    reads set c | c in cs
  {
    && (forall i, j :: 0 <= i < j < |cs| ==> cs[i] != cs[j])
    && (forall i :: 0 <= i < |cs| ==> cs[i].files == files)
    && (forall i :: 0 <= i < |cs| && i != k ==> Laid(cs[i]) && Known(cs[i].mappings, refs))
  }

  lemma FamilyLaid(files: Files, cs: seq<Capsule>, k: nat)
    requires Family(files, cs)
    ensures OthersLaid(files, cs, k, files.refs)
  {
  }

  /** One process changes its records and the counts alike, and its address space stays valid:
      so does the family. */
  lemma ChangeKeeps(files: Files, cs: seq<Capsule>, k: nat, lists: seq<seq<FileMapping>>, refs: map<int, int>)
    requires k < |cs| == |lists| && OthersLaid(files, cs, k, refs) && AllHeld(lists, refs)
    requires cs[k].Valid() && LibrariesBelow(cs[k].regions, cs[k].Limit())
    requires Lists(cs) == lists[k := cs[k].mappings] && SameOthers(lists[k], refs, cs[k].mappings, files.refs)
    ensures Family(files, cs) && SameSpare(lists, refs, Lists(cs), files.refs)
  {
    ChangeHeld(lists, refs, k, cs[k].mappings, files.refs);
    EachHeld(files, cs);
  }

  datatype Call =
    | Reserve(first: nat, count: nat, kind: Kind, grows: bool)
    | Allocate(count: nat, kind: Kind, topDown: bool, grows: bool)
    | AllocateLibrary(count: nat, grows: bool)
    | Mmap(address: nat, length: nat, noReplace: bool, tableGrows: bool, listGrows: bool, accepted: bool)
    | MapFile(request: Request)
    | Munmap(address: nat, length: nat, built: bool, accepted: bool)
    | Forget(address: nat, length: nat, built: bool)
    | Fork
    | Exec(image: Image, libraries: seq<LoadedLibrary>, room: nat)
    | Exit

  /** A file to map: where, what of it, and how the parts of the work turn out. */
  datatype Request = Request(address: nat, length: nat, file: int, offset: nat, shared: bool, writable: bool,
                             noReplace: bool, tableGrows: bool, listGrows: bool, accepted: bool,
                             recorded: bool, undone: bool)

  function Recorded(q: Request, address: int): FileMapping {
    FileMapping(address, q.length, q.offset, q.file, q.shared, q.writable)
  }

  /** Library regions are made by the library allocator alone, and addresses are 64-bit. */
  predicate Legal(call: Call) {
    match call
    case Reserve(_, _, kind, _) => kind != Library
    case Allocate(_, kind, _, _) => kind != Library
    case Munmap(address, _, _, _) => address <= U64_MAX
    case _ => true
  }

  // ---- the startup block over runs -------------------------------------------------

  /** The startup block of a process that has its image is in place: its regions are exactly
      the startup pages, and these are mapped. */
  ghost predicate Guarded(c: Capsule)
    reads c
  {
    StartupTight(c.regions, c.startup) && StartupMapped(c.startup, c.memory)
  }

  ghost predicate AllGuarded(cs: seq<Capsule>)
    reads set c | c in cs
  {
    forall i :: 0 <= i < |cs| ==> Guarded(cs[i])
  }

  ghost predicate StartupMapped(startup: Span<bool>, m: Memory) {
    forall page :: StartupPage(startup, page) ==> PageMapped(m, page)
  }

  /** What guest code can ask for: unmapping is rounded to whole pages first, startup regions
      are made by exec alone, and the linear pages of a new image are mapped. */
  ghost predicate Guest(call: Call) {
    match call
    case Reserve(_, _, kind, _) => kind != Startup
    case Allocate(_, kind, _, _) => kind != Startup
    case Munmap(_, length, _, _) => Aligned(length)
    case Exec(i, _, _) => forall page :: 0 <= page < i.memory.linear ==> PageMapped(i.memory, page)
    case _ => true
  }

  ghost predicate PagesStay(m: Memory, m': Memory) {
    forall page :: PageMapped(m, page) ==> PageMapped(m', page)
  }

  /** Unmapping whole pages that meet no startup byte takes no startup page. */
  lemma UnmapGuarded(rs: seq<Region>, startup: Span<bool>, m: Memory, address: int, length: int,
                     rs': seq<Region>, m': Memory)
    requires Tidy(rs) && StartupReserved(rs, startup) && StartupTight(rs, startup) && StartupMapped(startup, m)
    requires Aligned(address) && Aligned(length) && LengthOk(length)
    requires startup.length > 0 ==> !Meets(startup, address, address + length)
    requires rs' == Cut(rs, PageOf(address), PageOf(address) + PagesFor(length), Mapped)
    requires m' == WithPages(m, PageOf(address), PagesFor(length), false)
    ensures StartupTight(rs', startup) && StartupMapped(startup, m')
  {
    PagesForCover(length);
    WholePages(address, length);
    ReservedStays(rs, startup, PageOf(address), PagesFor(length));
    forall page | StartupPage(startup, page)
      ensures PageMapped(m', page)
    {
      if PageOf(address) <= page < PageOf(address) + PagesFor(length) {
        AddressBetween(PageOf(address), page, PagesFor(length));
      }
    }
  }

  /** A range that holds startup bytes is reserved. */
  lemma StartupIsReserved(rs: seq<Region>, startup: Span<bool>, first: int, count: int)
    requires StartupReserved(rs, startup) && startup.length > 0 && 0 < count
    requires Meets(startup, Address(first), Address(first + count))
    ensures !Unreserved(rs, first, count)
  {
    var a := if startup.start > Address(first) then startup.start else Address(first);
    PageOfRange(a, first, count);
    AlignedPage(a);
    assert StartupPage(startup, PageOf(a));
    var k :| 0 <= k < |rs| && In(rs[k], PageOf(a)) && rs[k].tag == Startup;
    assert Meets(rs[k], first, first + count);
  }

  lemma AlignedPage(a: int)
    ensures Address(PageOf(a)) <= a < Address(PageOf(a) + 1)
  {
  }

  // ---- what calls do ---------------------------------------------------------------

  /** An address space as a value. */
  datatype Layout = Layout(regions: seq<Region>, mappings: seq<FileMapping>, memory: Memory, limit: nat,
                           startup: Span<bool>)

  ghost function Now(c: Capsule): Layout
    reads c
  {
    Layout(c.regions, c.mappings, c.memory, c.virtualLimit, c.startup)
  }

  ghost function Limit(a: Layout): int {
    if a.limit != 0 then a.limit else MEM32_MAX_PAGES
  }

  /** A mapping was made in the range. */
  ghost predicate JustMapped(a: Layout, b: Layout, out: int, length: int) {
    var first, count := PageOf(out), PagesFor(length);
    && LengthOk(length) && Aligned(out) && 0 <= first
    && b.regions == a.regions + [Span(first, count, Mapping)]
    && Vacant(a.regions, a.memory, first, count) && Fits(b.memory, first, count)
    && b.memory == a.memory.(mapped := b.memory.mapped)
    && forall page :: PageMapped(b.memory, page) == (first <= page < first + count || PageMapped(a.memory, page))
  }

  /** Regions and mapped pages are as they were. */
  ghost predicate Restored(a: Layout, b: Layout) {
    && b.regions == a.regions && b.memory == a.memory.(mapped := b.memory.mapped)
    && forall page :: PageMapped(b.memory, page) == PageMapped(a.memory, page)
  }

  /** A free range of `count` pages below `limit`: the highest one or the lowest. */
  ghost predicate Extreme(rs: seq<Region>, first: int, count: int, limit: int, topDown: bool) {
    && 0 <= first && first + count <= limit && Unreserved(rs, first, count)
    && (topDown ==> forall c :: first < c && c + count <= limit ==> !Unreserved(rs, c, count))
    && (!topDown ==> forall c :: 0 <= c < first ==> !Unreserved(rs, c, count))
  }

  /** A region of `count` pages is made in the extreme free range, if there is one. */
  ghost predicate Allocates(a: Layout, count: nat, kind: Kind, topDown: bool, limit: int, grows: bool, b: Layout) {
    if 0 < count && grows && exists c :: 0 <= c && c + count <= limit && Unreserved(a.regions, c, count) then
      exists first ::
        && Extreme(a.regions, first, count, limit, topDown)
        && b == a.(regions := a.regions + [Span(first, count, kind)])
    else
      b == a
  }

  /** Whether a mapping is made where the search may put it: nothing but the search can fail,
      and it finds a range exactly if there is one. */
  ghost predicate SearchDecides(a: Layout, address: nat, length: nat, willing: bool, made: bool) {
    address == 0 && LengthOk(length) && willing && a.memory.limit <= a.memory.capacity ==>
      (made <==> exists c :: Candidate(a.regions, a.memory, c, PagesFor(length)))
  }

  /** Where a mapping goes: to the address asked for, or where the search puts it. */
  ghost predicate Placed(a: Layout, address: nat, length: nat, out: int) {
    if address != 0 then out == address else Chosen(a.regions, a.memory, PageOf(out), PagesFor(length))
  }

  ghost predicate MapsPages(a: Layout, call: Call, made: bool, b: Layout)
    requires call.Mmap?
  {
    && b == a.(regions := b.regions, memory := b.memory)
    && SearchDecides(a, call.address, call.length, call.tableGrows && call.listGrows && call.accepted, made)
    && if made then exists out :: Placed(a, call.address, call.length, out) && JustMapped(a, b, out, call.length)
       else Restored(a, b)
  }

  /** What a call that makes regions does. */
  ghost predicate LocalEffect(a: Layout, call: Call, b: Layout)
    requires call.Reserve? || call.Allocate? || call.AllocateLibrary? || call.Mmap?
  {
    match call
    case Reserve(first, count, kind, grows) =>
      b == if 0 < count && first <= U64_MAX - count && Unreserved(a.regions, first, count) && grows
           then a.(regions := a.regions + [Span(first, count, kind)]) else a
    case Allocate(count, kind, topDown, grows) => Allocates(a, count, kind, topDown, Limit(a), grows, b)
    case AllocateLibrary(count, grows) => Allocates(a, count, Library, true, Limit(a) - GUARDED_PAGES, grows, b)
    case Mmap(_, _, _, _, _, _) => exists made :: MapsPages(a, call, made, b)
  }

  // ---- steps -----------------------------------------------------------------------

  method MmapCall(c: Capsule, call: Call) returns (made: bool)
    requires c.Valid() && LibrariesBelow(c.regions, c.Limit()) && call.Mmap?
    modifies c`regions, c`memory
    ensures c.Valid() && LibrariesBelow(c.regions, c.Limit())
    ensures PagesStay(old(c.memory), c.memory)
    ensures c.regions == old(c.regions) || (c.regions != [] && c.regions[..|c.regions| - 1] == old(c.regions))
    ensures MapsPages(old(Now(c)), call, made, Now(c))
  {
    var r, out := c.Mmap(call.address, call.length, call.noReplace, call.tableGrows, call.listGrows, call.accepted);
    made := r == 0;
    if made {
      PagesForCover(call.length);
      MappedFits(c.memory, PageOf(out), PagesFor(call.length));
      assert JustMapped(old(Now(c)), Now(c), out, call.length);
    }
  }

  /** A call that leaves the file mappings alone. */
  method LocalCall(c: Capsule, call: Call)
    requires c.Valid() && LibrariesBelow(c.regions, c.Limit()) && Legal(call)
    requires call.Reserve? || call.Allocate? || call.AllocateLibrary? || call.Mmap?
    modifies c`regions, c`memory
    ensures c.Valid() && LibrariesBelow(c.regions, c.Limit())
    ensures Guest(call) && old(Guarded(c)) ==> Guarded(c)
    ensures LocalEffect(old(Now(c)), call, Now(c))
  {
    ghost var rs := c.regions;
    match call {
      case Reserve(first, count, kind, grows) =>
        var _ := c.Reserve(first, count, kind, grows);
      case Allocate(count, kind, topDown, grows) =>
        var _, _ := c.Allocate(count, kind, topDown, grows);
      case AllocateLibrary(count, grows) =>
        var _, _ := c.AllocateLibrary(count, grows);
      case Mmap(_, _, _, _, _, _) =>
        var _ := MmapCall(c, call);
    }
    assert PagesStay(old(c.memory), c.memory);
    if c.regions != rs {
      ReservedAppend(rs, c.startup, c.regions[|rs|]);
    }
  }

  method LocalStep(files: Files, cs: seq<Capsule>, k: nat, call: Call)
    requires Family(files, cs) && k < |cs| && Legal(call)
    requires call.Reserve? || call.Allocate? || call.AllocateLibrary? || call.Mmap?
    modifies cs[k]
    ensures Family(files, cs) && Lists(cs) == old(Lists(cs))
    ensures Guest(call) && old(Guarded(cs[k])) ==> Guarded(cs[k])
    ensures LocalEffect(old(Now(cs[k])), call, Now(cs[k]))
  {
    ghost var lists := Lists(cs);
    LocalCall(cs[k], call);
    assert Lists(cs) == lists;
  }

  /** Record a mapping of a file, with a reference taken for it. */
  method RecordOne(c: Capsule, m: FileMapping, grows: bool) returns (r: int)
    requires c.Valid() && m.file in c.files.refs && Open(c.mappings, m) && OnMapping(c.regions, m)
    modifies c`mappings, c.files
    ensures c.Valid()
    ensures r == if !FileMappings.Proper(m) then EINVAL else if grows then 0 else ENOMEM
    ensures c.mappings == if r == 0 then old(c.mappings) + [m] else old(c.mappings)
    ensures SameOthers(old(c.mappings), old(c.files.refs), c.mappings, c.files.refs)
    ensures r != 0 ==> c.files.refs == old(c.files.refs)
  {
    ghost var refs := c.files.refs;
    c.files.refs := c.files.refs[m.file := c.files.refs[m.file] + 1];
    r := c.Record(m, grows);
    if r != 0 {
      c.files.refs := c.files.refs[m.file := c.files.refs[m.file] - 1];
      assert c.files.refs == refs;
    } else {
      forall file | file in refs
        ensures c.files.refs[file] - Records(c.mappings, file) == refs[file] - Records(old(c.mappings), file)
      {
        RecordsAppend(old(c.mappings), [m], file);
        RecordsOne(m, file);
      }
    }
  }

  /** The end of the pages of a range fits in 64 bits. */
  ghost predicate EndFits(out: int, length: int) {
    Address(PageOf(out) + PagesFor(length)) <= U64_MAX
  }

  lemma NothingMet(rs: seq<Region>, ms: seq<FileMapping>, first: int, count: int)
    requires Backed(rs, ms) && AllProper(ms) && Unreserved(rs, first, count) && 0 < count
    ensures Cut(rs + [Span(first, count, Mapping)], first, first + count, Mapped) == rs
    ensures Release(ms, Address(first), Address(first + count)) == ms
  {
    var last := Span(first, count, Mapping);
    assert (rs + [last])[..|rs|] == rs;
    CutNothing(rs, first, first + count, Mapped);
    NoRecordMet(rs, ms, first, count);
  }

  lemma NoRecordMet(rs: seq<Region>, ms: seq<FileMapping>, first: int, count: int)
    requires Backed(rs, ms) && AllProper(ms) && Unreserved(rs, first, count) && 0 < count
    ensures Release(ms, Address(first), Address(first + count)) == ms
  {
    forall i | 0 <= i < |ms|
      ensures !Meets(View(ms[i]), Address(first), Address(first + count))
    {
      assert FileMappings.Proper(ms[i]);
      if Meets(View(ms[i]), Address(first), Address(first + count)) {
        MeetIsReserved(rs, ms, i, first, count);
      }
    }
    ReleaseNothing(ms, Address(first), Address(first + count));
  }

  /** Only a startup region that is the first one met protects itself, and none is met. */
  lemma NotOnStartup(rs: seq<Region>, first: int, count: int)
    requires Unreserved(rs, first, count)
    ensures !FirstMetIs(rs + [Span(first, count, Mapping)], first, count, Startup)
  {
  }

  lemma SameRefs(ms: seq<FileMapping>, refs: map<int, int>, refs': map<int, int>)
    requires SameOthers(ms, refs, ms, refs')
    ensures refs' == refs
  {
    assert forall file :: file in refs' ==> file in refs && refs'[file] == refs[file];
  }

  lemma MappedFits(m: Memory, first: int, count: int)
    requires 0 <= first && 0 < count && PageMapped(m, first + count - 1)
    ensures Fits(m, first, count)
  {
  }

  /** Unmap the range again. */
  method UndoOne(c: Capsule, out: int, length: int, undone: bool, ghost a: Layout)
    requires c.Valid() && LibrariesBelow(c.regions, c.Limit()) && JustMapped(a, Now(c), out, length)
    requires Backed(a.regions, c.mappings) && StartupReserved(a.regions, c.startup)
    modifies c`regions, c`mappings, c`memory, c.files`refs
    ensures c.Valid() && LibrariesBelow(c.regions, c.Limit())
    ensures c.mappings == old(c.mappings) && c.files.refs == old(c.files.refs)
    ensures if undone && EndFits(out, length) then Restored(a, Now(c)) else JustMapped(a, Now(c), out, length)
  {
    PagesForCover(length);
    UndoStands(a, c, out, length);
    if out <= U64_MAX {
      var r := c.Munmap(out, length, true, undone);
      if r == 0 {
        UndoRestores(a.regions, a.memory, old(c.memory), old(c.mappings), PageOf(out), PagesFor(length),
                     c.regions, c.mappings, c.memory);
        SameRefs(c.mappings, old(c.files.refs), c.files.refs);
      }
    }
  }

  /** Nothing but the end of the address range stands against the rollback: the range was not
      reserved, so it holds no startup bytes. */
  lemma UndoStands(a: Layout, c: Capsule, out: int, length: int)
    requires JustMapped(a, Now(c), out, length) && StartupReserved(a.regions, c.startup)
    requires End(c.startup) <= U64_MAX && 0 <= c.startup.length
    ensures c.Unmappable(out, length) && !c.OnStartup(out, length) <==> EndFits(out, length)
    ensures !Restored(a, Now(c)) && (EndFits(out, length) ==> out <= U64_MAX)
  {
    PagesForCover(length);
    AlignedIs(out);
    AddressSum(PageOf(out), PagesFor(length));
    NotOnStartup(a.regions, PageOf(out), PagesFor(length));
    if c.startup.length > 0 && Meets(c.startup, out, Address(PageOf(out) + PagesFor(length))) {
      StartupIsReserved(a.regions, c.startup, PageOf(out), PagesFor(length));
    }
  }

  lemma UndoRestores(rs: seq<Region>, m: Memory, made: Memory, ms: seq<FileMapping>, first: int, count: int,
                     rs': seq<Region>, ms': seq<FileMapping>, m': Memory)
    requires Backed(rs, ms) && AllProper(ms) && Vacant(rs, m, first, count) && 0 < count
    requires forall page :: PageMapped(made, page) == (first <= page < first + count || PageMapped(m, page))
    requires Unmaps(rs + [Span(first, count, Mapping)], ms, made, first, count, rs', ms', m')
    ensures rs' == rs && ms' == ms && forall page :: PageMapped(m', page) == PageMapped(m, page)
  {
    NothingMet(rs, ms, first, count);
  }

  /** Make the mapping; its range is open to a record. */
  method MapOne(c: Capsule, q: Request) returns (r: int, out: int)
    requires c.Valid() && LibrariesBelow(c.regions, c.Limit())
    modifies c`regions, c`memory
    ensures c.Valid() && LibrariesBelow(c.regions, c.Limit())
    ensures r != 0 ==> Restored(old(Now(c)), Now(c))
    ensures r == 0 ==> Placed(old(Now(c)), q.address, q.length, out) && JustMapped(old(Now(c)), Now(c), out, q.length)
    ensures r == 0 ==> Open(c.mappings, Recorded(q, out)) && OnMapping(c.regions, Recorded(q, out))
    ensures SearchDecides(old(Now(c)), q.address, q.length, q.tableGrows && q.listGrows && q.accepted, r == 0)
  {
    r, out := c.Mmap(q.address, q.length, q.noReplace, q.tableGrows, q.listGrows, q.accepted);
    if r == 0 {
      PagesForCover(q.length);
      AlignedIs(out);
      FreshRangeIsOpen(old(c.regions), c.mappings, Recorded(q, out), PageOf(out), PagesFor(q.length));
      MappedFits(c.memory, PageOf(out), PagesFor(q.length));
    }
  }

  /** What mapping a file comes to: the mapping and its record, or neither, unless the mapping
      was made and could not be taken back. */
  ghost predicate FileMapped(q: Request, r: int, out: int, made: bool, a: Layout, b: Layout) {
    && b == a.(regions := b.regions, mappings := b.mappings, memory := b.memory)
    && SearchDecides(a, q.address, q.length, q.tableGrows && q.listGrows && q.accepted, made)
    && (r == 0 <==> made && q.recorded && FileMappings.Proper(Recorded(q, out)))
    && (made ==> Placed(a, q.address, q.length, out))
    && if r == 0 then
         && JustMapped(a, b, out, q.length)
         && b.mappings == a.mappings + [FileMapping(out, q.length, q.offset, q.file, q.shared, q.writable)]
       else
         && b.mappings == a.mappings
         && if !made || (q.undone && EndFits(out, q.length)) then Restored(a, b) else JustMapped(a, b, out, q.length)
  }

  /** Map a file: make the mapping, then record it; if it cannot be recorded, unmap it again.
      `made` says whether the mapping was made. */
  method MapFileOne(c: Capsule, q: Request) returns (r: int, out: int, made: bool)
    requires c.Valid() && LibrariesBelow(c.regions, c.Limit()) && q.file in c.files.refs
    modifies c`regions, c`mappings, c`memory, c.files
    ensures c.Valid() && LibrariesBelow(c.regions, c.Limit())
    ensures SameOthers(old(c.mappings), old(c.files.refs), c.mappings, c.files.refs)
    ensures FileMapped(q, r, out, made, old(Now(c)), Now(c))
    ensures r != 0 ==> c.files.refs == old(c.files.refs)
    ensures old(Guarded(c)) ==> Guarded(c)
  {
    ghost var rs := c.regions;
    r, out := MapOne(c, q);
    made := r == 0;
    if r != 0 {
      return;
    }
    ReservedAppend(rs, c.startup, c.regions[|rs|]);
    r := RecordOne(c, Recorded(q, out), q.recorded);
    if r != 0 {
      UndoOne(c, out, q.length, q.undone, old(Now(c)));
      r := ENOMEM;
    }
  }

  /** The same among other processes, which it leaves alone. */
  method MapFileAmong(files: Files, cs: seq<Capsule>, k: nat, q: Request) returns (r: int, out: int, made: bool)
    requires Family(files, cs) && k < |cs| && q.file in files.refs
    modifies cs[k], files
    ensures OthersLaid(files, cs, k, old(files.refs)) && Lists(cs) == old(Lists(cs))[k := cs[k].mappings]
    ensures cs[k].Valid() && LibrariesBelow(cs[k].regions, cs[k].Limit())
    ensures SameOthers(old(cs[k].mappings), old(files.refs), cs[k].mappings, files.refs)
    ensures FileMapped(q, r, out, made, old(Now(cs[k])), Now(cs[k]))
    ensures r != 0 ==> files.refs == old(files.refs)
    ensures old(Guarded(cs[k])) ==> Guarded(cs[k])
  {
    FamilyLaid(files, cs, k);
    r, out, made := MapFileOne(cs[k], q);
  }

  /** The same in a family: the counts follow the records. */
  method MapFileStep(files: Files, cs: seq<Capsule>, k: nat, q: Request) returns (r: int, out: int, made: bool)
    requires Family(files, cs) && k < |cs| && q.file in files.refs
    modifies cs[k], files
    ensures Family(files, cs)
    ensures SameOthers(old(cs[k].mappings), old(files.refs), cs[k].mappings, files.refs)
    ensures FileMapped(q, r, out, made, old(Now(cs[k])), Now(cs[k]))
    ensures r != 0 ==> files.refs == old(files.refs)
    ensures SameSpare(old(Lists(cs)), old(files.refs), Lists(cs), files.refs)
    ensures old(Guarded(cs[k])) ==> Guarded(cs[k])
  {
    ghost var lists, refs := Lists(cs), files.refs;
    r, out, made := MapFileAmong(files, cs, k, q);
    ChangeKeeps(files, cs, k, lists, refs);
  }

  ghost predicate UnmapsRange(a: Layout, address: nat, length: nat, allowed: bool, b: Layout) {
    var first, count := PageOf(address), PagesFor(length);
    if allowed && Aligned(address) && LengthOk(length) && Address(first + count) <= U64_MAX
       && Fits(a.memory, first, count) && !OnStartup(a, address, length) then
      && b == a.(regions := b.regions, mappings := b.mappings, memory := b.memory)
      && Unmaps(a.regions, a.mappings, a.memory, first, count, b.regions, b.mappings, b.memory)
    else
      b == a
  }

  /** The startup region is the first one met, or the range meets the startup bytes. */
  ghost predicate OnStartup(a: Layout, address: nat, length: nat) {
    || FirstMetIs(a.regions, PageOf(address), PagesFor(length), Startup)
    || (&& a.startup.length != 0
        && (address + length > U64_MAX || End(a.startup) > U64_MAX || Meets(a.startup, address, address + length)))
  }

  ghost predicate Forgets(a: Layout, address: nat, length: nat, built: bool, b: Layout) {
    b == if length != 0 && Aligned(address) && Aligned(length) && address <= U64_MAX - length && built
         then a.(mappings := Release(a.mappings, address, address + length)) else a
  }

  const GONE: Layout := Layout([], [], NO_MEMORY, 0, NO_STARTUP)

  ghost predicate ReleasingEffect(a: Layout, call: Call, b: Layout)
    requires call.Munmap? || call.Forget? || call.Exit?
  {
    match call
    case Munmap(address, length, built, accepted) => UnmapsRange(a, address, length, built && accepted, b)
    case Forget(address, length, built) => Forgets(a, address, length, built, b)
    case Exit => b == GONE
  }

  method ReleasingCall(c: Capsule, call: Call)
    requires c.Valid() && LibrariesBelow(c.regions, c.Limit()) && Legal(call)
    requires call.Munmap? || call.Forget? || call.Exit?
    modifies c, c.files
    ensures c.Valid() && LibrariesBelow(c.regions, c.Limit())
    ensures SameOthers(old(c.mappings), old(c.files.refs), c.mappings, c.files.refs)
    ensures ReleasingEffect(old(Now(c)), call, Now(c))
    ensures Guest(call) && old(Guarded(c)) ==> Guarded(c)
  {
    match call {
      case Munmap(address, length, built, accepted) =>
        UnmapOne(c, address, length, built, accepted);
      case Forget(address, length, built) =>
        ForgetOne(c, address, length, built);
      case Exit =>
        EndOne(c);
    }
  }

  method ForgetOne(c: Capsule, address: nat, length: nat, built: bool)
    requires c.Valid()
    modifies c`mappings, c.files`refs
    ensures c.Valid() && SameOthers(old(c.mappings), old(c.files.refs), c.mappings, c.files.refs)
    ensures Forgets(old(Now(c)), address, length, built, Now(c))
  {
    var _ := c.Forget(address, length, built);
  }

  method EndOne(c: Capsule)
    requires c.Valid()
    modifies c, c.files`refs
    ensures c.Valid() && SameOthers(old(c.mappings), old(c.files.refs), c.mappings, c.files.refs)
    ensures Now(c) == GONE && LibrariesBelow(c.regions, c.Limit()) && Guarded(c)
  {
    c.Destroy();
    NoStartup(c.regions);
  }

  /** A call that gives up file mappings, or all of them: its records and the counts go down
      together, so no file another process maps loses its last reference. */
  method ReleasingStep(files: Files, cs: seq<Capsule>, k: nat, call: Call)
    requires Family(files, cs) && k < |cs| && Legal(call)
    requires call.Munmap? || call.Forget? || call.Exit?
    modifies cs[k], files
    ensures Family(files, cs)
    ensures SameOthers(old(cs[k].mappings), old(files.refs), cs[k].mappings, files.refs)
    ensures ReleasingEffect(old(Now(cs[k])), call, Now(cs[k]))
    ensures SameSpare(old(Lists(cs)), old(files.refs), Lists(cs), files.refs)
    ensures Guest(call) && old(Guarded(cs[k])) ==> Guarded(cs[k])
  {
    ghost var lists, refs := Lists(cs), files.refs;
    FamilyLaid(files, cs, k);
    ReleasingCall(cs[k], call);
    assert OthersLaid(files, cs, k, refs);
    assert Lists(cs) == lists[k := cs[k].mappings];
    ChangeKeeps(files, cs, k, lists, refs);
  }

  method UnmapOne(c: Capsule, address: nat, length: nat, built: bool, accepted: bool)
    requires c.Valid() && LibrariesBelow(c.regions, c.Limit()) && address <= U64_MAX
    modifies c`regions, c`mappings, c`memory, c.files`refs
    ensures c.Valid() && LibrariesBelow(c.regions, c.Limit())
    ensures SameOthers(old(c.mappings), old(c.files.refs), c.mappings, c.files.refs)
    ensures Aligned(length) && old(Guarded(c)) ==> Guarded(c)
    ensures UnmapsRange(old(Now(c)), address, length, built && accepted, Now(c))
  {
    ghost var rs, m := c.regions, c.memory;
    var r := c.Munmap(address, length, built, accepted);
    if r == 0 && Aligned(length) && old(Guarded(c)) {
      UnmapGuarded(rs, c.startup, m, address, length, c.regions, c.memory);
    }
  }

  predicate Commits(i: Image, ls: seq<LoadedLibrary>, room: nat) {
    Sized(i) && AllSmall(ls) && (i.memory.linear > 0 || i.size == 0) && Committed(i, ls, room).ok
  }

  ghost function Executed(a: Layout, i: Image, ls: seq<LoadedLibrary>, room: nat): Layout {
    Layout(Committed(i, ls, room).regions, a.mappings, i.memory, PageLimit(i), Span(i.start, i.size, true))
  }

  /** An exec that commits, in a process without file mappings. */
  method ExecStep(files: Files, cs: seq<Capsule>, k: nat, i: Image, ls: seq<LoadedLibrary>, room: nat)
    requires Family(files, cs) && k < |cs| && cs[k].mappings == [] && Commits(i, ls, room)
    modifies cs[k]
    ensures Family(files, cs) && Lists(cs) == old(Lists(cs)) && Now(cs[k]) == Executed(old(Now(cs[k])), i, ls, room)
    ensures Guest(Exec(i, ls, room)) ==> Guarded(cs[k])
  {
    ghost var lists := Lists(cs);
    var _ := cs[k].Exec(i, ls, room);
    assert Lists(cs) == lists;
    if Guest(Exec(i, ls, room)) {
      ImageMapped(i);
    }
  }

  lemma ImageMapped(i: Image)
    requires i.size == 0 || (i.memory.linear > 0 && Fitting(i))
    requires forall page :: 0 <= page < i.memory.linear ==> PageMapped(i.memory, page)
    ensures StartupMapped(Span(i.start, i.size, true), i.memory)
  {
    forall page | StartupPage(Span(i.start, i.size, true), page)
      ensures PageMapped(i.memory, page)
    {
      StartupPages(i.start, i.size, page);
    }
  }

  // ---- the family as a value -------------------------------------------------------

  /** The address spaces of all processes, and the reference counts of files. */
  datatype State = State(layouts: seq<Layout>, refs: map<int, int>)

  ghost function Mappings(layouts: seq<Layout>): seq<seq<FileMapping>> {
    seq(|layouts|, i requires 0 <= i < |layouts| => layouts[i].mappings)
  }

  ghost function Layouts(cs: seq<Capsule>): seq<Layout>
    reads set c | c in cs
  {
    seq(|cs|, i requires 0 <= i < |cs| reads set c | c in cs => Now(cs[i]))
  }

  ghost function Whole(files: Files, cs: seq<Capsule>): State
    reads files, set c | c in cs
  {
    State(Layouts(cs), files.refs)
  }

  /** Calls the source leaves to its callers to get right, and an exec that fails or keeps file
      mappings, which leaves an address space that is not sound. */
  predicate LegalAt(a: State, k: nat, call: Call) {
    && k < |a.layouts| && Legal(call)
    && (call.MapFile? ==> call.request.file in a.refs)
    && (call.Exec? ==> a.layouts[k].mappings == [] && Commits(call.image, call.libraries, call.room))
  }

  /** What a call does to the address space of its process. */
  ghost predicate Effect(a: Layout, call: Call, b: Layout)
    requires !call.Fork?
  {
    match call
    case MapFile(q) => exists r, out, made :: FileMapped(q, r, out, made, a, b)
    case Munmap(_, _, _, _) => ReleasingEffect(a, call, b)
    case Forget(_, _, _) => ReleasingEffect(a, call, b)
    case Exit => ReleasingEffect(a, call, b)
    case Exec(image, libraries, room) => b == Executed(a, image, libraries, room)
    case Reserve(_, _, _, _) => LocalEffect(a, call, b)
    case Allocate(_, _, _, _) => LocalEffect(a, call, b)
    case AllocateLibrary(_, _) => LocalEffect(a, call, b)
    case Mmap(_, _, _, _, _, _) => LocalEffect(a, call, b)
  }

  /** A call concerns one process, or adds one; references follow the records. */
  ghost predicate Leads(a: State, k: nat, call: Call, b: State)
    requires LegalAt(a, k, call)
  {
    && SameSpare(Mappings(a.layouts), a.refs, Mappings(b.layouts), b.refs)
    && if call.Fork? then b.layouts == a.layouts + [a.layouts[k].(startup := NO_STARTUP)]
       else exists next :: Effect(a.layouts[k], call, next) && b.layouts == a.layouts[k := next]
  }

  lemma ListsAre(cs: seq<Capsule>)
    ensures Lists(cs) == Mappings(Layouts(cs))
  {
  }

  /** A fork: the family gains the child. */
  method ForkStep(files: Files, cs: seq<Capsule>, k: nat) returns (cs': seq<Capsule>)
    requires Family(files, cs) && k < |cs|
    modifies files
    ensures cs <= cs' && |cs'| == |cs| + 1 && fresh(cs'[|cs|])
    ensures Family(files, cs') && SameSpare(old(Lists(cs)), old(files.refs), Lists(cs'), files.refs)
    ensures Layouts(cs') == old(Layouts(cs)) + [old(Now(cs[k])).(startup := NO_STARTUP)]
    ensures old(AllGuarded(cs)) ==> AllGuarded(cs')
  {
    ghost var lists, refs := Lists(cs), files.refs;
    var child := cs[k].Fork();
    NoStartup(child.regions);
    cs' := cs + [child];
    assert Lists(cs') == lists + [lists[k]];
    ForkHeld(lists, refs, k, files.refs);
    EachHeld(files, cs');
  }

  /** A call that concerns one process. */
  method OwnCall(files: Files, cs: seq<Capsule>, k: nat, call: Call)
    requires Family(files, cs) && LegalAt(Whole(files, cs), k, call) && !call.Fork?
    modifies cs[k], files
    ensures Family(files, cs) && SameSpare(old(Lists(cs)), old(files.refs), Lists(cs), files.refs)
    ensures Effect(old(Now(cs[k])), call, Now(cs[k]))
    ensures Guest(call) && old(Guarded(cs[k])) ==> Guarded(cs[k])
  {
    if call.Munmap? || call.Forget? || call.Exit? {
      ReleasingStep(files, cs, k, call);
    } else if call.MapFile? {
      var _, _, _ := MapFileStep(files, cs, k, call.request);
    } else if call.Exec? {
      ExecStep(files, cs, k, call.image, call.libraries, call.room);
    } else {
      LocalStep(files, cs, k, call);
    }
  }

  method OwnStep(files: Files, cs: seq<Capsule>, k: nat, call: Call)
    requires Family(files, cs) && LegalAt(Whole(files, cs), k, call) && !call.Fork?
    modifies cs[k], files
    ensures Family(files, cs) && SameSpare(old(Lists(cs)), old(files.refs), Lists(cs), files.refs)
    ensures Effect(old(Now(cs[k])), call, Now(cs[k])) && Layouts(cs) == old(Layouts(cs))[k := Now(cs[k])]
    ensures Guest(call) && old(AllGuarded(cs)) ==> AllGuarded(cs)
  {
    ghost var layouts := Layouts(cs);
    OwnCall(files, cs, k, call);
    assert Layouts(cs) == layouts[k := Now(cs[k])];
  }

  method Step(files: Files, cs: seq<Capsule>, k: nat, call: Call) returns (cs': seq<Capsule>)
    requires Family(files, cs) && LegalAt(Whole(files, cs), k, call)
    modifies files, cs[k]
    ensures cs <= cs' && Family(files, cs') && forall j :: |cs| <= j < |cs'| ==> fresh(cs'[j])
    ensures Leads(old(Whole(files, cs)), k, call, Whole(files, cs'))
    ensures old(AllGuarded(cs)) && Guest(call) ==> AllGuarded(cs')
  {
    ghost var a := Whole(files, cs);
    ListsAre(cs);
    if call.Fork? {
      cs' := ForkStep(files, cs, k);
    } else {
      OwnStep(files, cs, k, call);
      cs' := cs;
      assert Effect(a.layouts[k], call, Now(cs[k]));
    }
    ListsAre(cs');
  }

  // ---- runs ------------------------------------------------------------------------

  /** The states between calls. */
  ghost predicate Trace(states: seq<State>, calls: seq<(nat, Call)>) {
    && |states| == |calls| + 1
    && forall i :: 0 <= i < |calls| ==>
         LegalAt(states[i], calls[i].0, calls[i].1) && Leads(states[i], calls[i].0, calls[i].1, states[i + 1])
  }

  lemma TraceNext(states: seq<State>, calls: seq<(nat, Call)>, i: nat, next: State)
    requires i < |calls| && Trace(states, calls[..i]) && LegalAt(states[i], calls[i].0, calls[i].1)
    requires Leads(states[i], calls[i].0, calls[i].1, next)
    ensures Trace(states + [next], calls[..i + 1])
  {
    var more, made := states + [next], calls[..i + 1];
    forall j | 0 <= j < |made|
      ensures LegalAt(more[j], made[j].0, made[j].1) && Leads(more[j], made[j].0, made[j].1, more[j + 1])
    {
      if j < i {
        assert calls[..i][j] == made[j];
      }
    }
  }

  ghost predicate AllGuest(calls: seq<(nat, Call)>) {
    forall i :: 0 <= i < |calls| ==> Guest(calls[i].1)
  }

  /** References held elsewhere stay what they were over a whole run. */
  lemma {:induction false} SpareOverRun(states: seq<State>, calls: seq<(nat, Call)>, n: nat)
    requires Trace(states, calls) && n <= |calls|
    ensures SameSpare(Mappings(states[0].layouts), states[0].refs, Mappings(states[n].layouts), states[n].refs)
  {
    if n > 0 {
      SpareOverRun(states, calls, n - 1);
      var was, a, b := states[0], states[n - 1], states[n];
      assert Leads(a, calls[n - 1].0, calls[n - 1].1, b);
      SameSpareTrans(Mappings(was.layouts), was.refs, Mappings(a.layouts), a.refs, Mappings(b.layouts), b.refs);
    }
  }

  /** Over any run of processes over the same files, forks, execs and ends included, until a call
      that is not legal: every call has its effect, on its own process alone; regions stay
      non-empty and disjoint, file mappings stay disjoint and on mapping regions, library regions
      stay below the guarded pages, every file counts the records of all processes and the
      references held elsewhere, no more and no less, and guest calls leave the startup block of
      every process that has its image in place. */
  method Run(files: Files, cs: seq<Capsule>, calls: seq<(nat, Call)>)
    returns (cs': seq<Capsule>, done: nat, ghost states: seq<State>)
    requires Family(files, cs)
    modifies files, set c | c in cs
    ensures cs <= cs' && Family(files, cs') && done <= |calls|
    ensures Trace(states, calls[..done]) && states[0] == old(Whole(files, cs)) && states[done] == Whole(files, cs')
    ensures done < |calls| ==> !LegalAt(Whole(files, cs'), calls[done].0, calls[done].1)
    ensures SameSpare(old(Lists(cs)), old(files.refs), Lists(cs'), files.refs)
    ensures old(AllGuarded(cs)) && AllGuest(calls[..done]) ==> AllGuarded(cs')
  {
    ghost var guarded := AllGuarded(cs);
    ListsAre(cs);
    cs', done, states := RunOn(files, cs, calls, guarded);
    RunSpares(files, cs', calls[..done], states, guarded);
  }

  /** The loop of a run. */
  method RunOn(files: Files, cs: seq<Capsule>, calls: seq<(nat, Call)>, ghost guarded: bool)
    returns (cs': seq<Capsule>, done: nat, ghost states: seq<State>)
    requires Family(files, cs) && (guarded ==> AllGuarded(cs))
    modifies files, set c | c in cs
    ensures cs <= cs' && done <= |calls|
    ensures Midway(files, cs', calls[..done], states, guarded) && states[0] == old(Whole(files, cs))
    ensures done < |calls| ==> !LegalAt(Whole(files, cs'), calls[done].0, calls[done].1)
  {
    cs', done, states := cs, 0, [Whole(files, cs)];
    while done < |calls| && CanGo(files, cs', calls[done].0, calls[done].1)
      invariant done <= |calls| && cs <= cs' && forall j :: |cs| <= j < |cs'| ==> fresh(cs'[j])
      invariant Midway(files, cs', calls[..done], states, guarded) && states[0] == old(Whole(files, cs))
    {
      cs', states := RunStep(files, cs', calls, done, states, guarded);
      done := done + 1;
    }
  }

  lemma RunSpares(files: Files, cs: seq<Capsule>, calls: seq<(nat, Call)>, states: seq<State>, guarded: bool)
    requires Midway(files, cs, calls, states, guarded)
    ensures SameSpare(Mappings(states[0].layouts), states[0].refs, Lists(cs), files.refs)
  {
    ListsAre(cs);
    SpareOverRun(states, calls, |calls|);
  }

  predicate CanGo(files: Files, cs: seq<Capsule>, k: nat, call: Call)
    reads files, set c | c in cs
    ensures CanGo(files, cs, k, call) <==> LegalAt(Whole(files, cs), k, call)
  {
    && k < |cs| && Legal(call)
    && (call.MapFile? ==> call.request.file in files.refs)
    && (call.Exec? ==> cs[k].mappings == [] && Commits(call.image, call.libraries, call.room))
  }

  /** The calls so far have led here. */
  ghost predicate Midway(files: Files, cs: seq<Capsule>, calls: seq<(nat, Call)>, states: seq<State>, guarded: bool)
    reads files, set c | c in cs
  {
    && Family(files, cs) && Trace(states, calls) && states[|calls|] == Whole(files, cs)
    && (guarded && AllGuest(calls) ==> AllGuarded(cs))
  }

  method RunStep(files: Files, cs: seq<Capsule>, calls: seq<(nat, Call)>, i: nat, ghost states: seq<State>,
                 ghost guarded: bool)
    returns (cs': seq<Capsule>, ghost states': seq<State>)
    requires i < |calls| && Midway(files, cs, calls[..i], states, guarded)
    requires LegalAt(Whole(files, cs), calls[i].0, calls[i].1)
    modifies files, cs[calls[i].0]
    ensures cs <= cs' && forall j :: |cs| <= j < |cs'| ==> fresh(cs'[j])
    ensures Midway(files, cs', calls[..i + 1], states', guarded) && states <= states'
  {
    cs' := Step(files, cs, calls[i].0, calls[i].1);
    TraceNext(states, calls, i, Whole(files, cs'));
    states' := states + [Whole(files, cs')];
    ghost var made := calls[..i + 1];
    if AllGuest(made) {
      assert Guest(made[i].1);
      assert AllGuest(calls[..i]) by {
        forall j | 0 <= j < i
          ensures Guest(calls[..i][j].1)
        {
          assert made[j] == calls[..i][j];
        }
      }
    }
  }
}
